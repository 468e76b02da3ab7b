/** What one step can do to the rows, event by event: the facts all run-level results rest on. */
module SessionEffects {
  import opened Base
  import opened AiRuns
  import opened SessionModel
  import opened SessionInvariants

  predicate Untouched(a: Db, b: Db) {
    a.session == b.session && a.turns == b.turns && a.answers == b.answers
  }

  ghost predicate KindsKept(a: Db, b: Db) {
    |a.turns| <= |b.turns| && forall i :: 0 <= i < |a.turns| ==> b.turns[i].kind == a.turns[i].kind
  }

  /** No turn is added: the state moves forward through the phases of an interview. */
  ghost predicate PhaseMoves(setup: Setup, a: Db, b: Db)
    requires a.turns != []
  {
    var x, y := a.session.state, b.session.state;
    && |b.turns| == |a.turns|
    && (|| (x == AwaitingAnswer && y == Advancing)
        || (y == ReadyToFinish && (x == AwaitingAnswer || x == Advancing)
            && a.turns[|a.turns| - 1].root == |setup.questions|)
        || (x != Closed && y == Closed))
  }

  /** One turn is added, on the way back to AWAITING_ANSWER; a follow-up only out of ADVANCING, within budget. */
  ghost predicate TurnAdded(setup: Setup, a: Db, b: Db)
    requires a.turns != []
  {
    var last := a.turns[|a.turns| - 1];
    && |b.turns| == |a.turns| + 1
    && b.session.state == AwaitingAnswer
    && (a.session.state == AwaitingAnswer || a.session.state == Advancing)
    && (b.turns[|a.turns|].kind == FollowUp ==>
          && a.session.state == Advancing && a.session.followUpsUsed < setup.maxFollowUpsTotal
          && 1 <= last.root <= |setup.questions| && last.followUpIndex < Limits(setup)[last.root - 1])
  }

  /** A step leaves session, turns and answers alone, or takes exactly one version and one notch of the measure. */
  ghost predicate Effect(setup: Setup, a: Db, b: Db)
    requires a.turns != []
  {
    && Evolves(a.runs, b.runs)
    && (Untouched(a, b)
        || (&& b.session.version == a.session.version + 1
            && Measure(setup, b) < Measure(setup, a)
            && KindsKept(a, b)
            && (PhaseMoves(setup, a, b) || TurnAdded(setup, a, b))))
  }

  lemma NextMainEffect(setup: Setup, a: Db, b: Db, runs: seq<AiRun>)
    requires TurnsOk(setup, b.turns) && KindsKept(a, b) && |a.turns| == |b.turns| && a.turns != []
    requires a.turns[|a.turns| - 1].root == b.turns[|b.turns| - 1].root
    requires a.session.state == AwaitingAnswer || a.session.state == Advancing
    requires b.session.version == a.session.version && Evolves(a.runs, runs)
    ensures var last := b.turns[|b.turns| - 1];
      Effect(setup, a, OpenNextMain(setup, b, last.root, last.sequenceNo).(runs := runs))
  {
    assert TurnOk(setup.questions, b.turns, |b.turns| - 1);
  }

  /** The answered turn keeps its kind and its root. */
  lemma RecordedTurns(db: Db, turnId: nat, text: string, isSkipped: bool, now: Time)
    requires turnId < |db.turns|
    ensures var r := RecordAnswer(db, turnId, text, isSkipped, now);
      && KindsKept(db, r) && |r.turns| == |db.turns| && r.session == db.session && r.runs == db.runs
      && forall i :: 0 <= i < |db.turns| ==> r.turns[i].root == db.turns[i].root
  {
  }

  lemma SubmitEffect(setup: Setup, s: System, turnId: nat, text: string, isSkipped: bool, now: Time)
    requires Inv(setup, s)
    ensures var r := SubmitAnswer(setup, s.db, turnId, text, isSkipped, now);
      r.Ok? ==> Effect(setup, s.db, r.value.db)
  {
    var r := SubmitAnswer(setup, s.db, turnId, text, isSkipped, now);
    if r.Ok? {
      assert s.db.session.state == AwaitingAnswer && turnId == |s.db.turns| - 1;
      var recorded := RecordAnswer(s.db, turnId, text, isSkipped, now);
      RecordedTurns(s.db, turnId, text, isSkipped, now);
      if r.value.call.None? {
        CloseLastTurn(setup, s.db.turns, if isSkipped then Skipped else Answered, now);
        assert TurnOk(setup.questions, recorded.turns, turnId);
        NextMainEffect(setup, s.db, recorded, s.db.runs);
      }
    }
  }

  lemma DeliverEffect(setup: Setup, s: System, k: nat, outcome: Outcome, now: Time)
    requires Inv(setup, s) && k < |s.calls|
    ensures Effect(setup, s.db, Deliver(setup, s.db, s.calls[k], outcome, now))
  {
    var c := s.calls[k];
    var after := Deliver(setup, s.db, c, outcome, now);
    if GuardPasses(s.db, c) {
      assert Exact(setup, s.db, c);
      if Untouched(s.db, after) {
      } else if after.session.followUpsUsed == s.db.session.followUpsUsed {
        NextMainEffect(setup, s.db, s.db, after.runs);
      } else {
        assert KindsKept(s.db, after);
      }
    }
  }

  lemma FailActiveEvolves(runs: seq<AiRun>, code: string, now: Time)
    ensures Evolves(runs, FailActive(runs, code, now))
  {
  }

  /** Recovery is the opening of the next main question, over a settled run table. */
  lemma RecoverIsNextMain(setup: Setup, db: Db, now: Time)
    requires TurnsOk(setup, db.turns)
    ensures var last := db.turns[|db.turns| - 1];
      && 1 <= last.root <= |setup.questions|
      && RecoverStaleAdvancing(setup, db, now)
         == OpenNextMain(setup, db, last.root, last.sequenceNo).(runs := FailActive(db.runs, RECOVERED, now))
  {
    LatestIsLast(setup, db.turns);
    assert TurnOk(setup.questions, db.turns, |db.turns| - 1);
  }

  lemma RecoverEffect(setup: Setup, db: Db, now: Time)
    requires TurnsOk(setup, db.turns)
    ensures Effect(setup, db, RecoverIfStale(setup, db, now))
  {
    if IsStale(db, now) {
      RecoverIsNextMain(setup, db, now);
      FailActiveEvolves(db.runs, RECOVERED, now);
      NextMainEffect(setup, db, db, FailActive(db.runs, RECOVERED, now));
    }
  }

  lemma CloseEffect(setup: Setup, s: System, reason: EndReason, now: Time)
    requires Inv(setup, s) && s.db.session.status == InProgress
    ensures Effect(setup, s.db, Close(s.db, reason, now))
  {
  }

  lemma StepEffect(setup: Setup, s: System, e: Event)
    requires Inv(setup, s)
    ensures Effect(setup, s.db, Step(setup, s, e).db)
  {
    match e
    case SubmitEv(turnId, text, isSkipped, now) => SubmitEffect(setup, s, turnId, text, isSkipped, now);
    case DeliverEv(call, outcome, now) => if call < |s.calls| { DeliverEffect(setup, s, call, outcome, now); }
    case RecoverEv(now) => RecoverEffect(setup, s.db, now);
    case SweepEv(now) =>
      if s.db.session.status == InProgress && now >= s.db.session.deadlineAt { CloseEffect(setup, s, DeadlineReached, now); }
    case FinishEv(confirm, now) =>
      if Finish(s.db, confirm, now).Ok? {
        CloseEffect(setup, s, if s.db.session.state != ReadyToFinish then SubmittedEarly else AllQuestionsAnswered, now);
      }
    case CancelEv(now) => if s.db.session.status == InProgress { CloseEffect(setup, s, HrCancelled, now); }
  }
}
