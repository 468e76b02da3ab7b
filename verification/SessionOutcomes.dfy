/**
 * What a session stores, told from the events alone: for each event when it is accepted and what it
 * leaves in the rows, and for whole runs where answers, follow-ups and the end reason come from.
 */
module SessionOutcomes {
  import opened Base
  import opened AiRuns
  import opened SessionModel
  import opened SessionInvariants
  import opened SessionEffects
  import opened SessionTheorems

  /* ---------- moving on ---------- */

  /**
   * With the turns as they stand, the next main question is put, or the interview is ready to finish
   * after the last one; one version.
   */
  ghost predicate MovedOn(setup: Setup, before: Session, turns: seq<Turn>, after: Db)
    requires turns != [] && 1 <= turns[|turns| - 1].root <= |setup.questions|
  {
    var n, root := |turns|, turns[|turns| - 1].root;
    if root == |setup.questions| then
      && after.turns == turns
      && after.session == before.(state := ReadyToFinish, currentTurn := None, advanceDeadlineAt := None,
                                  version := before.version + 1)
    else
      && after.turns == turns + [Turn(root + 1, None, n + 1, Main, 0, setup.questions[root].text, Open, None, None)]
      && after.session == before.(state := AwaitingAnswer, currentTurn := Some(n), advanceDeadlineAt := None,
                                  version := before.version + 1)
  }

  lemma LastTurnKnown(setup: Setup, s: System)
    requires Reachable(setup, s)
    ensures s.db.turns != []
    ensures var last := s.db.turns[|s.db.turns| - 1];
      1 <= last.root <= |setup.questions| && last.sequenceNo == |s.db.turns|
      && FollowUpsInBranch(s.db.turns, last.root) == last.followUpIndex
  {
    ReachableInv(setup, s);
    assert TurnOk(setup.questions, s.db.turns, |s.db.turns| - 1);
    BranchCount(setup, s.db.turns);
  }

  /* ---------- starting ---------- */

  /** An interview starts exactly when it has a question, which is then open with the whole duration ahead. */
  lemma StartOutcome(setup: Setup, durationMs: int, now: Time)
    ensures Begin(setup, durationMs, now).Some? <==> setup.questions != []
    ensures setup.questions != [] ==>
      var db := Begin(setup, durationMs, now).value;
      && db.turns == [Turn(1, None, 1, Main, 0, setup.questions[0].text, Open, None, None)]
      && db.session == Session(InProgress, AwaitingAnswer, now + durationMs, None, None, Some(0), 0, 1, None)
      && db.answers == [] && db.runs == []
  {
  }

  /* ---------- submitting ---------- */

  /** The submission is accepted: in time, for the question awaiting its answer, with a text or a skip. */
  predicate IsAccepted(s: System, e: Event) {
    && e.SubmitEv? && s.db.session.state == AwaitingAnswer && e.now < s.db.session.deadlineAt
    && e.turnId + 1 == |s.db.turns|
    && if e.isSkipped then e.text == "" else 1 <= |e.text| <= 10000
  }

  /** What the candidate sent, as it is to be stored. */
  function Sent(e: Event): Answer
    requires e.SubmitEv?
  {
    Answer(e.turnId, if e.isSkipped then None else Some(e.text), e.isSkipped, e.now)
  }

  /** A follow-up may still come: the answer has a text, and both budgets and the time allow it. */
  predicate InvitesFollowUp(setup: Setup, s: System, e: Event)
    requires e.SubmitEv? && s.db.turns != [] && 1 <= s.db.turns[|s.db.turns| - 1].root <= |setup.questions|
  {
    var last := s.db.turns[|s.db.turns| - 1];
    var q := setup.questions[last.root - 1];
    && !e.isSkipped && q.allowFollowUp && last.followUpIndex < q.maxFollowUps
    && s.db.session.followUpsUsed < setup.maxFollowUpsTotal
    && s.db.session.deadlineAt - e.now >= setup.config.minRemainingMs
  }

  function Earlier(a: Time, b: Time): Time {
    if a <= b then a else b
  }

  /** The turns after an accepted submission: the last one closed, at the time of the event. */
  function WithLastClosed(s: System, e: Event): seq<Turn>
    requires e.SubmitEv? && s.db.turns != []
  {
    var n := |s.db.turns|;
    s.db.turns[n - 1 := s.db.turns[n - 1].(status := if e.isSkipped then Skipped else Answered, closedAt := Some(e.now))]
  }

  /** A submission is stored exactly when it is accepted, and then just as it was sent. */
  lemma SubmissionStored(setup: Setup, s: System, e: Event)
    requires Reachable(setup, s) && e.SubmitEv?
    ensures !IsAccepted(s, e) ==> Step(setup, s, e) == s
    ensures IsAccepted(s, e) ==> Step(setup, s, e).db.answers == s.db.answers + [Sent(e)]
    ensures IsAccepted(s, e) ==>
      && s.db.turns != [] && |s.db.turns| <= |Step(setup, s, e).db.turns|
      && Step(setup, s, e).db.turns[..|s.db.turns|] == WithLastClosed(s, e)
  {
    ReachableInv(setup, s);
    LastTurnKnown(setup, s);
  }

  /** The session, runs and calls while a follow-up is being decided. */
  ghost predicate CallIsOut(setup: Setup, s: System, e: Event, after: System)
    requires e.SubmitEv? && s.db.turns != [] && 1 <= s.db.turns[|s.db.turns| - 1].root <= |setup.questions|
  {
    var session, n := s.db.session, |s.db.turns|;
    var root := s.db.turns[n - 1].root;
    && after.db.turns == WithLastClosed(s, e)
    && after.db.session == session.(state := Advancing, currentTurn := None, version := session.version + 1,
         advanceDeadlineAt := Some(Earlier(e.now + setup.config.timeoutMs + setup.config.graceMs, session.deadlineAt)))
    && after.db.runs == s.db.runs + [AiRun(Processing, None, None)]
    && after.calls == s.calls + [Call(|s.db.runs|, session.version + 1, n - 1, n, root,
                                      setup.questions[root - 1].maxFollowUps, setup.maxFollowUpsTotal)]
  }

  /** The decision is taken on the rows as the answer leaves them. */
  lemma CallDecided(setup: Setup, s: System, e: Event)
    requires Reachable(setup, s) && IsAccepted(s, e)
    ensures s.db.turns != [] && 1 <= s.db.turns[|s.db.turns| - 1].root <= |setup.questions|
    ensures var recorded := RecordAnswer(s.db, e.turnId, e.text, e.isSkipped, e.now);
      && recorded.turns == WithLastClosed(s, e)
      && (EvaluateEligibility(Some(setup), recorded, recorded.turns[e.turnId], e.text, e.isSkipped, e.now).MayCall?
          <==> InvitesFollowUp(setup, s, e))
  {
    ReachableInv(setup, s);
    LastTurnKnown(setup, s);
    BranchCountIgnoresStatus(s.db.turns, WithLastClosed(s, e), s.db.turns[|s.db.turns| - 1].root);
  }

  /** After an accepted submission either one call is out, with its own deadline, or the interview has moved on. */
  lemma SubmissionMovesOn(setup: Setup, s: System, e: Event)
    requires Reachable(setup, s) && IsAccepted(s, e)
    ensures s.db.turns != [] && 1 <= s.db.turns[|s.db.turns| - 1].root <= |setup.questions|
    ensures var after := Step(setup, s, e);
      if InvitesFollowUp(setup, s, e) then CallIsOut(setup, s, e, after)
      else MovedOn(setup, s.db.session, WithLastClosed(s, e), after.db) && after.db.runs == s.db.runs && after.calls == s.calls
  {
    CallDecided(setup, s, e);
    LastTurnKnown(setup, s);
    AcceptedGoesThrough(setup, s, e);
  }

  lemma AcceptedGoesThrough(setup: Setup, s: System, e: Event)
    requires Reachable(setup, s) && IsAccepted(s, e)
    ensures SubmitAnswer(setup, s.db, e.turnId, e.text, e.isSkipped, e.now).Ok?
  {
    ReachableInv(setup, s);
  }

  /** Each refusal names what was wrong; TURN_ALREADY_ANSWERED is never given. */
  lemma SubmissionRefusals(setup: Setup, s: System, e: Event)
    requires Reachable(setup, s) && e.SubmitEv?
    ensures var r, state := SubmitAnswer(setup, s.db, e.turnId, e.text, e.isSkipped, e.now), s.db.session.state;
      var late, current := e.now >= s.db.session.deadlineAt, state == AwaitingAnswer && e.turnId + 1 == |s.db.turns|;
      && (r == Err(SessionClosed) <==> state == Closed)
      && (r == Err(SessionExpired) <==> state != Closed && late)
      && (r == Err(TurnNotCurrent) <==> state != Closed && !late && !current)
      && (r == Err(InvalidAnswer) <==> !late && current && !IsAccepted(s, e))
      && (r.Ok? <==> IsAccepted(s, e))
  {
    ReachableInv(setup, s);
  }

  /** Why no call is made after an answer to the last turn: each reason exactly in its case, the first that applies. */
  lemma WhyNoCall(setup: Setup, s: System, text: string, isSkipped: bool, now: Time)
    requires Reachable(setup, s)
    ensures s.db.turns != [] && 1 <= s.db.turns[|s.db.turns| - 1].root <= |setup.questions|
    ensures var last := s.db.turns[|s.db.turns| - 1]; var q := setup.questions[last.root - 1];
      var r := EvaluateEligibility(Some(setup), s.db, last, text, isSkipped, now);
      var answered := !isSkipped && text != "";
      var disabled, spent := !q.allowFollowUp || q.maxFollowUps == 0, q.maxFollowUps <= last.followUpIndex;
      var allSpent := s.db.session.followUpsUsed >= setup.maxFollowUpsTotal;
      var hurried := s.db.session.deadlineAt - now < setup.config.minRemainingMs;
      && EvaluateEligibility(None, s.db, last, text, isSkipped, now) == NoCall(InterviewNotFound)
      && (r == NoCall(AnswerSkippedOrEmpty) <==> !answered)
      && (r == NoCall(SessionNotInProgress) <==> answered && s.db.session.state == Closed)
      && (answered && s.db.session.state != Closed ==>
            && (r == NoCall(FollowUpDisabled) <==> disabled)
            && (r == NoCall(RootBudgetExhausted) <==> !disabled && spent)
            && (r == NoCall(SessionBudgetExhausted) <==> !disabled && !spent && allSpent)
            && (r == NoCall(InsufficientTime) <==> !disabled && !spent && !allSpent && hurried)
            && (r == MayCall(q) <==> !disabled && !spent && !allSpent && !hurried))
  {
    ReachableInv(setup, s);
    LastTurnKnown(setup, s);
  }

  /* ---------- answers over whole runs ---------- */

  /** The answer an event brings, if it brings one. */
  function Submission(s: System, e: Event): seq<Answer> {
    if IsAccepted(s, e) then [Sent(e)] else []
  }

  /** The accepted submissions of a run, in order, as they were sent. */
  function Submissions(setup: Setup, s: System, events: seq<Event>): seq<Answer>
    decreases |events|
  {
    if events == [] then []
    else Submission(s, events[0]) + Submissions(setup, Step(setup, s, events[0]), events[1..])
  }

  lemma OthersKeepAnswers(setup: Setup, s: System, e: Event)
    requires !e.SubmitEv?
    ensures Step(setup, s, e).db.answers == s.db.answers
  {
  }

  lemma AnswersStep(setup: Setup, s: System, e: Event)
    requires Reachable(setup, s)
    ensures Step(setup, s, e).db.answers == s.db.answers + Submission(s, e)
  {
    if e.SubmitEv? { SubmissionStored(setup, s, e); } else { OthersKeepAnswers(setup, s, e); }
  }

  /**
   * Over any run the stored answers grow by exactly the accepted submissions: none is lost, none is
   * changed, none is added, and earlier answers stay as they are.
   */
  lemma {:induction false} AnswersAreSubmissions(setup: Setup, s: System, events: seq<Event>)
    requires Reachable(setup, s)
    ensures Run(setup, s, events).db.answers == s.db.answers + Submissions(setup, s, events)
    decreases |events|
  {
    if events == [] {
    } else {
      var next := Step(setup, s, events[0]);
      AnswersStep(setup, s, events[0]);
      ReachableStep(setup, s, events[0]);
      AnswersAreSubmissions(setup, next, events[1..]);
      Regroup(s.db.answers, Submission(s, events[0]), Submissions(setup, next, events[1..]));
    }
  }

  lemma Regroup<T>(a: seq<T>, b: seq<T>, c: seq<T>)
    ensures (a + b) + c == a + (b + c)
  {
  }

  /** Event i of the run is an accepted submission of this answer. */
  ghost predicate Carries(setup: Setup, s: System, events: seq<Event>, i: nat, a: Answer) {
    i < |events| && IsAccepted(Run(setup, s, events[..i]), events[i]) && Sent(events[i]) == a
  }

  ghost predicate WasSent(setup: Setup, s: System, events: seq<Event>, a: Answer) {
    exists i: nat :: Carries(setup, s, events, i, a)
  }

  lemma {:induction false} SubmissionsWereSent(setup: Setup, s: System, events: seq<Event>, a: Answer)
    requires a in Submissions(setup, s, events)
    ensures WasSent(setup, s, events, a)
    decreases |events|
  {
    if IsAccepted(s, events[0]) && Sent(events[0]) == a {
      assert Run(setup, s, events[..0]) == s;
      assert Carries(setup, s, events, 0, a);
    } else {
      var next := Step(setup, s, events[0]);
      SubmissionsWereSent(setup, next, events[1..], a);
      var i: nat :| Carries(setup, next, events[1..], i, a);
      assert events[..i + 1][1..] == events[1..][..i];
      assert Run(setup, s, events[..i + 1]) == Run(setup, next, events[1..][..i]);
      assert Carries(setup, s, events, i + 1, a);
    }
  }

  /** From the start of a session: answer j is the text, or the skip, that was sent for turn j in time. */
  lemma EveryAnswerWasSent(setup: Setup, durationMs: int, now: Time, events: seq<Event>, j: nat)
    requires Begin(setup, durationMs, now).Some?
    requires j < |Run(setup, System(Begin(setup, durationMs, now).value, []), events).db.answers|
    ensures var start := System(Begin(setup, durationMs, now).value, []); var a := Run(setup, start, events).db.answers[j];
      a.turn == j && WasSent(setup, start, events, a)
  {
    var start := System(Begin(setup, durationMs, now).value, []);
    assert Reachable(setup, start) by { assert start == Run(setup, start, []); }
    AnswersAreSubmissions(setup, start, events);
    assert Reachable(setup, Run(setup, start, events));
    ReachableInv(setup, Run(setup, start, events));
    SubmissionsWereSent(setup, start, events, Run(setup, start, events).db.answers[j]);
  }

  /* ---------- results of the external call ---------- */

  /** The call belongs to the epoch that is still being decided. */
  predicate IsAwaited(s: System, k: nat) {
    k < |s.calls| && s.db.session.state == Advancing && s.calls[k].expectedVersion == s.db.session.version
  }

  /** The advance deadline has passed. */
  predicate IsOverdue(s: System, now: Time) {
    s.db.session.advanceDeadlineAt.Some? && s.db.session.advanceDeadlineAt.value <= now
  }

  /** The result brings a follow-up that is asked: awaited, in time, with a question. */
  predicate BringsFollowUp(s: System, e: Event) {
    && e.DeliverEv? && IsAwaited(s, e.call) && !IsOverdue(s, e.now)
    && e.outcome.Proposed? && e.outcome.ask && e.outcome.question != ""
  }

  /** While ADVANCING the newest call, and only it, is awaited. */
  lemma NewestIsAwaited(setup: Setup, s: System)
    requires Reachable(setup, s) && s.db.session.state == Advancing
    ensures s.calls != [] && IsAwaited(s, |s.calls| - 1) && s.calls[|s.calls| - 1].run == |s.db.runs| - 1
  {
    ReachableInv(setup, s);
  }

  /**
   * A result that is not awaited any more, and a proposal at or after the advance deadline, change no
   * row of the interview; the run behind it ends SUPERSEDED.
   */
  lemma LateResultOnlySupersedes(setup: Setup, s: System, e: Event)
    requires Reachable(setup, s) && e.DeliverEv? && e.call < |s.calls|
    requires !IsAwaited(s, e.call) || (e.outcome.Proposed? && IsOverdue(s, e.now))
    ensures var after := Step(setup, s, e);
      && after.db.session == s.db.session && after.db.turns == s.db.turns && after.db.answers == s.db.answers
      && after.calls == s.calls && RunOvertaken(s.db.runs, after.db.runs, s.calls[e.call].run, e.now)
  {
    ReachableInv(setup, s);
  }

  /** An awaited result in time either asks its follow-up or moves the interview on, and settles its run. */
  lemma AwaitedResultOutcome(setup: Setup, s: System, e: Event)
    requires Reachable(setup, s) && e.DeliverEv? && IsAwaited(s, e.call)
    requires e.outcome.Proposed? ==> !IsOverdue(s, e.now)
    ensures s.db.turns != [] && s.db.runs != [] && 1 <= s.db.turns[|s.db.turns| - 1].root <= |setup.questions|
    ensures var after := Step(setup, s, e); var n, run := |s.db.turns|, |s.db.runs| - 1; var last := s.db.turns[n - 1];
      && after.calls == s.calls && after.db.answers == s.db.answers
      && (if BringsFollowUp(s, e) then
            && after.db.turns == s.db.turns + [Turn(last.root, Some(n - 1), n + 1, FollowUp, last.followUpIndex + 1,
                                                    e.outcome.question, Open, None, Some(run))]
            && after.db.session == s.db.session.(state := AwaitingAnswer, currentTurn := Some(n), advanceDeadlineAt := None,
                 followUpsUsed := s.db.session.followUpsUsed + 1, version := s.db.session.version + 1)
          else MovedOn(setup, s.db.session, s.db.turns, after.db))
      && match e.outcome
         case Proposed(_, _) => RunSucceeded(s.db.runs, after.db.runs, run, e.now)
         case CallFailed(code) => RunFailed(s.db.runs, after.db.runs, run, code, e.now)
         case Rejected(code) => RunFailed(s.db.runs, after.db.runs, run, code, e.now)
  {
    ReachableInv(setup, s);
    LastTurnKnown(setup, s);
    assert Exact(setup, s.db, s.calls[e.call]);
  }

  /* ---------- overdue proposals ---------- */

  /** While ADVANCING the newest run is waited for or was given up; it has not come to an end. */
  ghost predicate NewestWaits(db: Db) {
    db.session.state == Advancing ==>
      db.runs != [] && (db.runs[|db.runs| - 1].status == Processing || db.runs[|db.runs| - 1].status == Superseded)
  }

  lemma NewestWaitsStep(setup: Setup, s: System, e: Event)
    requires Reachable(setup, s) && NewestWaits(s.db)
    ensures NewestWaits(Step(setup, s, e).db)
  {
    match e
    case SubmitEv(_, _, _, _) =>
      SubmissionStored(setup, s, e);
      if IsAccepted(s, e) { SubmissionMovesOn(setup, s, e); }
    case DeliverEv(k, outcome, now) =>
      if k < |s.calls| {
        if !IsAwaited(s, k) || (outcome.Proposed? && IsOverdue(s, now)) {
          LateResultOnlySupersedes(setup, s, e);
        } else {
          AwaitedResultOutcome(setup, s, e);
        }
      }
    case RecoverEv(now) => RecoveryOutcome(setup, s, now);
    case _ => ClosingOutcome(setup, s, e);
  }

  lemma {:induction false} NewestWaitsRun(setup: Setup, s: System, events: seq<Event>)
    requires Reachable(setup, s) && NewestWaits(s.db)
    ensures NewestWaits(Run(setup, s, events).db)
    decreases |events|
  {
    if events != [] {
      NewestWaitsStep(setup, s, events[0]);
      ReachableStep(setup, s, events[0]);
      NewestWaitsRun(setup, Step(setup, s, events[0]), events[1..]);
    }
  }

  lemma ReachableNewestWaits(setup: Setup, s: System)
    requires Reachable(setup, s)
    ensures NewestWaits(s.db)
  {
    var durationMs, now, events :|
      Begin(setup, durationMs, now).Some? && s == Run(setup, System(Begin(setup, durationMs, now).value, []), events);
    var start := System(Begin(setup, durationMs, now).value, []);
    assert Reachable(setup, start) by { assert start == Run(setup, start, []); }
    NewestWaitsRun(setup, start, events);
  }

  /**
   * So while ADVANCING, from the advance deadline on, no proposal is asked any more: the interview
   * stays as it is, and a proposal of the newest call leaves that call's run SUPERSEDED.
   */
  lemma OverdueProposalIsDropped(setup: Setup, s: System, k: nat, ask: bool, question: string, now: Time)
    requires Reachable(setup, s) && s.db.session.state == Advancing && IsOverdue(s, now)
    ensures s.calls != []
    ensures var after := Step(setup, s, DeliverEv(k, Proposed(ask, question), now)).db;
      && after.session == s.db.session && after.turns == s.db.turns && after.answers == s.db.answers
      && (k + 1 == |s.calls| ==> s.calls[k].run < |after.runs| && after.runs[s.calls[k].run].status == Superseded)
  {
    NewestIsAwaited(setup, s);
    if k < |s.calls| {
      ReachableInv(setup, s);
      ReachableNewestWaits(setup, s);
      LateResultOnlySupersedes(setup, s, DeliverEv(k, Proposed(ask, question), now));
    }
  }

  /* ---------- follow-ups over whole runs ---------- */

  function FollowUpTexts(turns: seq<Turn>): seq<string> {
    if turns == [] then []
    else FollowUpTexts(turns[..|turns| - 1])
         + if turns[|turns| - 1].kind == FollowUp then [turns[|turns| - 1].text] else []
  }

  lemma {:induction false} TextsIgnoreStatus(a: seq<Turn>, b: seq<Turn>)
    requires |a| == |b| && forall i :: 0 <= i < |a| ==> a[i].kind == b[i].kind && a[i].text == b[i].text
    ensures FollowUpTexts(a) == FollowUpTexts(b)
    decreases |a|
  {
    if a != [] {
      TextsIgnoreStatus(a[..|a| - 1], b[..|b| - 1]);
    }
  }

  lemma TextsAppend(turns: seq<Turn>, t: Turn)
    ensures FollowUpTexts(turns + [t]) == FollowUpTexts(turns) + if t.kind == FollowUp then [t.text] else []
  {
    assert (turns + [t])[..|turns|] == turns;
  }

  /** The question an event brings in time, if it brings one. */
  function Proposal(s: System, e: Event): seq<string> {
    if BringsFollowUp(s, e) then [e.outcome.question] else []
  }

  /** The questions of a run that were proposed in time, in order. */
  function Proposals(setup: Setup, s: System, events: seq<Event>): seq<string>
    decreases |events|
  {
    if events == [] then []
    else Proposal(s, events[0]) + Proposals(setup, Step(setup, s, events[0]), events[1..])
  }

  lemma MoveAddsNoFollowUp(setup: Setup, before: Session, turns: seq<Turn>, after: Db)
    requires turns != [] && 1 <= turns[|turns| - 1].root <= |setup.questions| && MovedOn(setup, before, turns, after)
    ensures FollowUpTexts(after.turns) == FollowUpTexts(turns)
  {
    if after.turns != turns {
      TextsAppend(turns, after.turns[|turns|]);
    }
  }

  lemma FollowUpsAfterSubmission(setup: Setup, s: System, e: Event)
    requires Reachable(setup, s) && e.SubmitEv?
    ensures FollowUpTexts(Step(setup, s, e).db.turns) == FollowUpTexts(s.db.turns)
  {
    SubmissionStored(setup, s, e);
    if IsAccepted(s, e) {
      SubmissionMovesOn(setup, s, e);
      TextsIgnoreStatus(s.db.turns, WithLastClosed(s, e));
      if !InvitesFollowUp(setup, s, e) {
        MoveAddsNoFollowUp(setup, s.db.session, WithLastClosed(s, e), Step(setup, s, e).db);
      }
    }
  }

  lemma FollowUpsAfterResult(setup: Setup, s: System, e: Event)
    requires Reachable(setup, s) && e.DeliverEv?
    ensures FollowUpTexts(Step(setup, s, e).db.turns) == FollowUpTexts(s.db.turns) + Proposal(s, e)
  {
    var after := Step(setup, s, e).db;
    if e.call < |s.calls| {
      if !IsAwaited(s, e.call) || (e.outcome.Proposed? && IsOverdue(s, e.now)) {
        LateResultOnlySupersedes(setup, s, e);
      } else {
        AwaitedResultOutcome(setup, s, e);
        if BringsFollowUp(s, e) {
          TextsAppend(s.db.turns, after.turns[|s.db.turns|]);
        } else {
          MoveAddsNoFollowUp(setup, s.db.session, s.db.turns, after);
        }
      }
    }
  }

  lemma FollowUpsStep(setup: Setup, s: System, e: Event)
    requires Reachable(setup, s)
    ensures FollowUpTexts(Step(setup, s, e).db.turns) == FollowUpTexts(s.db.turns) + Proposal(s, e)
  {
    match e
    case SubmitEv(_, _, _, _) => FollowUpsAfterSubmission(setup, s, e);
    case DeliverEv(_, _, _) => FollowUpsAfterResult(setup, s, e);
    case RecoverEv(now) =>
      RecoveryOutcome(setup, s, now);
      if Step(setup, s, e) != s { MoveAddsNoFollowUp(setup, s.db.session, s.db.turns, Step(setup, s, e).db); }
    case _ =>
      ClosingOutcome(setup, s, e);
      TextsIgnoreStatus(s.db.turns, Step(setup, s, e).db.turns);
  }

  /** Over any run the follow-ups asked are exactly the questions proposed in time, word for word and in order. */
  lemma {:induction false} FollowUpsAreProposals(setup: Setup, s: System, events: seq<Event>)
    requires Reachable(setup, s)
    ensures FollowUpTexts(Run(setup, s, events).db.turns) == FollowUpTexts(s.db.turns) + Proposals(setup, s, events)
    decreases |events|
  {
    if events == [] {
    } else {
      var next := Step(setup, s, events[0]);
      FollowUpsStep(setup, s, events[0]);
      ReachableStep(setup, s, events[0]);
      FollowUpsAreProposals(setup, next, events[1..]);
      Regroup(FollowUpTexts(s.db.turns), Proposal(s, events[0]), Proposals(setup, next, events[1..]));
    }
  }

  /* ---------- recovery ---------- */

  /** Recovery acts exactly while ADVANCING from the advance deadline on; it fails what is still active and moves on. */
  lemma RecoveryOutcome(setup: Setup, s: System, now: Time)
    requires Reachable(setup, s)
    ensures s.db.turns != [] && 1 <= s.db.turns[|s.db.turns| - 1].root <= |setup.questions|
    ensures var after := Step(setup, s, RecoverEv(now));
      if s.db.session.state == Advancing && IsOverdue(s, now) then
        && MovedOn(setup, s.db.session, s.db.turns, after.db)
        && after.db.answers == s.db.answers && after.calls == s.calls
        && ActiveRunsFailed(s.db.runs, after.db.runs, "ADVANCING_RECOVERED", now)
      else after == s
  {
    ReachableInv(setup, s);
    LastTurnKnown(setup, s);
    if IsStale(s.db, now) {
      RecoverIsNextMain(setup, s.db, now);
    }
  }

  /** Branches the services keep for rows that never occur: no turn at all, a turn closed while current, a spent budget, a lost root. */
  lemma DefensiveBranches(setup: Setup, db: Db, call: Call, turnId: nat, text: string, isSkipped: bool, root: nat, now: Time)
    ensures db.turns == [] && IsStale(db, now) ==>
      var after := RecoverIfStale(setup, db, now);
      && after.(runs := db.runs)
         == db.(session := db.session.(state := ReadyToFinish, currentTurn := None, advanceDeadlineAt := None,
                                       version := db.session.version + 1))
      && ActiveRunsFailed(db.runs, after.runs, "ADVANCING_RECOVERED", now)
    ensures SubmitAnswer(setup, db, turnId, text, isSkipped, now) == Err(TurnAlreadyAnswered) <==>
      && db.session.status == InProgress && now < db.session.deadlineAt
      && db.session.currentTurn == Some(turnId) && turnId < |db.turns| && db.turns[turnId].status != Open
    ensures FollowUpsInBranch(db.turns, call.rootPosition) >= call.rootMaxFollowUps
            || db.session.followUpsUsed >= call.maxFollowUpsTotal ==>
      var after := ApplyAiResult(setup, db, call, true, text, now);
      after.session.followUpsUsed == db.session.followUpsUsed && forall t :: t in after.turns && t !in db.turns ==> t.kind == Main
    ensures PositionOf(setup.questions, root) == if 1 <= root <= |setup.questions| then root else 1
  {
  }

  /* ---------- closing ---------- */

  /** The end this event puts to the session, if any: its reason and the status it leaves. */
  function EndBy(s: System, e: Event): Option<(EndReason, SessionStatus)> {
    if s.db.session.state == Closed then None
    else match e
      case SweepEv(now) => if now >= s.db.session.deadlineAt then Some((DeadlineReached, Expired)) else None
      case CancelEv(_) => Some((HrCancelled, Cancelled))
      case FinishEv(confirm, now) =>
        if now >= s.db.session.deadlineAt then None
        else if s.db.session.state == ReadyToFinish then Some((AllQuestionsAnswered, Completed))
        else if confirm then Some((SubmittedEarly, Completed))
        else None
      case _ => None
  }

  /** What closing leaves: an open turn closed unanswered, and nothing else touched but the session row. */
  ghost predicate ClosedAs(s: System, after: System, end: (EndReason, SessionStatus), now: Time) {
    && after.db.session == s.db.session.(status := end.1, state := Closed, endedAt := Some(now), endReason := Some(end.0),
                                         currentTurn := None, version := s.db.session.version + 1)
    && |after.db.turns| == |s.db.turns|
    && (forall i :: 0 <= i < |s.db.turns| ==>
          after.db.turns[i] == if s.db.turns[i].status == Open
                               then s.db.turns[i].(status := ClosedUnanswered, closedAt := Some(now)) else s.db.turns[i])
    && after.db.answers == s.db.answers && after.db.runs == s.db.runs && after.calls == s.calls
  }

  /**
   * A finish ends with ALL_QUESTIONS_ANSWERED exactly at READY_TO_FINISH and otherwise, when
   * confirmed, with SUBMITTED_EARLY; a sweep with DEADLINE_REACHED and a cancel with HR_CANCELLED.
   */
  lemma ClosingOutcome(setup: Setup, s: System, e: Event)
    requires Reachable(setup, s) && (e.SweepEv? || e.FinishEv? || e.CancelEv?)
    ensures match EndBy(s, e)
      case Some(end) => ClosedAs(s, Step(setup, s, e), end, e.now)
      case None => Step(setup, s, e) == s
  {
    ReachableInv(setup, s);
    forall i | 0 <= i < |s.db.turns| && s.db.turns[i].status == Open
      ensures s.db.session.currentTurn == Some(i)
    {
      TurnLifecycle(setup, s, i);
    }
  }

  lemma FinishRefusals(setup: Setup, s: System, confirm: bool, now: Time)
    requires Reachable(setup, s)
    ensures var r, state, late := Finish(s.db, confirm, now), s.db.session.state, now >= s.db.session.deadlineAt;
      && (r == Err(SessionClosed) <==> state == Closed)
      && (r == Err(SessionExpired) <==> state != Closed && late)
      && (r == Err(ConfirmationRequired) <==> state != Closed && !late && state != ReadyToFinish && !confirm)
      && (r.Ok? <==> EndBy(s, FinishEv(confirm, now)).Some?)
  {
    ReachableInv(setup, s);
  }

  lemma OthersDoNotEnd(setup: Setup, s: System, e: Event)
    requires Reachable(setup, s) && EndBy(s, e).None?
    ensures var after := Step(setup, s, e).db.session;
      after.endReason == s.db.session.endReason && after.endedAt == s.db.session.endedAt && after.status == s.db.session.status
      && (after.state == Closed <==> s.db.session.state == Closed)
  {
    ReachableInv(setup, s);
    if e.SweepEv? || e.FinishEv? || e.CancelEv? { ClosingOutcome(setup, s, e); }
  }

  /** One uninterrupted poll: the sweep when the deadline has passed, otherwise the recovery. */
  lemma PollOutcome(setup: Setup, s: System, now: Time)
    requires Reachable(setup, s)
    ensures Poll(setup, s.db, now) ==
      if EndBy(s, SweepEv(now)).Some? then Step(setup, s, SweepEv(now)).db else Step(setup, s, RecoverEv(now)).db
  {
    StatusIsState(setup, s);
  }

  lemma StatusIsState(setup: Setup, s: System)
    requires Reachable(setup, s)
    ensures s.db.session.status == InProgress <==> s.db.session.state != Closed
  {
    ReachableInv(setup, s);
  }

  /** The first end a run puts to the session, with its time. */
  function Ending(setup: Setup, s: System, events: seq<Event>): Option<((EndReason, SessionStatus), Time)>
    decreases |events|
  {
    if events == [] then None
    else match EndBy(s, events[0])
      case Some(end) => Some((end, events[0].now))
      case None => Ending(setup, Step(setup, s, events[0]), events[1..])
  }

  lemma {:induction false} EndedStays(setup: Setup, s: System, events: seq<Event>)
    requires Reachable(setup, s) && s.db.session.state == Closed
    ensures var after := Run(setup, s, events).db;
      after.session == s.db.session && after.turns == s.db.turns && after.answers == s.db.answers
    decreases |events|
  {
    if events != [] {
      ReachableInv(setup, s);
      StepEffect(setup, s, events[0]);
      ReachableStep(setup, s, events[0]);
      EndedStays(setup, Step(setup, s, events[0]), events[1..]);
    }
  }

  /** Over any run, reason, status and time of the end are those of the first event that ends the session. */
  lemma {:induction false} EndTellsTheEvent(setup: Setup, s: System, events: seq<Event>)
    requires Reachable(setup, s) && s.db.session.state != Closed
    ensures var after := Run(setup, s, events).db.session;
      match Ending(setup, s, events)
      case Some((end, time)) =>
        after.state == Closed && after.endReason == Some(end.0) && after.status == end.1 && after.endedAt == Some(time)
      case None => after.state != Closed && after.endReason == None && after.status == InProgress && after.endedAt == None
    decreases |events|
  {
    ReachableInv(setup, s);
    if events != [] {
      var e, next := events[0], Step(setup, s, events[0]);
      ReachableStep(setup, s, e);
      if EndBy(s, e).Some? {
        ClosingOutcome(setup, s, e);
        EndedStays(setup, next, events[1..]);
      } else {
        OthersDoNotEnd(setup, s, e);
        EndTellsTheEvent(setup, next, events[1..]);
      }
    }
  }
}
