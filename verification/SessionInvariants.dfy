/** What holds of a session in every reachable state, and why each step keeps it. */
module SessionInvariants {
  import opened Base
  import opened AiRuns
  import opened SessionModel

  predicate IsSubmitted(t: Turn) {
    t.status == Answered || t.status == Skipped
  }

  /** The turn's own fields, and its link to the turn before it. */
  ghost predicate TurnOk(questions: seq<Question>, turns: seq<Turn>, i: nat)
    requires i < |turns|
  {
    var t := turns[i];
    && t.sequenceNo == i + 1
    && 1 <= t.root <= |questions|
    && var q := questions[t.root - 1];
       && t.followUpIndex <= q.maxFollowUps
       && (t.closedAt.None? <==> t.status == Open)
       && match t.kind
          case Main =>
            && t.followUpIndex == 0 && t.parent == None && t.aiRun == None && t.text == q.text
            && t.root == (if i == 0 then 1 else turns[i - 1].root + 1)
          case FollowUp =>
            && 0 < i && t.parent == Some(i - 1) && t.aiRun.Some? && t.text != "" && q.allowFollowUp
            && t.root == turns[i - 1].root && t.followUpIndex == turns[i - 1].followUpIndex + 1
  }

  ghost predicate TurnsOk(setup: Setup, turns: seq<Turn>) {
    && turns != []
    && (forall i :: 0 <= i < |turns| ==> TurnOk(setup.questions, turns, i))
    && (forall i :: 0 <= i < |turns| - 1 ==> IsSubmitted(turns[i]))
  }

  /** The budget counter counts exactly the follow-up turns. */
  ghost predicate BudgetOk(setup: Setup, db: Db)
    requires db.turns != []
  {
    && db.session.followUpsUsed == |db.turns| - db.turns[|db.turns| - 1].root
    && db.session.followUpsUsed <= setup.maxFollowUpsTotal
  }

  /** The session row agrees with its last turn. */
  ghost predicate StatusOk(setup: Setup, db: Db)
    requires db.turns != []
  {
    var s, last := db.session, db.turns[|db.turns| - 1];
    && (s.status == InProgress <==> s.state != Closed)
    && (s.endReason.Some? <==> s.state == Closed)
    && (s.endedAt.Some? <==> s.state == Closed)
    && (s.endReason.Some? ==> s.status == EndStatus(s.endReason.value))
    && (s.endReason == Some(AllQuestionsAnswered) ==> last.root == |setup.questions| && IsSubmitted(last))
    && match s.state
       case AwaitingAnswer => last.status == Open && s.currentTurn == Some(|db.turns| - 1) && s.advanceDeadlineAt == None
       case Advancing =>
         && last.status == Answered && s.currentTurn == None
         && s.advanceDeadlineAt.Some? && s.advanceDeadlineAt.value <= s.deadlineAt
       case ReadyToFinish =>
         IsSubmitted(last) && s.currentTurn == None && s.advanceDeadlineAt == None && last.root == |setup.questions|
       case Closed => last.status != Open && s.currentTurn == None
  }

  /** Answer j belongs to turn j: every submitted turn has exactly one answer, no other turn has any. */
  ghost predicate AnswersOk(db: Db)
    requires db.turns != []
  {
    && |db.answers| == |db.turns| - (if IsSubmitted(db.turns[|db.turns| - 1]) then 0 else 1)
    && forall j :: 0 <= j < |db.answers| ==>
         && db.answers[j].turn == j
         && (db.answers[j].isSkipped <==> db.turns[j].status == Skipped)
         && (db.answers[j].isSkipped <==> db.answers[j].text.None?)
         && (db.answers[j].text.Some? ==> 0 < |db.answers[j].text.value| <= MAX_ANSWER)
  }

  ghost predicate RunsOk(db: Db) {
    && WellFormed(db.runs)
    && OnlyLastActive(db.runs)
    && ((db.session.state == AwaitingAnswer || db.session.state == ReadyToFinish) ==> NoneActive(db.runs))
  }

  /** The captured context is still what the rows say. */
  ghost predicate Exact(setup: Setup, db: Db, call: Call) {
    && db.turns != []
    && var last := db.turns[|db.turns| - 1];
       && 1 <= last.root <= |setup.questions|
       && var q := setup.questions[last.root - 1];
          && call.run == |db.runs| - 1
          && call.parentTurn == |db.turns| - 1
          && call.lastSequenceNo == last.sequenceNo == |db.turns|
          && call.rootPosition == last.root
          && call.rootMaxFollowUps == q.maxFollowUps && q.allowFollowUp
          && call.maxFollowUpsTotal == setup.maxFollowUpsTotal
          && last.followUpIndex < q.maxFollowUps
          && db.session.followUpsUsed < setup.maxFollowUpsTotal
          && db.session.status == InProgress && db.session.state == Advancing
  }

  /** Only the newest call can be current, and while ADVANCING it is. */
  ghost predicate CallsOk(setup: Setup, s: System) {
    && (forall k :: 0 <= k < |s.calls| ==>
          && s.calls[k].expectedVersion <= s.db.session.version
          && s.calls[k].run < |s.db.runs|
          && (s.calls[k].expectedVersion == s.db.session.version ==> Exact(setup, s.db, s.calls[k])))
    && (s.db.session.state == Advancing ==>
          s.calls != [] && s.calls[|s.calls| - 1].expectedVersion == s.db.session.version)
  }

  /** The follow-up limit of each main question. */
  function Limits(setup: Setup): (r: seq<nat>)
    ensures |r| == |setup.questions|
  {
    seq(|setup.questions|, i requires 0 <= i < |setup.questions| => setup.questions[i].maxFollowUps)
  }

  function Min(a: nat, b: nat): nat {
    if a <= b then a else b
  }

  /** The longest transcript the interview allows. */
  function Capacity(setup: Setup): nat {
    |setup.questions| + Min(setup.maxFollowUpsTotal, Sum(Limits(setup)))
  }

  function Rank(state: RuntimeState): nat {
    match state
    case AwaitingAnswer => 3
    case Advancing => 2
    case ReadyToFinish => 1
    case Closed => 0
  }

  /** Falls with every step that changes the session. */
  function Measure(setup: Setup, db: Db): int {
    2 * (Capacity(setup) - |db.turns|) + Rank(db.session.state)
  }

  ghost predicate Inv(setup: Setup, s: System) {
    && TurnsOk(setup, s.db.turns)
    && BudgetOk(setup, s.db)
    && StatusOk(setup, s.db)
    && AnswersOk(s.db)
    && RunsOk(s.db)
    && CallsOk(setup, s)
    && s.db.session.version + Measure(setup, s.db) <= 2 * Capacity(setup) + 2
  }

  /* ---------- counting follow-ups ---------- */

  /** Roots never decrease along the transcript. */
  lemma {:induction false} RootsAscend(setup: Setup, turns: seq<Turn>, i: nat, j: nat)
    requires TurnsOk(setup, turns) && i <= j < |turns|
    ensures turns[i].root <= turns[j].root
    decreases j
  {
    if i < j {
      RootsAscend(setup, turns, i, j - 1);
      assert TurnOk(setup.questions, turns, j);
    }
  }

  lemma PrefixOk(setup: Setup, turns: seq<Turn>, k: nat)
    requires TurnsOk(setup, turns) && 0 < k <= |turns|
    ensures TurnsOk(setup, turns[..k])
  {
    forall i | 0 <= i < k
      ensures TurnOk(setup.questions, turns[..k], i)
    {
      assert TurnOk(setup.questions, turns, i);
    }
  }

  /** The database count of a branch is the index of its last follow-up. */
  lemma {:induction false} BranchCount(setup: Setup, turns: seq<Turn>)
    requires TurnsOk(setup, turns)
    ensures FollowUpsInBranch(turns, turns[|turns| - 1].root) == turns[|turns| - 1].followUpIndex
    decreases |turns|
  {
    var n := |turns|;
    var last := turns[n - 1];
    assert TurnOk(setup.questions, turns, n - 1);
    if n == 1 {
      assert turns[..0] == [];
    } else {
      PrefixOk(setup, turns, n - 1);
      if last.kind == FollowUp {
        BranchCount(setup, turns[..n - 1]);
      } else {
        RootsAscend(setup, turns, n - 2, n - 1);
        NoFollowUpsYet(setup, turns[..n - 1], last.root);
      }
    }
  }

  lemma {:induction false} NoFollowUpsYet(setup: Setup, turns: seq<Turn>, root: nat)
    requires TurnsOk(setup, turns) && turns[|turns| - 1].root < root
    ensures FollowUpsInBranch(turns, root) == 0
    decreases |turns|
  {
    var n := |turns|;
    if n == 1 {
      assert turns[..0] == [];
    } else {
      PrefixOk(setup, turns, n - 1);
      RootsAscend(setup, turns, n - 2, n - 1);
      NoFollowUpsYet(setup, turns[..n - 1], root);
    }
  }

  /** The statuses do not enter the count. */
  lemma {:induction false} BranchCountIgnoresStatus(a: seq<Turn>, b: seq<Turn>, root: nat)
    requires |a| == |b| && forall i :: 0 <= i < |a| ==> a[i].root == b[i].root && a[i].kind == b[i].kind
    ensures FollowUpsInBranch(a, root) == FollowUpsInBranch(b, root)
    decreases |a|
  {
    if a != [] {
      BranchCountIgnoresStatus(a[..|a| - 1], b[..|b| - 1], root);
    }
  }

  /** Follow-ups so far stay within the limits of the questions asked so far. */
  lemma {:induction false} FollowUpsBounded(setup: Setup, turns: seq<Turn>)
    requires TurnsOk(setup, turns)
    ensures var last := turns[|turns| - 1];
      1 <= last.root <= |setup.questions|
      && |turns| - last.root <= Sum(Limits(setup)[..last.root - 1]) + last.followUpIndex
    decreases |turns|
  {
    var n := |turns|;
    var last := turns[n - 1];
    assert TurnOk(setup.questions, turns, n - 1);
    if n > 1 {
      var previous := turns[n - 2];
      PrefixOk(setup, turns, n - 1);
      FollowUpsBounded(setup, turns[..n - 1]);
      if last.kind == Main {
        var asked := Limits(setup)[..last.root - 1];
        assert asked[..previous.root - 1] == Limits(setup)[..previous.root - 1];
        assert TurnOk(setup.questions, turns, n - 2);
      }
    }
  }

  /** No transcript exceeds the capacity. */
  lemma TurnsWithinCapacity(setup: Setup, db: Db)
    requires TurnsOk(setup, db.turns) && BudgetOk(setup, db)
    ensures |db.turns| <= Capacity(setup)
  {
    var last := db.turns[|db.turns| - 1];
    FollowUpsBounded(setup, db.turns);
    assert TurnOk(setup.questions, db.turns, |db.turns| - 1);
    var limits := Limits(setup);
    SumPrefix(limits, last.root);
    assert limits[..last.root][..last.root - 1] == limits[..last.root - 1];
  }

  /* ---------- table changes ---------- */

  lemma FailActiveOk(runs: seq<AiRun>, code: string, now: Time)
    requires WellFormed(runs)
    ensures WellFormed(FailActive(runs, code, now)) && NoneActive(FailActive(runs, code, now))
  {
  }

  /** Appending a turn that links to the last one. */
  lemma AppendTurn(setup: Setup, turns: seq<Turn>, t: Turn)
    requires TurnsOk(setup, turns) && IsSubmitted(turns[|turns| - 1])
    requires TurnOk(setup.questions, turns + [t], |turns|)
    ensures TurnsOk(setup, turns + [t])
  {
    var more := turns + [t];
    forall i | 0 <= i < |more|
      ensures TurnOk(setup.questions, more, i)
    {
      if i < |turns| {
        assert TurnOk(setup.questions, turns, i);
      }
    }
  }

  /** Changing only the status of the last turn. */
  lemma CloseLastTurn(setup: Setup, turns: seq<Turn>, status: TurnStatus, now: Time)
    requires TurnsOk(setup, turns) && status != Open
    ensures TurnsOk(setup, turns[|turns| - 1 := turns[|turns| - 1].(status := status, closedAt := Some(now))])
  {
    var n := |turns|;
    var closed := turns[n - 1 := turns[n - 1].(status := status, closedAt := Some(now))];
    forall i | 0 <= i < n
      ensures TurnOk(setup.questions, closed, i)
    {
      assert TurnOk(setup.questions, turns, i);
    }
  }

  /* ---------- the steps ---------- */

  /** Rows whose last turn is submitted, before the next turn is opened. */
  ghost predicate Resolvable(setup: Setup, db: Db) {
    && TurnsOk(setup, db.turns)
    && BudgetOk(setup, db)
    && IsSubmitted(db.turns[|db.turns| - 1])
    && AnswersOk(db)
    && WellFormed(db.runs) && NoneActive(db.runs)
    && db.session.status == InProgress && db.session.endReason.None? && db.session.endedAt.None?
    && |db.turns| <= Capacity(setup)
  }

  /** The turn table after opening the next main question. */
  lemma NextMainTurnsOk(setup: Setup, db: Db)
    requires TurnsOk(setup, db.turns) && BudgetOk(setup, db) && IsSubmitted(db.turns[|db.turns| - 1])
    ensures var last := db.turns[|db.turns| - 1]; var after := OpenNextMain(setup, db, last.root, last.sequenceNo);
      && last.sequenceNo == |db.turns| && 1 <= last.root <= |setup.questions|
      && TurnsOk(setup, after.turns) && BudgetOk(setup, after) && |after.turns| <= Capacity(setup)
      && (after.session.state == ReadyToFinish <==> last.root == |setup.questions|)
      && (after.session.state == ReadyToFinish ==> after.turns == db.turns)
      && (after.session.state == AwaitingAnswer ==>
            |after.turns| == |db.turns| + 1 && after.turns[..|db.turns|] == db.turns
            && after.turns[|db.turns|].status == Open)
  {
    var n := |db.turns|;
    var last := db.turns[n - 1];
    assert TurnOk(setup.questions, db.turns, n - 1);
    var after := OpenNextMain(setup, db, last.root, last.sequenceNo);
    if last.root < |setup.questions| {
      var t := MainTurn(setup.questions[last.root], last.root + 1, n + 1);
      assert after.turns == db.turns + [t];
      assert TurnOk(setup.questions, db.turns + [t], n);
      AppendTurn(setup, db.turns, t);
    }
    TurnsWithinCapacity(setup, after);
  }

  /** Opening the next main question from the true last turn restores every row invariant. */
  lemma OpenNextMainOk(setup: Setup, db: Db, calls: seq<Call>)
    requires Resolvable(setup, db)
    requires forall k :: 0 <= k < |calls| ==>
      calls[k].expectedVersion <= db.session.version && calls[k].run < |db.runs|
    requires db.session.version + 2 * (Capacity(setup) - |db.turns|) + 2 <= 2 * Capacity(setup) + 2
    ensures var last := db.turns[|db.turns| - 1];
      Inv(setup, System(OpenNextMain(setup, db, last.root, last.sequenceNo), calls))
  {
    NextMainTurnsOk(setup, db);
  }

  lemma BeginOk(setup: Setup, durationMs: int, now: Time)
    requires Begin(setup, durationMs, now).Some?
    ensures Inv(setup, System(Begin(setup, durationMs, now).value, []))
  {
    var db := Begin(setup, durationMs, now).value;
    assert TurnOk(setup.questions, db.turns, 0);
    TurnsWithinCapacity(setup, db);
  }

  lemma RecordAnswerOk(setup: Setup, s: System, text: string, isSkipped: bool, now: Time)
    requires Inv(setup, s) && s.db.session.state == AwaitingAnswer && ValidAnswer(text, isSkipped)
    ensures var n := |s.db.turns|; var r := RecordAnswer(s.db, n - 1, text, isSkipped, now);
      && Resolvable(setup, r)
      && r.turns[n - 1].root == s.db.turns[n - 1].root && r.turns[n - 1].followUpIndex == s.db.turns[n - 1].followUpIndex
      && FollowUpsInBranch(r.turns, r.turns[n - 1].root) == r.turns[n - 1].followUpIndex
  {
    var n := |s.db.turns|;
    CloseLastTurn(setup, s.db.turns, if isSkipped then Skipped else Answered, now);
    TurnsWithinCapacity(setup, s.db);
    BranchCount(setup, RecordAnswer(s.db, n - 1, text, isSkipped, now).turns);
  }

  lemma SubmitOk(setup: Setup, s: System, turnId: nat, text: string, isSkipped: bool, now: Time)
    requires Inv(setup, s)
    ensures Inv(setup, Step(setup, s, SubmitEv(turnId, text, isSkipped, now)))
  {
    var r := SubmitAnswer(setup, s.db, turnId, text, isSkipped, now);
    if r.Ok? {
      assert s.db.session.state == AwaitingAnswer && turnId == |s.db.turns| - 1;
      if r.value.call.None? {
        AnswerThenNextMainOk(setup, s, text, isSkipped, now);
        assert r.value.db.turns != [];
      } else {
        EnterAdvancingOk(setup, s, RecordAnswer(s.db, turnId, text, isSkipped, now), r.value, text, isSkipped, now);
      }
    }
  }

  /** The answer needs no model call. */
  lemma AnswerThenNextMainOk(setup: Setup, s: System, text: string, isSkipped: bool, now: Time)
    requires Inv(setup, s) && s.db.session.state == AwaitingAnswer && ValidAnswer(text, isSkipped)
    ensures var r := RecordAnswer(s.db, |s.db.turns| - 1, text, isSkipped, now); var turn := r.turns[|r.turns| - 1];
      && PositionOf(setup.questions, turn.root) == turn.root
      && Inv(setup, System(OpenNextMain(setup, r, turn.root, turn.sequenceNo), s.calls))
  {
    RecordAnswerOk(setup, s, text, isSkipped, now);
    var r := RecordAnswer(s.db, |s.db.turns| - 1, text, isSkipped, now);
    assert TurnOk(setup.questions, r.turns, |r.turns| - 1);
    OpenNextMainOk(setup, r, s.calls);
  }

  lemma EnterAdvancingOk(setup: Setup, s: System, recorded: Db, r: Submitted, text: string, isSkipped: bool, now: Time)
    requires Inv(setup, s) && s.db.session.state == AwaitingAnswer && ValidAnswer(text, isSkipped)
    requires recorded == RecordAnswer(s.db, |s.db.turns| - 1, text, isSkipped, now)
    requires SubmitAnswer(setup, s.db, |s.db.turns| - 1, text, isSkipped, now) == Ok(r) && r.call.Some?
    ensures Inv(setup, System(r.db, s.calls + [r.call.value]))
  {
    var n := |s.db.turns|;
    RecordAnswerOk(setup, s, text, isSkipped, now);
    var turn := recorded.turns[n - 1];
    assert TurnOk(setup.questions, recorded.turns, n - 1);
    var e := EvaluateEligibility(Some(setup), recorded, turn, text, isSkipped, now);
    assert e.MayCall? && r == PrepareAdvancing(setup, recorded, n - 1, e.question, now);
    var after := System(r.db, s.calls + [r.call.value]);
    assert Exact(setup, r.db, r.call.value);
    forall k | 0 <= k < |after.calls|
      ensures && after.calls[k].expectedVersion <= r.db.session.version
              && after.calls[k].run < |r.db.runs|
              && (after.calls[k].expectedVersion == r.db.session.version ==> Exact(setup, r.db, after.calls[k]))
    {
      if k < |s.calls| {
        assert after.calls[k] == s.calls[k];
      }
    }
  }

  /** Settling a run of a session that is not advancing, or is closed, disturbs nothing else. */
  lemma LateResultOk(setup: Setup, s: System, k: nat, status: RunStatus, code: Option<string>, now: Time)
    requires Inv(setup, s) && k < |s.calls| && status != Processing
    ensures Inv(setup, s.(db := s.db.(runs := Settle(s.db.runs, s.calls[k].run, status, code, now))))
  {
    SettleKeeps(s.db.runs, s.calls[k].run, status, code, now);
    var after := s.(db := s.db.(runs := Settle(s.db.runs, s.calls[k].run, status, code, now)));
    forall j | 0 <= j < |s.calls| && s.calls[j].expectedVersion == s.db.session.version
      ensures Exact(setup, after.db, s.calls[j])
    {
      assert Exact(setup, s.db, s.calls[j]);
    }
  }

  /** A result that passes the fence and opens the next main question. */
  lemma FencedNextMainOk(setup: Setup, s: System, k: nat, status: RunStatus, code: Option<string>, now: Time)
    requires Inv(setup, s) && k < |s.calls| && GuardPasses(s.db, s.calls[k]) && status != Processing
    ensures var c := s.calls[k]; var next := OpenNextMain(setup, s.db, c.rootPosition, c.lastSequenceNo);
      Inv(setup, s.(db := next.(runs := Settle(next.runs, c.run, status, code, now))))
  {
    var c := s.calls[k];
    assert Exact(setup, s.db, c);
    SettleKeeps(s.db.runs, c.run, status, code, now);
    var settled := s.db.(runs := Settle(s.db.runs, c.run, status, code, now));
    TurnsWithinCapacity(setup, s.db);
    OpenNextMainOk(setup, settled, s.calls);
  }

  /** The turn table after a follow-up under the last turn. */
  lemma FollowUpTurnsOk(setup: Setup, db: Db, c: Call, question: string)
    requires TurnsOk(setup, db.turns) && IsSubmitted(db.turns[|db.turns| - 1]) && Exact(setup, db, c) && question != ""
    ensures var n := |db.turns|; var t := FollowUpTurn(c, db.turns[n - 1].followUpIndex + 1, question);
      && FollowUpsInBranch(db.turns, c.rootPosition) == db.turns[n - 1].followUpIndex
      && TurnsOk(setup, db.turns + [t]) && t.root == db.turns[n - 1].root
  {
    var n := |db.turns|;
    var t := FollowUpTurn(c, db.turns[n - 1].followUpIndex + 1, question);
    BranchCount(setup, db.turns);
    assert TurnOk(setup.questions, db.turns, n - 1);
    assert TurnOk(setup.questions, db.turns + [t], n);
    AppendTurn(setup, db.turns, t);
  }

  lemma FencedFollowUpOk(setup: Setup, s: System, k: nat, question: string, now: Time)
    requires Inv(setup, s) && k < |s.calls| && GuardPasses(s.db, s.calls[k]) && question != ""
    requires s.db.session.advanceDeadlineAt.None? || now < s.db.session.advanceDeadlineAt.value
    ensures Inv(setup, s.(db := ApplyAiResult(setup, s.db, s.calls[k], true, question, now)))
  {
    var c := s.calls[k];
    assert Exact(setup, s.db, c);
    FollowUpTurnsOk(setup, s.db, c, question);
    SettleKeeps(s.db.runs, c.run, Succeeded, None, now);
    TurnsWithinCapacity(setup, ApplyAiResult(setup, s.db, c, true, question, now));
  }

  lemma ProposalOk(setup: Setup, s: System, k: nat, ask: bool, question: string, now: Time)
    requires Inv(setup, s) && k < |s.calls| && GuardPasses(s.db, s.calls[k])
    requires s.db.session.advanceDeadlineAt.None? || now < s.db.session.advanceDeadlineAt.value
    ensures Inv(setup, s.(db := ApplyAiResult(setup, s.db, s.calls[k], ask, question, now)))
  {
    if ask && question != "" {
      FencedFollowUpOk(setup, s, k, question, now);
    } else {
      FencedNextMainOk(setup, s, k, Succeeded, None, now);
    }
  }

  lemma DeliverOk(setup: Setup, s: System, k: nat, outcome: Outcome, now: Time)
    requires Inv(setup, s) && k < |s.calls|
    ensures Inv(setup, s.(db := Deliver(setup, s.db, s.calls[k], outcome, now)))
  {
    var c := s.calls[k];
    var overdue := s.db.session.advanceDeadlineAt.Some? && now >= s.db.session.advanceDeadlineAt.value;
    if !GuardPasses(s.db, c) || (outcome.Proposed? && overdue) {
      LateResultOk(setup, s, k, Superseded, if c.run < |s.db.runs| then s.db.runs[c.run].errorCode else None, now);
    } else {
      match outcome
      case CallFailed(code) => FencedNextMainOk(setup, s, k, Failed, Some(Truncate(code)), now);
      case Rejected(code) => FencedNextMainOk(setup, s, k, Failed, Some(Truncate(code)), now);
      case Proposed(ask, question) => ProposalOk(setup, s, k, ask, question, now);
    }
  }

  lemma LatestIsLast(setup: Setup, turns: seq<Turn>)
    requires TurnsOk(setup, turns)
    ensures LatestTurn(turns) == turns[|turns| - 1]
  {
    var t := LatestTurn(turns);
    var i :| 0 <= i < |turns| && turns[i] == t;
    assert TurnOk(setup.questions, turns, i);
    assert TurnOk(setup.questions, turns, |turns| - 1);
  }

  lemma RecoverOk(setup: Setup, s: System, now: Time)
    requires Inv(setup, s)
    ensures Inv(setup, s.(db := RecoverIfStale(setup, s.db, now)))
  {
    if IsStale(s.db, now) {
      var settled := s.db.(runs := FailActive(s.db.runs, RECOVERED, now));
      LatestIsLast(setup, s.db.turns);
      TurnsWithinCapacity(setup, s.db);
      FailActiveOk(s.db.runs, RECOVERED, now);
      assert TurnOk(setup.questions, s.db.turns, |s.db.turns| - 1);
      assert Resolvable(setup, settled);
      OpenNextMainOk(setup, settled, s.calls);
    }
  }

  /** Closing touches the turn table only where a turn is open, and that is the last one. */
  lemma CloseTurnsOk(setup: Setup, db: Db, reason: EndReason, now: Time)
    requires TurnsOk(setup, db.turns) && StatusOk(setup, db) && db.session.status == InProgress
    ensures var n := |db.turns|; var after := Close(db, reason, now).turns;
      && TurnsOk(setup, after) && |after| == n && after[..n - 1] == db.turns[..n - 1]
      && after[n - 1].root == db.turns[n - 1].root && after[n - 1].status != Open
      && (IsSubmitted(after[n - 1]) <==> IsSubmitted(db.turns[n - 1]))
      && (IsSubmitted(db.turns[n - 1]) ==> after == db.turns)
  {
    if db.session.state == AwaitingAnswer {
      CloseLastTurn(setup, db.turns, ClosedUnanswered, now);
    }
  }

  lemma CloseOk(setup: Setup, s: System, reason: EndReason, now: Time)
    requires Inv(setup, s) && s.db.session.status == InProgress
    requires reason == AllQuestionsAnswered ==> s.db.session.state == ReadyToFinish
    ensures Inv(setup, s.(db := Close(s.db, reason, now)))
  {
    var n := |s.db.turns|;
    var after := Close(s.db, reason, now);
    CloseTurnsOk(setup, s.db, reason, now);
    TurnsWithinCapacity(setup, s.db);
    forall j | 0 <= j < n - 1
      ensures after.turns[j] == s.db.turns[j]
    {
      assert after.turns[..n - 1][j] == s.db.turns[..n - 1][j];
    }
    assert StatusOk(setup, after) && AnswersOk(after);
  }

  /** Every step of every actor keeps the invariant. */
  lemma StepOk(setup: Setup, s: System, e: Event)
    requires Inv(setup, s)
    ensures Inv(setup, Step(setup, s, e))
  {
    match e
    case SubmitEv(turnId, text, isSkipped, now) => SubmitOk(setup, s, turnId, text, isSkipped, now);
    case DeliverEv(call, outcome, now) => if call < |s.calls| { DeliverOk(setup, s, call, outcome, now); }
    case RecoverEv(now) => RecoverOk(setup, s, now);
    case SweepEv(now) =>
      if s.db.session.status == InProgress && now >= s.db.session.deadlineAt { CloseOk(setup, s, DeadlineReached, now); }
    case FinishEv(confirm, now) =>
      if Finish(s.db, confirm, now).Ok? {
        CloseOk(setup, s, if s.db.session.state != ReadyToFinish then SubmittedEarly else AllQuestionsAnswered, now);
      }
    case CancelEv(now) => if s.db.session.status == InProgress { CloseOk(setup, s, HrCancelled, now); }
  }

  /** Safety over whole runs: any interleaving, any clock readings, any results. */
  lemma {:induction false} RunOk(setup: Setup, s: System, events: seq<Event>)
    requires Inv(setup, s)
    ensures Inv(setup, Run(setup, s, events))
    decreases |events|
  {
    if events != [] {
      StepOk(setup, s, events[0]);
      RunOk(setup, Step(setup, s, events[0]), events[1..]);
    }
  }
}
