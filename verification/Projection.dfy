/**
 * The candidate's view of a session
 * (nestjs-auth/src/modules/interview-runtime/services/runtime-projection.service.ts).
 */
module Projection {
  import opened Base
  import AiRuns
  import opened SessionModel
  import opened SessionInvariants
  import opened SessionTheorems
  import opened Sorting

  datatype Progress = Progress(mainCompleted: nat, mainAnswered: nat, mainSkipped: nat, mainTotal: nat)

  datatype View = View(status: SessionStatus, state: RuntimeState, canFinish: bool, progress: Progress,
                       current: Option<Turn>, submitted: seq<Turn>, pollAfterMs: Option<nat>)

  predicate IsMain(t: Turn) { t.kind == Main }
  predicate IsAnswered(t: Turn) { t.status == Answered }
  predicate IsSkipped(t: Turn) { t.status == Skipped }
  predicate BySequence(a: Turn, b: Turn) { a.sequenceNo <= b.sequenceNo }

  /** `turns` are the turn rows loaded with the entity, in any order; `current` is its loaded current turn. */
  function Project(session: Session, turns: seq<Turn>, current: Option<Turn>, totalMainQuestions: nat): View {
    var mainTurns := Filter(turns, IsMain);
    var answered := |Filter(mainTurns, IsAnswered)|;
    var skipped := |Filter(mainTurns, IsSkipped)|;
    View(session.status,
         session.state,
         session.status == InProgress && (session.state == ReadyToFinish || session.state == AwaitingAnswer),
         Progress(answered + skipped, answered, skipped, totalMainQuestions),
         if session.status == InProgress && session.state == AwaitingAnswer && current.Some? && current.value.status == Open
         then current else None,
         SortBy(Filter(turns, IsSubmitted), BySequence),
         if session.state == Advancing then Some(2000) else None)
  }

  function CurrentTurn(db: Db): Option<Turn> {
    if db.session.currentTurn.Some? && db.session.currentTurn.value < |db.turns|
    then Some(db.turns[db.session.currentTurn.value]) else None
  }

  /** The view of an entity loaded with all its turns, in whatever order the database returns them. */
  ghost predicate IsFullView(setup: Setup, db: Db, v: View) {
    exists loaded: seq<Turn> :: multiset(loaded) == multiset(db.turns)
      && v == Project(db.session, loaded, CurrentTurn(db), |setup.questions|)
  }

  /**
   * What a `GET` answers when it has just closed or recovered the session: the row it locked and
   * saved was loaded without its turns, and that entity is what gets projected.
   */
  function ViewAfterReconcile(setup: Setup, db: Db): View {
    Project(db.session, [], CurrentTurn(db), |setup.questions|)
  }

  function MainsSubmitted(turns: seq<Turn>): nat {
    |Filter(Filter(turns, IsMain), IsAnswered)|
    + |Filter(Filter(turns, IsMain), IsSkipped)|
  }

  lemma FilterStep<T>(xs: seq<T>, x: T, keep: T -> bool)
    ensures Filter(xs + [x], keep) == Filter(xs, keep) + if keep(x) then [x] else []
  {
    assert (xs + [x])[..|xs|] == xs;
  }

  /** Main questions completed: all that were asked, less the last one while it is not submitted. */
  lemma {:induction false} MainsSubmittedCount(setup: Setup, turns: seq<Turn>)
    requires TurnsOk(setup, turns)
    ensures var last := turns[|turns| - 1];
      MainsSubmitted(turns) == last.root - if last.kind == Main && !IsSubmitted(last) then 1 else 0
    decreases |turns|
  {
    var n := |turns|;
    var front, last := turns[..n - 1], turns[n - 1];
    var mains := Filter(front, IsMain);
    assert TurnOk(setup.questions, turns, n - 1);
    assert turns == front + [last];
    FilterStep(front, last, IsMain);
    if last.kind == Main {
      FilterStep(mains, last, IsAnswered);
      FilterStep(mains, last, IsSkipped);
    } else {
      assert Filter(turns, IsMain) == mains;
    }
    if n == 1 {
      assert front == [] && mains == [];
    } else {
      PrefixOk(setup, turns, n - 1);
      MainsSubmittedCount(setup, front);
    }
  }

  lemma CountsIgnoreOrder(loaded: seq<Turn>, turns: seq<Turn>)
    requires multiset(loaded) == multiset(turns)
    ensures MainsSubmitted(loaded) == MainsSubmitted(turns)
  {
    CountIgnoresOrder(loaded, turns, false);
    CountIgnoresOrder(loaded, turns, true);
  }

  /** Responses of one kind to main questions, counted in the answer table. */
  function MainResponses(turns: seq<Turn>, answers: seq<Answer>, skipped: bool): nat {
    if answers == [] then 0
    else
      var last := answers[|answers| - 1];
      MainResponses(turns, answers[..|answers| - 1], skipped)
      + if last.turn < |turns| && turns[last.turn].kind == Main && last.isSkipped == skipped then 1 else 0
  }

  function StatusFilter(skipped: bool): Turn -> bool {
    if skipped then IsSkipped else IsAnswered
  }

  lemma StatusFilterIs(skipped: bool, t: Turn)
    ensures StatusFilter(skipped)(t) <==> if skipped then t.status == Skipped else t.status == Answered
  {
    if skipped {
      assert StatusFilter(skipped) == IsSkipped;
    } else {
      assert StatusFilter(skipped) == IsAnswered;
    }
  }

  /** Answer j belongs to turn j and agrees with its status, so counting either is counting the other. */
  lemma {:induction false} ResponsesAreStatuses(turns: seq<Turn>, answers: seq<Answer>, skipped: bool)
    requires |answers| <= |turns|
    requires forall j :: 0 <= j < |answers| ==>
      && answers[j].turn == j && IsSubmitted(turns[j]) && (answers[j].isSkipped <==> turns[j].status == Skipped)
    ensures MainResponses(turns, answers, skipped)
         == |Filter(Filter(turns[..|answers|], IsMain), StatusFilter(skipped))|
    decreases |answers|
  {
    var n := |answers|;
    if n > 0 {
      ResponsesAreStatuses(turns, answers[..n - 1], skipped);
      assert turns[..n] == turns[..n - 1] + [turns[n - 1]];
      FilterStep(turns[..n - 1], turns[n - 1], IsMain);
      StatusFilterIs(skipped, turns[n - 1]);
      if turns[n - 1].kind == Main {
        FilterStep(Filter(turns[..n - 1], IsMain), turns[n - 1], StatusFilter(skipped));
      } else {
        assert Filter(turns[..n], IsMain) == Filter(turns[..n - 1], IsMain);
      }
    }
  }

  /** A turn without a response counts for neither kind. */
  lemma OpenTurnCountsForNone(turns: seq<Turn>, skipped: bool)
    requires turns != [] && !IsSubmitted(turns[|turns| - 1])
    ensures |Filter(Filter(turns, IsMain), StatusFilter(skipped))|
         == |Filter(Filter(turns[..|turns| - 1], IsMain), StatusFilter(skipped))|
  {
    var n := |turns|;
    assert turns == turns[..n - 1] + [turns[n - 1]];
    FilterStep(turns[..n - 1], turns[n - 1], IsMain);
    StatusFilterIs(skipped, turns[n - 1]);
    if turns[n - 1].kind == Main {
      FilterStep(Filter(turns[..n - 1], IsMain), turns[n - 1], StatusFilter(skipped));
    } else {
      assert Filter(turns, IsMain) == Filter(turns[..n - 1], IsMain);
    }
  }

  /** The two progress figures are the answers and the skips the answer table holds for main questions. */
  lemma ProgressCountsAnswers(setup: Setup, s: System, v: View)
    requires Reachable(setup, s) && IsFullView(setup, s.db, v)
    ensures v.progress.mainAnswered == MainResponses(s.db.turns, s.db.answers, false)
    ensures v.progress.mainSkipped == MainResponses(s.db.turns, s.db.answers, true)
  {
    ReachableInv(setup, s);
    var loaded := LoadedTurns(setup, s.db, v);
    CountIgnoresOrder(loaded, s.db.turns, false);
    CountIgnoresOrder(loaded, s.db.turns, true);
    StatusesAreResponses(setup, s, false);
    StatusesAreResponses(setup, s, true);
  }

  lemma CountIgnoresOrder(loaded: seq<Turn>, turns: seq<Turn>, skipped: bool)
    requires multiset(loaded) == multiset(turns)
    ensures |Filter(Filter(loaded, IsMain), StatusFilter(skipped))| == |Filter(Filter(turns, IsMain), StatusFilter(skipped))|
  {
    FilterPermuted(loaded, turns, IsMain);
    FilterPermuted(Filter(loaded, IsMain), Filter(turns, IsMain), StatusFilter(skipped));
  }

  lemma StatusesAreResponses(setup: Setup, s: System, skipped: bool)
    requires Inv(setup, s)
    ensures MainResponses(s.db.turns, s.db.answers, skipped)
         == |Filter(Filter(s.db.turns, IsMain), StatusFilter(skipped))|
  {
    var n := |s.db.turns|;
    ResponsesAreStatuses(s.db.turns, s.db.answers, skipped);
    if IsSubmitted(s.db.turns[n - 1]) {
      assert s.db.turns[..n] == s.db.turns;
    } else {
      OpenTurnCountsForNone(s.db.turns, skipped);
    }
  }

  /** Progress never overshoots, and is complete at READY_TO_FINISH. */
  lemma ProgressBounded(setup: Setup, s: System, v: View)
    requires Reachable(setup, s) && IsFullView(setup, s.db, v)
    ensures v.progress.mainCompleted <= v.progress.mainTotal == |setup.questions|
    ensures s.db.session.state == ReadyToFinish ==> v.progress.mainCompleted == v.progress.mainTotal
    ensures v.progress.mainCompleted == v.progress.mainAnswered + v.progress.mainSkipped
  {
    ReachableInv(setup, s);
    var loaded := LoadedTurns(setup, s.db, v);
    CountsIgnoreOrder(loaded, s.db.turns);
    MainsSubmittedCount(setup, s.db.turns);
    assert TurnOk(setup.questions, s.db.turns, |s.db.turns| - 1);
  }

  lemma LoadedTurns(setup: Setup, db: Db, v: View) returns (loaded: seq<Turn>)
    requires IsFullView(setup, db, v)
    ensures multiset(loaded) == multiset(db.turns)
    ensures v == Project(db.session, loaded, CurrentTurn(db), |setup.questions|)
  {
    loaded :| multiset(loaded) == multiset(db.turns)
      && v == Project(db.session, loaded, CurrentTurn(db), |setup.questions|);
  }

  lemma {:induction false} SubmittedPrefix(setup: Setup, turns: seq<Turn>)
    requires TurnsOk(setup, turns)
    ensures var n := |turns|;
      Filter(turns, IsSubmitted) == if IsSubmitted(turns[n - 1]) then turns else turns[..n - 1]
    decreases |turns|
  {
    var n := |turns|;
    if n > 1 {
      PrefixOk(setup, turns, n - 1);
      SubmittedPrefix(setup, turns[..n - 1]);
    }
    assert turns == turns[..n - 1] + [turns[n - 1]];
  }

  /**
   * The submitted turns shown are exactly those with an answer, in the order they were asked, and
   * the open turn is shown exactly while an answer is awaited: no future question ever appears.
   */
  lemma ViewShowsTranscript(setup: Setup, s: System, v: View)
    requires Reachable(setup, s) && IsFullView(setup, s.db, v)
    ensures |s.db.answers| <= |s.db.turns| && v.submitted == s.db.turns[..|s.db.answers|]
    ensures v.current.Some? <==> s.db.session.state == AwaitingAnswer
    ensures v.current.Some? ==> v.current.value == s.db.turns[|s.db.turns| - 1]
  {
    ReachableInv(setup, s);
    var loaded := LoadedTurns(setup, s.db, v);
    SubmittedInOrder(setup, s.db.turns, loaded);
  }

  lemma SubmittedInOrder(setup: Setup, turns: seq<Turn>, loaded: seq<Turn>)
    requires TurnsOk(setup, turns) && multiset(loaded) == multiset(turns)
    ensures SortBy(Filter(loaded, IsSubmitted), BySequence)
         == if IsSubmitted(turns[|turns| - 1]) then turns else turns[..|turns| - 1]
  {
    SubmittedPrefix(setup, turns);
    var shown := Filter(turns, IsSubmitted);
    FilterPermuted(loaded, turns, IsSubmitted);
    SortBySpec(Filter(loaded, IsSubmitted), BySequence);
    forall i, j | 0 <= i < j < |shown|
      ensures BySequence(shown[i], shown[j]) && !BySequence(shown[j], shown[i])
    {
      assert TurnOk(setup.questions, turns, i) && TurnOk(setup.questions, turns, j);
    }
    SortedUnique(SortBy(Filter(loaded, IsSubmitted), BySequence), shown, BySequence);
  }

  /* ---------- what a reconciling `GET` answers ---------- */

  /** `db` and `db'` are the locked rows before and after the transaction that closes or recovers the session. */
  ghost predicate Reconciles(setup: Setup, db: Db, db': Db) {
    || (exists now: Time :: db' == SweepDeadline(db, now) && db' != db)
    || (exists now: Time :: IsStale(db, now) && db' == RecoverIfStale(setup, db, now))
  }

  /** The entity without turns is answered as the full one would be exactly while no answer is stored. */
  lemma EmptyViewIff(setup: Setup, s: System, v: View)
    requires Reachable(setup, s) && IsFullView(setup, s.db, v)
    ensures ViewAfterReconcile(setup, s.db).progress == v.progress <==> s.db.answers == []
    ensures ViewAfterReconcile(setup, s.db).submitted == v.submitted <==> s.db.answers == []
    ensures ViewAfterReconcile(setup, s.db) == v <==> s.db.answers == []
  {
    ReachableInv(setup, s);
    ProgressCountsAnswers(setup, s, v);
    ViewShowsTranscript(setup, s, v);
    assert TurnOk(setup.questions, s.db.turns, 0);
    ResponsesCounted(s.db.turns, s.db.answers);
    var loaded := LoadedTurns(setup, s.db, v);
  }

  /** Some response to a main question is counted as soon as there is any response at all. */
  lemma {:induction false} ResponsesCounted(turns: seq<Turn>, answers: seq<Answer>)
    requires |answers| <= |turns| && (turns != [] ==> turns[0].kind == Main)
    requires forall j :: 0 <= j < |answers| ==> answers[j].turn == j
    ensures MainResponses(turns, answers, false) == 0 == MainResponses(turns, answers, true) <==> answers == []
    decreases |answers|
  {
    if |answers| > 1 {
      ResponsesCounted(turns, answers[..|answers| - 1]);
    }
  }

  /** Closing and recovering store no answer, and recovery starts from an answered turn. */
  lemma ReconcileKeepsAnswers(setup: Setup, db: Db, db': Db)
    requires Reconciles(setup, db, db')
    ensures db'.answers == db.answers
  {
    if now: Time :| IsStale(db, now) && db' == RecoverIfStale(setup, db, now) {
      assert RecoverStaleAdvancing(setup, db, now).answers == db.answers;
    }
  }

  lemma ReconciledIsReachable(setup: Setup, s: System, db': Db)
    requires Reachable(setup, s) && Reconciles(setup, s.db, db')
    ensures Reachable(setup, s.(db := db'))
  {
    if now: Time :| db' == SweepDeadline(s.db, now) && db' != s.db {
      ReachableStep(setup, s, SweepEv(now));
      assert Step(setup, s, SweepEv(now)) == s.(db := db');
    } else {
      var now: Time :| IsStale(s.db, now) && db' == RecoverIfStale(setup, s.db, now);
      ReachableStep(setup, s, RecoverEv(now));
      assert Step(setup, s, RecoverEv(now)) == s.(db := db');
    }
  }

  /**
   * A `GET` whose transaction closes or recovers the session, whatever ran between its first read
   * and that transaction, answers what a full view of the new rows would show if and only if no
   * answer was stored before; otherwise progress and transcript are both missing.
   */
  lemma ReconcileViewAgreesIff(setup: Setup, s: System, db': Db, v: View)
    requires Reachable(setup, s) && Reconciles(setup, s.db, db') && IsFullView(setup, db', v)
    ensures ViewAfterReconcile(setup, db') == v <==> s.db.answers == []
    ensures ViewAfterReconcile(setup, db').progress == v.progress <==> s.db.answers == []
    ensures ViewAfterReconcile(setup, db').submitted == v.submitted <==> s.db.answers == []
  {
    ReconciledIsReachable(setup, s, db');
    ReconcileKeepsAnswers(setup, s.db, db');
    EmptyViewIff(setup, s.(db := db'), v);
  }

  /** An uninterrupted poll that changes anything reconciles, by exactly one of its two transactions. */
  lemma PollReconciles(setup: Setup, s: System, now: Time)
    requires Reachable(setup, s) && Poll(setup, s.db, now) != s.db
    ensures Reconciles(setup, s.db, Poll(setup, s.db, now))
  {
    var swept := SweepDeadline(s.db, now);
    if swept != s.db {
      assert Poll(setup, s.db, now) == swept;
    } else {
      assert IsStale(s.db, now) && Poll(setup, s.db, now) == RecoverIfStale(setup, s.db, now);
    }
  }

  /** So the answer of a poll that recovers a session is never the full view. */
  lemma RecoveringPollLosesProgress(setup: Setup, s: System, now: Time, v: View)
    requires Reachable(setup, s) && IsStale(s.db, now) && now < s.db.session.deadlineAt
    requires IsFullView(setup, Poll(setup, s.db, now), v)
    ensures Poll(setup, s.db, now).session.state != Advancing
    ensures ViewAfterReconcile(setup, Poll(setup, s.db, now)).progress != v.progress
    ensures ViewAfterReconcile(setup, Poll(setup, s.db, now)).submitted != v.submitted
  {
    ReachableInv(setup, s);
    PollReconciles(setup, s, now);
    ReconcileViewAgreesIff(setup, s, Poll(setup, s.db, now), v);
  }

  function TwoQuestions(): Setup {
    Setup([Question("Why?", true, 1), Question("How?", false, 0)], 1, Config(10, 10, 10))
  }

  /** The main turn of question 1 after the answer, and that of question 2. */
  function FirstAnswered(): Turn {
    MainTurn(TwoQuestions().questions[0], 1, 1).(status := Answered, closedAt := Some(5))
  }

  function SecondOpen(): Turn {
    MainTurn(TwoQuestions().questions[1], 2, 2)
  }

  /** One answer that a follow-up may still come to. */
  function Waiting(): System {
    System(Db(Session(InProgress, Advancing, 1000, None, None, None, 0, 2, Some(25)),
              [FirstAnswered()], [Answer(0, Some("Because."), false, 5)], [AiRuns.AiRun(AiRuns.Processing, None, None)]),
           [Call(0, 2, 0, 1, 1, 1, 1)])
  }

  lemma WaitingRun()
    ensures Begin(TwoQuestions(), 1000, 0).Some?
    ensures Run(TwoQuestions(), System(Begin(TwoQuestions(), 1000, 0).value, []), [SubmitEv(0, "Because.", false, 5)])
         == Waiting()
  {
    var setup := TwoQuestions();
    var start := System(Begin(setup, 1000, 0).value, []);
    var e := SubmitEv(0, "Because.", false, 5);
    var recorded := RecordAnswer(start.db, 0, "Because.", false, 5);
    assert recorded.turns == [FirstAnswered()];
    assert [FirstAnswered()][..0] == [] && FollowUpsInBranch([], 1) == 0;
    assert FollowUpsInBranch([FirstAnswered()], 1) == 0;
    assert EvaluateEligibility(Some(setup), recorded, FirstAnswered(), "Because.", false, 5) == MayCall(setup.questions[0]);
    assert Step(setup, start, e) == Waiting();
    assert Run(setup, start, [e]) == Run(setup, Step(setup, start, e), []);
  }

  /** From the start: one answer, no result in time, and the poll that recovers the session forgets the answer. */
  lemma RecoveringPollRun()
    ensures var s := Run(TwoQuestions(), System(Begin(TwoQuestions(), 1000, 0).value, []), [SubmitEv(0, "Because.", false, 5)]);
      var db := Poll(TwoQuestions(), s.db, 25);
      && s.db.session.state == Advancing && db.session.state == AwaitingAnswer && db.turns == [FirstAnswered(), SecondOpen()]
      && Project(db.session, db.turns, CurrentTurn(db), 2).progress == Progress(1, 1, 0, 2)
      && ViewAfterReconcile(TwoQuestions(), db).progress == Progress(0, 0, 0, 2)
  {
    WaitingRun();
    WaitingRecovered();
    BothFiltered();
  }

  lemma WaitingRecovered()
    ensures var db := Poll(TwoQuestions(), Waiting().db, 25);
      && db.session.status == InProgress && db.session.state == AwaitingAnswer && db.session.currentTurn == Some(1)
      && db.session.followUpsUsed == 0 && db.turns == [FirstAnswered(), SecondOpen()]
  {
    assert LatestTurn([FirstAnswered()]) == FirstAnswered();
    assert Poll(TwoQuestions(), Waiting().db, 25).turns == [FirstAnswered()] + [SecondOpen()];
  }

  lemma BothFiltered()
    ensures var both := [FirstAnswered(), SecondOpen()];
      && Filter(both, IsMain) == both && Filter(both, IsAnswered) == [FirstAnswered()] && Filter(both, IsSkipped) == []
  {
    assert [FirstAnswered(), SecondOpen()] == [] + [FirstAnswered()] + [SecondOpen()];
    FilterStep([] + [FirstAnswered()], SecondOpen(), IsMain);
    FilterStep([], FirstAnswered(), IsMain);
    FilterStep([] + [FirstAnswered()], SecondOpen(), IsAnswered);
    FilterStep([], FirstAnswered(), IsAnswered);
    FilterStep([] + [FirstAnswered()], SecondOpen(), IsSkipped);
    FilterStep([], FirstAnswered(), IsSkipped);
  }

  /**
   * Before the deadline a confirmed finish goes through exactly when the view offers it or the
   * session is advancing, where the view does not offer it; only then does it ask to be polled.
   */
  lemma CanFinishExceptAdvancing(setup: Setup, s: System, v: View, now: Time)
    requires Reachable(setup, s) && IsFullView(setup, s.db, v) && now < s.db.session.deadlineAt
    ensures Finish(s.db, true, now).Ok? <==> v.canFinish || s.db.session.state == Advancing
    ensures v.canFinish ==> s.db.session.state != Advancing
    ensures v.pollAfterMs == if s.db.session.state == Advancing then Some(2000) else None
    ensures v.status == s.db.session.status && v.state == s.db.session.state
  {
    ReachableInv(setup, s);
    var loaded := LoadedTurns(setup, s.db, v);
  }
}
