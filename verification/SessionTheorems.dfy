/** The main results about the interview session, over every reachable state and every run. */
module SessionTheorems {
  import opened Base
  import opened AiRuns
  import opened SessionModel
  import opened SessionInvariants
  import opened SessionEffects
  import Fencing
  import Interviewer

  /** Some start followed by some interleaving leads here. */
  ghost predicate Reachable(setup: Setup, s: System) {
    exists durationMs: int, now: Time, events: seq<Event> ::
      Begin(setup, durationMs, now).Some? && s == Run(setup, System(Begin(setup, durationMs, now).value, []), events)
  }

  lemma ReachableInv(setup: Setup, s: System)
    requires Reachable(setup, s)
    ensures Inv(setup, s)
  {
    var durationMs, now, events :|
      Begin(setup, durationMs, now).Some? && s == Run(setup, System(Begin(setup, durationMs, now).value, []), events);
    BeginOk(setup, durationMs, now);
    RunOk(setup, System(Begin(setup, durationMs, now).value, []), events);
  }

  lemma {:induction false} RunAppend(setup: Setup, s: System, events: seq<Event>, e: Event)
    ensures Run(setup, s, events + [e]) == Step(setup, Run(setup, s, events), e)
    decreases |events|
  {
    if events == [] {
      assert events + [e] == [e];
      assert Run(setup, s, [e]) == Run(setup, Step(setup, s, e), []);
    } else {
      assert (events + [e])[1..] == events[1..] + [e];
      RunAppend(setup, Step(setup, s, events[0]), events[1..], e);
    }
  }

  lemma ReachableStep(setup: Setup, s: System, e: Event)
    requires Reachable(setup, s)
    ensures Reachable(setup, Step(setup, s, e))
  {
    var durationMs, now, events :|
      Begin(setup, durationMs, now).Some? && s == Run(setup, System(Begin(setup, durationMs, now).value, []), events);
    RunAppend(setup, System(Begin(setup, durationMs, now).value, []), events, e);
  }

  /* ---------- fencing ---------- */

  /**
   * Whenever the guard of transaction 2 or of the fallback passes, the context captured before
   * the external call is still exact, however many other steps ran in between.
   */
  lemma ContextIsExact(setup: Setup, s: System, k: nat)
    requires Reachable(setup, s) && k < |s.calls| && GuardPasses(s.db, s.calls[k])
    ensures var c, turns := s.calls[k], s.db.turns;
      && turns != []
      && var last := turns[|turns| - 1];
         && c.parentTurn == |turns| - 1
         && c.rootPosition == last.root
         && c.lastSequenceNo == last.sequenceNo
         && (forall i :: 0 <= i < |turns| ==> turns[i].sequenceNo <= c.lastSequenceNo)
         && c.run == |s.db.runs| - 1
         && QuestionAt(setup.questions, last.root).Some?
         && c.rootMaxFollowUps == QuestionAt(setup.questions, last.root).value.maxFollowUps
         && c.maxFollowUpsTotal == setup.maxFollowUpsTotal
  {
    ReachableInv(setup, s);
    assert Exact(setup, s.db, s.calls[k]);
    forall i | 0 <= i < |s.db.turns|
      ensures s.db.turns[i].sequenceNo <= s.calls[k].lastSequenceNo
    {
      assert TurnOk(setup.questions, s.db.turns, i);
    }
  }

  /** The budget check repeated inside transaction 2 can never fail once the guard has passed. */
  lemma BudgetRecheckNeverFails(setup: Setup, s: System, k: nat)
    requires Reachable(setup, s) && k < |s.calls| && GuardPasses(s.db, s.calls[k])
    ensures FollowUpsInBranch(s.db.turns, s.calls[k].rootPosition) < s.calls[k].rootMaxFollowUps
    ensures s.db.session.followUpsUsed < s.calls[k].maxFollowUpsTotal
  {
    ReachableInv(setup, s);
    assert Exact(setup, s.db, s.calls[k]);
    BranchCount(setup, s.db.turns);
  }

  /**
   * Nothing is lost that comes in time: while ADVANCING and before the advance deadline, the newest
   * call's proposal is asked as the next follow-up under the turn just answered.
   */
  lemma TimelyProposalIsAsked(setup: Setup, s: System, question: string, now: Time)
    requires Reachable(setup, s) && s.db.session.state == Advancing && question != ""
    requires s.db.session.advanceDeadlineAt.Some? && now < s.db.session.advanceDeadlineAt.value
    ensures s.calls != [] && s.db.turns != []
    ensures var n := |s.db.turns|; var last := s.db.turns[n - 1];
      var after := Step(setup, s, DeliverEv(|s.calls| - 1, Proposed(true, question), now)).db;
      && |after.turns| == n + 1 && after.turns[..n] == s.db.turns
      && after.turns[n].kind == FollowUp && after.turns[n].text == question && after.turns[n].status == Open
      && after.turns[n].root == last.root && after.turns[n].followUpIndex == last.followUpIndex + 1
      && after.session.state == AwaitingAnswer && after.session.currentTurn == Some(n)
      && after.session.followUpsUsed == s.db.session.followUpsUsed + 1
  {
    ReachableInv(setup, s);
    assert Exact(setup, s.db, s.calls[|s.calls| - 1]);
    BranchCount(setup, s.db.turns);
  }

  /** And a refusal to ask, a rejected proposal or a failed call of the newest call moves on at any time. */
  lemma OtherOutcomesMoveOn(setup: Setup, s: System, outcome: Outcome, now: Time)
    requires Reachable(setup, s) && s.db.session.state == Advancing
    requires match outcome
      case Proposed(ask, question) =>
        (!ask || question == "") && s.db.session.advanceDeadlineAt.Some? && now < s.db.session.advanceDeadlineAt.value
      case _ => true
    ensures s.calls != [] && s.db.turns != []
    ensures var last := s.db.turns[|s.db.turns| - 1];
      var after := Step(setup, s, DeliverEv(|s.calls| - 1, outcome, now)).db;
      && 1 <= last.root <= |setup.questions|
      && if last.root == |setup.questions| then after.session.state == ReadyToFinish && after.turns == s.db.turns
         else after.session.state == AwaitingAnswer
              && after.turns == s.db.turns + [MainTurn(setup.questions[last.root], last.root + 1, |s.db.turns| + 1)]
  {
    ReachableInv(setup, s);
    assert Exact(setup, s.db, s.calls[|s.calls| - 1]);
  }

  lemma {:induction false} VersionsAscend(setup: Setup, s: System, events: seq<Event>)
    requires Inv(setup, s)
    ensures var s' := Run(setup, s, events);
      && s.db.session.version <= s'.db.session.version
      && (s.db.session.version == s'.db.session.version ==> Untouched(s.db, s'.db))
    decreases |events|
  {
    if events != [] {
      StepEffect(setup, s, events[0]);
      StepOk(setup, s, events[0]);
      VersionsAscend(setup, Step(setup, s, events[0]), events[1..]);
    }
  }

  /**
   * Once the epoch a call was issued in is resolved, by whomever, the call's result changes
   * nothing in session, turns or answers: not now and not after any further steps.
   */
  lemma ResolvedEpochIgnoresResult(setup: Setup, s: System, k: nat, events: seq<Event>, outcome: Outcome, now: Time)
    requires Reachable(setup, s) && k < |s.calls| && s.calls[k].expectedVersion < s.db.session.version
    ensures var later := Run(setup, s, events).db;
      Untouched(later, Deliver(setup, later, s.calls[k], outcome, now))
  {
    ReachableInv(setup, s);
    VersionsAscend(setup, s, events);
  }

  /** The session row as a fence: the version is the token, and it is open while advancing. */
  function SessionFence(db: Db): Fencing.Fence {
    Fencing.Fence(db.session.version, db.session.state == Advancing)
  }

  function Fences(setup: Setup, s: System, events: seq<Event>): (r: seq<Fencing.Fence>)
    ensures |r| == |events| + 1
    decreases |events|
  {
    [SessionFence(s.db)] + if events == [] then [] else Fences(setup, Step(setup, s, events[0]), events[1..])
  }

  lemma {:induction false} FencesAreTrace(setup: Setup, s: System, events: seq<Event>)
    requires Inv(setup, s)
    ensures Fencing.IsTrace(Fences(setup, s, events))
    decreases |events|
  {
    if events != [] {
      var next := Step(setup, s, events[0]);
      StepEffect(setup, s, events[0]);
      StepOk(setup, s, events[0]);
      FencesAreTrace(setup, next, events[1..]);
      var rest := Fences(setup, next, events[1..]);
      assert rest[0] == SessionFence(next.db);
      assert Fences(setup, s, events) == [SessionFence(s.db)] + rest;
      assert Fencing.Moves(SessionFence(s.db), rest[0]);
      forall i | 0 <= i < |events|
        ensures Fencing.Moves(Fences(setup, s, events)[i], Fences(setup, s, events)[i + 1])
      {
        if i > 0 {
          assert Fencing.Moves(rest[i - 1], rest[i - 1 + 1]);
        }
      }
    }
  }

  /** In any run, each ADVANCING epoch is left at most once: apply, fallback, recovery or close. */
  lemma EachEpochResolvedOnce(setup: Setup, s: System, events: seq<Event>, version: nat, i: nat, j: nat)
    requires Reachable(setup, s) && i < j < |events|
    requires var f := Fences(setup, s, events); Fencing.Commits(f[i], f[i + 1], version)
    ensures var f := Fences(setup, s, events); !Fencing.Commits(f[j], f[j + 1], version)
  {
    ReachableInv(setup, s);
    FencesAreTrace(setup, s, events);
    Fencing.AtMostOneCommit(Fences(setup, s, events), version, i, j);
  }

  /* ---------- refinement of the sequential interviewer ---------- */

  /** Follow-ups per main question, read off the turn table. */
  function Counts(turns: seq<Turn>): seq<nat> {
    if turns == [] then []
    else
      var front := Counts(turns[..|turns| - 1]);
      if turns[|turns| - 1].kind == Main || front == [] then front + [0]
      else front[|front| - 1 := front[|front| - 1] + 1]
  }

  function PhaseOf(state: RuntimeState): Interviewer.Phase {
    match state
    case AwaitingAnswer => Interviewer.Asking
    case Advancing => Interviewer.Deciding
    case ReadyToFinish => Interviewer.Done
    case Closed => Interviewer.Stopped
  }

  function PlanOf(db: Db): Interviewer.Plan {
    Interviewer.Plan(Counts(db.turns), PhaseOf(db.session.state))
  }

  function Slots(turns: seq<Turn>): (r: seq<Interviewer.Slot>)
    ensures |r| == |turns|
  {
    seq(|turns|, i requires 0 <= i < |turns| => Interviewer.Slot(turns[i].root, turns[i].followUpIndex))
  }

  lemma {:induction false} CountsIgnoreStatus(a: seq<Turn>, b: seq<Turn>)
    requires |a| == |b| && forall i :: 0 <= i < |a| ==> a[i].kind == b[i].kind
    ensures Counts(a) == Counts(b)
    decreases |a|
  {
    if a != [] {
      CountsIgnoreStatus(a[..|a| - 1], b[..|b| - 1]);
    }
  }

  /** Under an unchanged prefix the counts grow by a new branch or by one more follow-up. */
  lemma CountsStep(setup: Setup, turns: seq<Turn>)
    requires TurnsOk(setup, turns) && 1 < |turns| && Counts(turns[..|turns| - 1]) != []
    ensures var n, front := |turns|, Counts(turns[..|turns| - 1]);
      && Counts(turns) == (if turns[n - 1].kind == Main then front + [0]
                           else front[|front| - 1 := front[|front| - 1] + 1])
      && Sum(Counts(turns)) == Sum(front) + (if turns[n - 1].kind == Main then 0 else 1)
  {
    var front := Counts(turns[..|turns| - 1]);
    if turns[|turns| - 1].kind == Main {
      SumAppend(front, 0);
    } else {
      Interviewer.SumReplaceLast(front, front[|front| - 1] + 1);
    }
  }

  lemma CountsStart(setup: Setup, turns: seq<Turn>)
    requires TurnsOk(setup, turns) && |turns| == 1
    ensures Counts(turns) == [0] && Sum(Counts(turns)) == 0
    ensures turns[0].root == 1 <= |setup.questions| && turns[0].followUpIndex == 0
  {
    assert TurnOk(setup.questions, turns, 0);
    assert turns[..0] == [] && Counts(turns) == [] + [0];
    SumAppend([], 0);
  }

  /** The counts add up: one per main question asked, the last one open-ended. */
  lemma {:induction false} CountsOk(setup: Setup, turns: seq<Turn>)
    requires TurnsOk(setup, turns)
    ensures var counts, last := Counts(turns), turns[|turns| - 1];
      && counts != [] && |counts| == last.root <= |setup.questions|
      && counts[|counts| - 1] == last.followUpIndex
      && Sum(counts) == |turns| - last.root
    decreases |turns|
  {
    var n := |turns|;
    if n == 1 {
      CountsStart(setup, turns);
    } else {
      assert TurnOk(setup.questions, turns, n - 1);
      PrefixOk(setup, turns, n - 1);
      CountsOk(setup, turns[..n - 1]);
      CountsStep(setup, turns);
    }
  }

  /** No main question gets more follow-ups than it allows. */
  lemma {:induction false} CountsLimited(setup: Setup, turns: seq<Turn>, k: nat)
    requires TurnsOk(setup, turns) && k < |Counts(turns)|
    ensures |Counts(turns)| <= |setup.questions| && Counts(turns)[k] <= Limits(setup)[k]
    decreases |turns|
  {
    var n := |turns|;
    CountsOk(setup, turns);
    assert TurnOk(setup.questions, turns, n - 1);
    if k < |Counts(turns)| - 1 && n > 1 {
      PrefixOk(setup, turns, n - 1);
      CountsOk(setup, turns[..n - 1]);
      CountsStep(setup, turns);
      CountsLimited(setup, turns[..n - 1], k);
    }
  }

  /** A transcript grows by the slot of the turn that was added. */
  lemma TranscriptStep(turns: seq<Turn>, front: seq<nat>)
    requires turns != [] && front == Counts(turns[..|turns| - 1])
    requires var last := turns[|turns| - 1];
      if last.kind == Main then last.root == |front| + 1 && last.followUpIndex == 0
      else front != [] && last.root == |front| && last.followUpIndex == front[|front| - 1] + 1
    ensures Interviewer.Transcript(Counts(turns))
         == Interviewer.Transcript(front) + [Interviewer.Slot(turns[|turns| - 1].root, turns[|turns| - 1].followUpIndex)]
  {
    if turns[|turns| - 1].kind == Main {
      Interviewer.TranscriptNextMain(front);
    } else {
      Interviewer.TranscriptFollowUp(front);
    }
  }

  /** The turn table is the transcript of its own counts. */
  lemma {:induction false} TurnsAreTranscript(setup: Setup, turns: seq<Turn>)
    requires TurnsOk(setup, turns)
    ensures Slots(turns) == Interviewer.Transcript(Counts(turns))
    decreases |turns|
  {
    var n := |turns|;
    var last := turns[n - 1];
    assert TurnOk(setup.questions, turns, n - 1);
    assert Slots(turns) == Slots(turns[..n - 1]) + [Interviewer.Slot(last.root, last.followUpIndex)];
    if n == 1 {
      assert turns[..0] == [];
    } else {
      PrefixOk(setup, turns, n - 1);
      CountsOk(setup, turns[..n - 1]);
      TurnsAreTranscript(setup, turns[..n - 1]);
    }
    TranscriptStep(turns, Counts(turns[..n - 1]));
  }

  /**
   * Refinement: under the mapping `PlanOf`, every step of the runtime is a step the sequential
   * interviewer may take, or no step at all.
   */
  lemma StepRefinesInterviewer(setup: Setup, s: System, e: Event)
    requires Reachable(setup, s)
    ensures var p, p' := PlanOf(s.db), PlanOf(Step(setup, s, e).db);
      p' == p || Interviewer.Next(Limits(setup), setup.maxFollowUpsTotal, p, p')
  {
    ReachableInv(setup, s);
    StepEffect(setup, s, e);
    StepOk(setup, s, e);
    EffectRefines(setup, s.db, Step(setup, s, e).db);
  }

  /** The plans a run goes through, one for each state. */
  function Plans(setup: Setup, s: System, events: seq<Event>): (r: seq<Interviewer.Plan>)
    ensures |r| == |events| + 1 && r[0] == PlanOf(s.db)
    decreases |events|
  {
    [PlanOf(s.db)] + if events == [] then [] else Plans(setup, Step(setup, s, events[0]), events[1..])
  }

  lemma {:induction false} PlansStayOrMove(setup: Setup, s: System, events: seq<Event>, i: nat)
    requires Reachable(setup, s) && 0 < i <= |events|
    ensures var plans := Plans(setup, s, events);
      plans[i] == plans[i - 1] || Interviewer.Next(Limits(setup), setup.maxFollowUpsTotal, plans[i - 1], plans[i])
    decreases |events|
  {
    var next := Step(setup, s, events[0]);
    if i == 1 {
      StepRefinesInterviewer(setup, s, events[0]);
    } else {
      ReachableStep(setup, s, events[0]);
      PlansStayOrMove(setup, next, events[1..], i - 1);
    }
  }

  lemma {:induction false} PlansEnd(setup: Setup, s: System, events: seq<Event>)
    ensures Plans(setup, s, events)[|events|] == PlanOf(Run(setup, s, events).db)
    decreases |events|
  {
    if events != [] {
      PlansEnd(setup, Step(setup, s, events[0]), events[1..]);
    }
  }

  /**
   * Refinement over whole runs: from the start of a session on, whatever arrives in whatever order,
   * the plans of its states without the repeats are an interview of the sequential interviewer,
   * which ends where the run ends.
   */
  lemma RunRefinesInterviewer(setup: Setup, durationMs: int, now: Time, events: seq<Event>)
    requires Begin(setup, durationMs, now).Some?
    ensures var s := System(Begin(setup, durationMs, now).value, []);
      var interview := Interviewer.WithoutRepeats(Plans(setup, s, events));
      && Interviewer.IsInterview(Limits(setup), setup.maxFollowUpsTotal, interview)
      && interview[|interview| - 1] == PlanOf(Run(setup, s, events).db)
  {
    var s := System(Begin(setup, durationMs, now).value, []);
    assert Reachable(setup, s) by { assert s == Run(setup, s, []); }
    forall i | 0 < i <= |events|
      ensures var plans := Plans(setup, s, events);
        plans[i] == plans[i - 1] || Interviewer.Next(Limits(setup), setup.maxFollowUpsTotal, plans[i - 1], plans[i])
    {
      PlansStayOrMove(setup, s, events, i);
    }
    Interviewer.WithoutRepeatsConnected(Limits(setup), setup.maxFollowUpsTotal, Plans(setup, s, events));
    BeginOk(setup, durationMs, now);
    CountsStart(setup, s.db.turns);
    PlansEnd(setup, s, events);
  }

  lemma EffectRefines(setup: Setup, a: Db, b: Db)
    requires TurnsOk(setup, a.turns) && TurnsOk(setup, b.turns) && BudgetOk(setup, a) && Effect(setup, a, b)
    ensures PlanOf(b) == PlanOf(a) || Interviewer.Next(Limits(setup), setup.maxFollowUpsTotal, PlanOf(a), PlanOf(b))
  {
    if !Untouched(a, b) {
      if PhaseMoves(setup, a, b) {
        CountsOk(setup, a.turns);
        PhaseRefines(setup, a, b);
      } else {
        AdditionRefines(setup, a, b);
      }
    }
  }

  lemma AdditionRefines(setup: Setup, a: Db, b: Db)
    requires TurnsOk(setup, a.turns) && TurnsOk(setup, b.turns) && BudgetOk(setup, a)
    requires KindsKept(a, b) && TurnAdded(setup, a, b)
    ensures Interviewer.Next(Limits(setup), setup.maxFollowUpsTotal, PlanOf(a), PlanOf(b))
  {
    CountsOk(setup, a.turns);
    CountsOk(setup, b.turns);
    DbGrows(setup, a, b);
  }

  lemma PhaseRefines(setup: Setup, a: Db, b: Db)
    requires a.turns != [] && KindsKept(a, b) && PhaseMoves(setup, a, b)
    requires Counts(a.turns) != [] && |Counts(a.turns)| == a.turns[|a.turns| - 1].root
    ensures Interviewer.Next(Limits(setup), setup.maxFollowUpsTotal, PlanOf(a), PlanOf(b))
  {
    CountsIgnoreStatus(a.turns, b.turns);
  }

  /** The plan read off the rows grows with the turn table. */
  lemma DbGrows(setup: Setup, a: Db, b: Db)
    requires |b.turns| == |a.turns| + 1 && forall i :: 0 <= i < |a.turns| ==> b.turns[i].kind == a.turns[i].kind
    requires a.turns != [] && Counts(a.turns) != []
    requires |Counts(a.turns)| <= |setup.questions| && |Counts(b.turns)| <= |setup.questions|
    requires b.session.state == AwaitingAnswer && (a.session.state == AwaitingAnswer || a.session.state == Advancing)
    requires b.turns[|a.turns|].kind == FollowUp ==>
      && a.session.state == Advancing && Sum(Counts(a.turns)) < setup.maxFollowUpsTotal
      && Counts(a.turns)[|Counts(a.turns)| - 1] < Limits(setup)[|Counts(a.turns)| - 1]
    ensures Interviewer.Next(Limits(setup), setup.maxFollowUpsTotal, PlanOf(a), PlanOf(b))
  {
    CountsGrow(a.turns, b.turns);
    PlanGrows(Limits(setup), setup.maxFollowUpsTotal, PlanOf(a), PlanOf(b), b.turns[|a.turns|].kind == FollowUp);
  }

  lemma CountsGrow(before: seq<Turn>, after: seq<Turn>)
    requires |after| == |before| + 1 && forall i :: 0 <= i < |before| ==> after[i].kind == before[i].kind
    requires Counts(before) != []
    ensures var front := Counts(before);
      Counts(after) == (if after[|before|].kind == FollowUp then front[|front| - 1 := front[|front| - 1] + 1]
                        else front + [0])
  {
    CountsIgnoreStatus(before, after[..|before|]);
  }

  /** One more turn is one more branch, or one more follow-up under the last one. */
  lemma PlanGrows(limits: seq<nat>, total: nat, p: Interviewer.Plan, p': Interviewer.Plan, isFollowUp: bool)
    requires p.counts != [] && |p'.counts| <= |limits| && |p.counts| <= |limits|
    requires p'.phase == Interviewer.Asking && (p.phase == Interviewer.Asking || p.phase == Interviewer.Deciding)
    requires var n := |p.counts|;
      if isFollowUp then
        && p'.counts == p.counts[n - 1 := p.counts[n - 1] + 1]
        && p.phase == Interviewer.Deciding && Sum(p.counts) < total && p.counts[n - 1] < limits[n - 1]
      else p'.counts == p.counts + [0]
    ensures Interviewer.Next(limits, total, p, p')
  {
  }

  /**
   * In every reachable state the turn list is the transcript of a plan within every budget, and
   * the session's counter is the number of follow-ups in it.
   */
  lemma TurnsAreSequentialInterview(setup: Setup, s: System)
    requires Reachable(setup, s)
    ensures Slots(s.db.turns) == Interviewer.Transcript(PlanOf(s.db).counts)
    ensures Interviewer.WithinBudget(Limits(setup), setup.maxFollowUpsTotal, PlanOf(s.db))
    ensures Sum(PlanOf(s.db).counts) == s.db.session.followUpsUsed
  {
    ReachableInv(setup, s);
    CountsOk(setup, s.db.turns);
    TurnsAreTranscript(setup, s.db.turns);
    forall k | 0 <= k < |Counts(s.db.turns)|
      ensures Counts(s.db.turns)[k] <= Limits(setup)[k]
    {
      CountsLimited(setup, s.db.turns, k);
    }
  }

  /** Both unique constraints of the turn table hold, and sequence numbers are 1..n without gaps. */
  lemma UniqueConstraintsHold(setup: Setup, s: System, i: nat, j: nat)
    requires Reachable(setup, s) && i < j < |s.db.turns|
    ensures s.db.turns[i].sequenceNo == i + 1 && s.db.turns[j].sequenceNo == j + 1
    ensures s.db.turns[i].root != s.db.turns[j].root || s.db.turns[i].followUpIndex != s.db.turns[j].followUpIndex
  {
    ReachableInv(setup, s);
    assert TurnOk(setup.questions, s.db.turns, i) && TurnOk(setup.questions, s.db.turns, j);
    TurnsAreTranscript(setup, s.db.turns);
    Interviewer.TranscriptDistinct(Counts(s.db.turns), i, j);
    assert Slots(s.db.turns)[i] != Slots(s.db.turns)[j];
  }

  /* ---------- termination ---------- */

  /** How many steps of a run changed session, turns or answers. */
  function EffectiveSteps(setup: Setup, s: System, events: seq<Event>): nat
    decreases |events|
  {
    if events == [] then 0
    else
      var next := Step(setup, s, events[0]);
      (if Untouched(s.db, next.db) then 0 else 1) + EffectiveSteps(setup, next, events[1..])
  }

  lemma {:induction false} VersionCountsSteps(setup: Setup, s: System, events: seq<Event>)
    requires Inv(setup, s)
    ensures Run(setup, s, events).db.session.version == s.db.session.version + EffectiveSteps(setup, s, events)
    decreases |events|
  {
    if events != [] {
      StepEffect(setup, s, events[0]);
      StepOk(setup, s, events[0]);
      VersionCountsSteps(setup, Step(setup, s, events[0]), events[1..]);
    }
  }

  /** The version never exceeds twice the capacity plus two. */
  lemma VersionBounded(setup: Setup, s: System)
    requires Reachable(setup, s)
    ensures s.db.session.version <= 2 * Capacity(setup) + 2
    ensures |s.db.turns| <= Capacity(setup)
  {
    ReachableInv(setup, s);
    TurnsWithinCapacity(setup, s.db);
  }

  /** However many events arrive, only boundedly many of them change the interview. */
  lemma RunsTerminate(setup: Setup, durationMs: int, now: Time, events: seq<Event>)
    requires Begin(setup, durationMs, now).Some?
    ensures EffectiveSteps(setup, System(Begin(setup, durationMs, now).value, []), events) <= 2 * Capacity(setup) + 1
  {
    var s := System(Begin(setup, durationMs, now).value, []);
    BeginOk(setup, durationMs, now);
    VersionCountsSteps(setup, s, events);
    assert Reachable(setup, Run(setup, s, events));
    VersionBounded(setup, Run(setup, s, events));
  }

  /* ---------- progress ---------- */

  ghost predicate PositiveSettings(config: Config) {
    config.timeoutMs > 0 && config.graceMs > 0 && config.minRemainingMs > 0
  }

  /** On entering ADVANCING the advance deadline lies ahead, and not beyond the session deadline. */
  lemma AdvanceDeadlineAhead(setup: Setup, db: Db, turnId: nat, text: string, isSkipped: bool, now: Time)
    requires PositiveSettings(setup.config)
    requires var r := SubmitAnswer(setup, db, turnId, text, isSkipped, now); r.Ok? && r.value.call.Some?
    ensures var s := SubmitAnswer(setup, db, turnId, text, isSkipped, now).value.db.session;
      && s.state == Advancing
      && s.advanceDeadlineAt.Some? && now < s.advanceDeadlineAt.value <= s.deadlineAt
  {
    var recorded := RecordAnswer(db, turnId, text, isSkipped, now);
    assert EvaluateEligibility(Some(setup), recorded, recorded.turns[turnId], text, isSkipped, now).MayCall?;
  }

  /** One uninterrupted poll at or after the advance deadline always leaves ADVANCING. */
  lemma PollLeavesAdvancing(setup: Setup, s: System, now: Time)
    requires Reachable(setup, s) && s.db.session.state == Advancing
    requires s.db.session.advanceDeadlineAt.Some? && s.db.session.advanceDeadlineAt.value <= now
    ensures Poll(setup, s.db, now).session.state != Advancing
    ensures Poll(setup, s.db, now).session.state == Closed <==> s.db.session.deadlineAt <= now
  {
    ReachableInv(setup, s);
  }

  /** A poll reads without a lock first; `close` tells whether its first transaction ran its check. */
  function PollOn(setup: Setup, seen: Db, s1: System, between: seq<Event>, now: Time): System {
    if seen.session.status == InProgress && now >= seen.session.deadlineAt then
      var swept := s1.(db := SweepDeadline(s1.db, now));
      if s1.db.session.status == InProgress then Run(setup, swept, between)
      else
        var s2 := Run(setup, swept, between);
        if IsStale(seen, now) then s2.(db := RecoverIfStale(setup, s2.db, now)) else s2
    else
      var s2 := Run(setup, s1, between);
      if IsStale(seen, now) then s2.(db := RecoverIfStale(setup, s2.db, now)) else s2
  }

  /** The session's deadline is fixed when it starts. */
  lemma {:induction false} DeadlineFixed(setup: Setup, s: System, events: seq<Event>)
    ensures Run(setup, s, events).db.session.deadlineAt == s.db.session.deadlineAt
    decreases |events|
  {
    if events != [] {
      DeadlineFixed(setup, Step(setup, s, events[0]), events[1..]);
    }
  }

  /**
   * With other steps between the unlocked read and each of the poll's transactions, the epoch the
   * poll saw stuck is resolved all the same.
   */
  lemma PollResolvesEpoch(setup: Setup, s: System, before: seq<Event>, between: seq<Event>, now: Time)
    requires Reachable(setup, s) && IsStale(s.db, now)
    ensures s.db.session.version
         < PollOn(setup, s.db, Run(setup, s, before), between, now).db.session.version
  {
    ReachableInv(setup, s);
    var s1 := Run(setup, s, before);
    RunOk(setup, s, before);
    VersionsAscend(setup, s, before);
    DeadlineFixed(setup, s, before);
    if now >= s.db.session.deadlineAt {
      var swept := Step(setup, s1, SweepEv(now));
      StepOk(setup, s1, SweepEv(now));
      VersionsAscend(setup, swept, between);
      if s1.db.session.status != InProgress {
        RunOk(setup, swept, between);
        RecoverKeepsVersion(setup, Run(setup, swept, between), now);
      }
    } else {
      RunOk(setup, s1, between);
      VersionsAscend(setup, s1, between);
      RecoverKeepsVersion(setup, Run(setup, s1, between), now);
    }
  }

  lemma RecoverKeepsVersion(setup: Setup, s: System, now: Time)
    requires Inv(setup, s)
    ensures RecoverIfStale(setup, s.db, now).session.version >= s.db.session.version
    ensures IsStale(s.db, now) ==> RecoverIfStale(setup, s.db, now).session.version == s.db.session.version + 1
  {
  }

  /* ---------- turns and answers ---------- */

  function AnswerCount(answers: seq<Answer>, turn: nat): nat {
    if answers == [] then 0
    else AnswerCount(answers[..|answers| - 1], turn) + if answers[|answers| - 1].turn == turn then 1 else 0
  }

  lemma {:induction false} CountInOrder(answers: seq<Answer>, turn: nat)
    requires forall j :: 0 <= j < |answers| ==> answers[j].turn == j
    ensures AnswerCount(answers, turn) == if turn < |answers| then 1 else 0
    decreases |answers|
  {
    if answers != [] {
      CountInOrder(answers[..|answers| - 1], turn);
    }
  }

  /**
   * A turn is OPEN exactly when it is the session's current turn in AWAITING_ANSWER; every turn but
   * the last is ANSWERED or SKIPPED; CLOSED_UNANSWERED occurs only on the last turn of a closed
   * session; a submitted turn has exactly one answer and no other turn has one.
   */
  lemma TurnLifecycle(setup: Setup, s: System, i: nat)
    requires Reachable(setup, s) && i < |s.db.turns|
    ensures s.db.turns[i].status == Open
        <==> s.db.session.state == AwaitingAnswer && s.db.session.currentTurn == Some(i)
    ensures i < |s.db.turns| - 1 ==> IsSubmitted(s.db.turns[i])
    ensures s.db.turns[i].status == ClosedUnanswered ==> i == |s.db.turns| - 1 && s.db.session.state == Closed
    ensures AnswerCount(s.db.answers, i) == if IsSubmitted(s.db.turns[i]) then 1 else 0
  {
    ReachableInv(setup, s);
    CountInOrder(s.db.answers, i);
  }

  lemma {:induction false} MainTurnOf(setup: Setup, turns: seq<Turn>, position: nat) returns (i: nat)
    requires TurnsOk(setup, turns) && 1 <= position <= turns[|turns| - 1].root
    ensures i < |turns| && turns[i].root == position && turns[i].kind == Main
    decreases |turns|
  {
    var n := |turns|;
    assert TurnOk(setup.questions, turns, n - 1);
    if turns[n - 1].root == position && turns[n - 1].kind == Main {
      i := n - 1;
    } else {
      PrefixOk(setup, turns, n - 1);
      i := MainTurnOf(setup, turns[..n - 1], position);
    }
  }

  /** Turn i is the one main turn of question p; it has been responded to, exactly once. */
  ghost predicate HandledBy(setup: Setup, db: Db, p: nat, i: nat)
    requires 1 <= p <= |setup.questions| && i < |db.turns|
  {
    && db.turns[i].root == p && db.turns[i].kind == Main && db.turns[i].text == setup.questions[p - 1].text
    && IsSubmitted(db.turns[i]) && AnswerCount(db.answers, i) == 1
    && forall j :: 0 <= j < |db.turns| && db.turns[j].root == p && db.turns[j].kind == Main ==> j == i
  }

  ghost predicate IsHandled(setup: Setup, db: Db, p: nat)
    requires 1 <= p <= |setup.questions|
  {
    exists i :: 0 <= i < |db.turns| && HandledBy(setup, db, p, i)
  }

  /** Every question has been put to the candidate, once, and the candidate has responded to it once. */
  ghost predicate AllQuestionsHandled(setup: Setup, db: Db) {
    forall p: nat :: 1 <= p <= |setup.questions| ==> IsHandled(setup, db, p)
  }

  /** READY_TO_FINISH, and an end reason of ALL_QUESTIONS_ANSWERED, mean what they say. */
  lemma ReadyMeansAllHandled(setup: Setup, s: System)
    requires Reachable(setup, s)
    requires s.db.session.state == ReadyToFinish || s.db.session.endReason == Some(AllQuestionsAnswered)
    ensures AllQuestionsHandled(setup, s.db)
  {
    ReachableInv(setup, s);
    forall p: nat | 1 <= p <= |setup.questions|
      ensures IsHandled(setup, s.db, p)
    {
      var i := MainTurnOf(setup, s.db.turns, p);
      TurnLifecycle(setup, s, i);
      assert TurnOk(setup.questions, s.db.turns, i);
      forall j | 0 <= j < |s.db.turns| && s.db.turns[j].root == p && s.db.turns[j].kind == Main
        ensures j == i
      {
        assert TurnOk(setup.questions, s.db.turns, j);
        if i < j { UniqueConstraintsHold(setup, s, i, j); }
        if j < i { UniqueConstraintsHold(setup, s, j, i); }
      }
      assert HandledBy(setup, s.db, p, i);
    }
  }

  lemma ReadyMeansHandled(setup: Setup, s: System, p: nat)
    requires Reachable(setup, s) && 1 <= p <= |setup.questions|
    requires s.db.session.state == ReadyToFinish || s.db.session.endReason == Some(AllQuestionsAnswered)
    ensures exists i :: 0 <= i < |s.db.turns| && HandledBy(setup, s.db, p, i)
  {
    ReadyMeansAllHandled(setup, s);
    assert IsHandled(setup, s.db, p);
  }

  /* ---------- AI runs ---------- */

  /** Over whole runs: a run that has left PROCESSING is never written again. */
  lemma {:induction false} RunsEvolve(setup: Setup, s: System, events: seq<Event>)
    requires Reachable(setup, s)
    ensures Evolves(s.db.runs, Run(setup, s, events).db.runs)
    decreases |events|
  {
    if events != [] {
      var next := Step(setup, s, events[0]);
      ReachableInv(setup, s);
      StepEffect(setup, s, events[0]);
      ReachableStep(setup, s, events[0]);
      RunsEvolve(setup, next, events[1..]);
      EvolvesTransitive(s.db.runs, next.db.runs, Run(setup, s, events).db.runs);
    }
  }

  /** At most one PROCESSING run, and none while an answer is awaited or the interview is ready to finish. */
  lemma ActiveRunDiscipline(setup: Setup, s: System, i: nat, j: nat)
    requires Reachable(setup, s) && i < |s.db.runs| && j < |s.db.runs|
    ensures s.db.runs[i].completedAt.Some? <==> s.db.runs[i].status != Processing
    ensures s.db.runs[i].status == Processing && s.db.runs[j].status == Processing ==> i == j
    ensures s.db.runs[i].status == Processing ==>
      s.db.session.state == Advancing || s.db.session.state == Closed
  {
    ReachableInv(setup, s);
  }
}
