/**
 * Question sets: generation by a model under a generation version, manual editing, approval and
 * cloning (nestjs-auth/src/modules/question-sets).
 */
module QuestionSets {
  import opened Base
  import opened Sorting
  import R = AiRuns
  import Fencing
  import CvExtraction

  type Profile = CvExtraction.Profile

  datatype Status = Generating | Draft | Failed | Approved

  datatype JobSnapshot = JobSnapshot(content: string, criteria: set<string>, version: nat)

  /** What a set was made from; never changed afterwards, and shared by its clones. */
  datatype Origin = Origin(manual: bool, cv: nat, cvProfileVersion: nat, jobVersion: nat, profileSnapshot: Profile,
                           jobSnapshot: JobSnapshot)

  datatype Item = Item(position: int, text: string, criterion: Option<string>, allowFollowUp: bool, maxFollowUps: nat)

  datatype ItemInput = ItemInput(position: int, text: string, criterion: Option<string>, allowFollowUp: Option<bool>,
                                 maxFollowUps: Option<nat>)

  /** The set's row, its items in no particular order, and the AI runs that belong to it. */
  datatype QuestionSet = QuestionSet(origin: Origin, status: Status, version: nat, generationVersion: nat,
                                     aiRun: Option<nat>, items: seq<Item>, updatedAt: Time, runs: seq<R.AiRun>)

  /** The application's current CV, that CV's approved profile version, and the job's version, where they exist. */
  datatype Source = Source(shortlisted: bool, currentCv: Option<nat>, approvedProfile: Option<nat>, jobVersion: Option<nat>)

  datatype Claim = Claim(run: nat, generation: nat)

  datatype SetError = NotRetryable | AlreadyApproved | VersionConflict | StateConflict | StaleSource | NotEditable
                    | InvalidItems | CriterionNotFound | Empty | Superseded | DuplicatePosition

  datatype Claimed = Claimed(qs: QuestionSet, claim: Claim)

  const MAX_ITEMS := 12

  predicate CheckIfStale(o: Origin, source: Source) {
    || source.currentCv != Some(o.cv)
    || source.approvedProfile != Some(o.cvProfileVersion)
    || source.jobVersion != Some(o.jobVersion)
  }

  /* ---------- positions ---------- */

  predicate ByPosition(a: Item, b: Item) { a.position <= b.position }
  predicate ByInputPosition(a: ItemInput, b: ItemInput) { a.position <= b.position }
  predicate IntLeq(a: int, b: int) { a <= b }

  function Positions(items: seq<Item>): (r: seq<int>)
    ensures |r| == |items|
  {
    seq(|items|, i requires 0 <= i < |items| => items[i].position)
  }

  function InputPositions(items: seq<ItemInput>): (r: seq<int>)
    ensures |r| == |items|
  {
    seq(|items|, i requires 0 <= i < |items| => items[i].position)
  }

  /** 1, 2, ..., n. */
  function OneTo(n: nat): (r: seq<int>)
    ensures |r| == n
  {
    seq(n, i => i + 1)
  }

  /** The check both `updateItems` and `approve` run over a sorted list. */
  predicate Contiguous(positions: seq<int>) {
    forall i :: 0 <= i < |positions| ==> positions[i] == i + 1
  }

  /* ---------- creating ---------- */

  function CreateByAi(origin: Origin, now: Time): Claimed {
    Claimed(QuestionSet(origin, Generating, 1, 1, Some(0), [], now, R.Start([])), Claim(0, 1))
  }

  function CreateManually(origin: Origin, now: Time): QuestionSet {
    QuestionSet(origin, Draft, 1, 1, None, [], now, [])
  }

  /** A new draft with the same origin and items; the copy belongs to no run. */
  function Clone(qs: QuestionSet, now: Time): QuestionSet {
    QuestionSet(qs.origin, Draft, 1, qs.generationVersion, None, SortBy(qs.items, ByPosition), now, [])
  }

  /* ---------- generating ---------- */

  function RetryGeneration(qs: QuestionSet, expectedGeneration: nat, source: Source, staleMs: int, now: Time)
    : Result<Claimed, SetError>
  {
    if qs.origin.manual then Err(NotRetryable)
    else if qs.status == Approved then Err(AlreadyApproved)
    else if qs.generationVersion != expectedGeneration then Err(VersionConflict)
    else if qs.status != Failed && !(qs.status == Generating && now - qs.updatedAt > staleMs) then Err(NotRetryable)
    else if !source.shortlisted then Err(StateConflict)
    else if CheckIfStale(qs.origin, source) then Err(StaleSource)
    else
      var settled := if qs.aiRun.Some? then R.Supersede(qs.runs, qs.aiRun.value, now) else qs.runs;
      Ok(Claimed(qs.(generationVersion := qs.generationVersion + 1, status := Generating, aiRun := Some(|settled|),
                     updatedAt := now, runs := R.Start(settled)),
                 Claim(|settled|, qs.generationVersion + 1)))
  }

  predicate IsCurrent(qs: QuestionSet, claim: Claim) {
    qs.status == Generating && qs.generationVersion == claim.generation && qs.aiRun == Some(claim.run)
  }

  /**
   * Transaction 2. A late result and a stale source are noted and then thrown, so the notes are
   * rolled back with everything else; so is a list that repeats a position.
   */
  function ApplyGenerated(qs: QuestionSet, claim: Claim, items: seq<Item>, source: Source, now: Time)
    : Result<QuestionSet, SetError>
  {
    if !IsCurrent(qs, claim) then Err(Superseded)
    else if CheckIfStale(qs.origin, source) then Err(StaleSource)
    else if exists i, j :: 0 <= i < j < |items| && items[i].position == items[j].position then Err(DuplicatePosition)
    else Ok(qs.(items := items, status := Draft, version := qs.version + 1, updatedAt := now,
                runs := R.Succeed(qs.runs, claim.run, now)))
  }

  /** The failure transaction: the run fails in any case, the set only while the run is its current one. */
  function MarkGenerationFailed(qs: QuestionSet, claim: Claim, code: string, now: Time): QuestionSet {
    var failed := if IsCurrent(qs, claim) then qs.(status := Failed, updatedAt := now) else qs;
    failed.(runs := R.Fail(qs.runs, claim.run, code, now))
  }

  /* ---------- editing and approving ---------- */

  function NewItem(input: ItemInput): Item {
    var allow := input.allowFollowUp.None? || input.allowFollowUp.value;
    Item(input.position, input.text, input.criterion, allow,
         if !allow then 0 else if input.maxFollowUps.Some? then input.maxFollowUps.value else 1)
  }

  predicate CriteriaKnown(items: seq<ItemInput>, criteria: set<string>) {
    forall i :: 0 <= i < |items| && items[i].criterion.Some? ==> items[i].criterion.value in criteria
  }

  function UpdateItems(qs: QuestionSet, expectedVersion: nat, inputs: seq<ItemInput>, now: Time)
    : Result<QuestionSet, SetError>
  {
    if qs.status == Approved then Err(AlreadyApproved)
    else if qs.status != Draft then Err(NotEditable)
    else if qs.version != expectedVersion then Err(VersionConflict)
    else if |inputs| < 1 || |inputs| > MAX_ITEMS then Err(InvalidItems)
    else
      var sorted := SortBy(inputs, ByInputPosition);
      if !Contiguous(InputPositions(sorted)) then Err(InvalidItems)
      else if !CriteriaKnown(inputs, qs.origin.jobSnapshot.criteria) then Err(CriterionNotFound)
      else Ok(qs.(items := seq(|sorted|, i requires 0 <= i < |sorted| => NewItem(sorted[i])),
                  version := qs.version + 1, updatedAt := now))
  }

  function Approve(qs: QuestionSet, expectedVersion: nat, source: Source, now: Time): Result<QuestionSet, SetError> {
    if qs.status == Approved then Err(AlreadyApproved)
    else if qs.status != Draft then Err(NotEditable)
    else if qs.version != expectedVersion then Err(VersionConflict)
    else if !source.shortlisted then Err(StateConflict)
    else if CheckIfStale(qs.origin, source) then Err(StaleSource)
    else if |qs.items| == 0 then Err(Empty)
    else if |qs.items| > MAX_ITEMS then Err(InvalidItems)
    else if !Contiguous(Positions(SortBy(qs.items, ByPosition))) then Err(InvalidItems)
    else Ok(qs.(status := Approved, version := qs.version + 1, updatedAt := now))
  }

  /* ---------- a set as a system ---------- */

  datatype Output = Generated(items: seq<Item>) | Broken(code: string)

  /** A set and every claim made for it; a claim's result may come late, several times, or never. */
  datatype System = System(qs: QuestionSet, claims: seq<Claim>)

  datatype Event =
    | RetryEv(expectedGeneration: nat, source: Source, now: Time)
    | OutputEv(claim: nat, output: Output, source: Source, now: Time)
    | EditEv(expectedVersion: nat, inputs: seq<ItemInput>, now: Time)
    | ApproveEv(expectedVersion: nat, source: Source, now: Time)

  function Deliver(qs: QuestionSet, claim: Claim, output: Output, source: Source, now: Time): QuestionSet {
    match output
    case Broken(code) => MarkGenerationFailed(qs, claim, code, now)
    case Generated(items) =>
      match ApplyGenerated(qs, claim, items, source, now)
      case Ok(qs') => qs'
      case Err(_) => qs
  }

  function Step(staleMs: int, s: System, e: Event): System {
    match e
    case RetryEv(expected, source, now) => (
      match RetryGeneration(s.qs, expected, source, staleMs, now)
      case Ok(c) => System(c.qs, s.claims + [c.claim])
      case Err(_) => s)
    case OutputEv(k, output, source, now) =>
      if k < |s.claims| then s.(qs := Deliver(s.qs, s.claims[k], output, source, now)) else s
    case EditEv(expected, inputs, now) => (
      match UpdateItems(s.qs, expected, inputs, now)
      case Ok(qs) => s.(qs := qs)
      case Err(_) => s)
    case ApproveEv(expected, source, now) => (
      match Approve(s.qs, expected, source, now)
      case Ok(qs) => s.(qs := qs)
      case Err(_) => s)
  }

  function Run(staleMs: int, s: System, events: seq<Event>): System
    decreases |events|
  {
    if events == [] then s else Run(staleMs, Step(staleMs, s, events[0]), events[1..])
  }

  /* ---------- invariant ---------- */

  ghost predicate Inv(s: System) {
    && (forall k :: 0 <= k < |s.claims| ==> s.claims[k] == Claim(k, k + 1))
    && (if s.claims == [] then s.qs.aiRun == None && s.qs.runs == [] && (s.qs.status == Draft || s.qs.status == Approved)
        else s.qs.aiRun == Some(|s.claims| - 1) && |s.qs.runs| == |s.claims| && s.qs.generationVersion == |s.claims|)
    && R.WellFormed(s.qs.runs) && R.OnlyLastActive(s.qs.runs)
    && (s.qs.status != Generating ==> R.NoneActive(s.qs.runs))
    && (s.qs.status == Approved ==>
          1 <= |s.qs.items| <= MAX_ITEMS && Contiguous(Positions(SortBy(s.qs.items, ByPosition))))
  }

  lemma RetryOk(staleMs: int, s: System, e: Event)
    requires Inv(s) && e.RetryEv?
    ensures Inv(Step(staleMs, s, e)) && R.Evolves(s.qs.runs, Step(staleMs, s, e).qs.runs)
  {
    if s.qs.aiRun.Some? {
      R.SettleKeeps(s.qs.runs, s.qs.aiRun.value, R.Superseded, s.qs.runs[|s.qs.runs| - 1].errorCode, e.now);
    }
  }

  lemma OutputOk(staleMs: int, s: System, e: Event)
    requires Inv(s) && e.OutputEv?
    ensures Inv(Step(staleMs, s, e)) && R.Evolves(s.qs.runs, Step(staleMs, s, e).qs.runs)
  {
    match e.output
    case Generated(_) => R.SettleKeeps(s.qs.runs, e.claim, R.Succeeded, None, e.now);
    case Broken(code) => R.SettleKeeps(s.qs.runs, e.claim, R.Failed, Some(R.Truncate(code)), e.now);
  }

  lemma StepOk(staleMs: int, s: System, e: Event)
    requires Inv(s)
    ensures Inv(Step(staleMs, s, e)) && R.Evolves(s.qs.runs, Step(staleMs, s, e).qs.runs)
  {
    match e
    case RetryEv(_, _, _) => RetryOk(staleMs, s, e);
    case OutputEv(_, _, _, _) => OutputOk(staleMs, s, e);
    case _ =>
  }

  lemma {:induction false} RunOk(staleMs: int, s: System, events: seq<Event>)
    requires Inv(s)
    ensures Inv(Run(staleMs, s, events)) && R.Evolves(s.qs.runs, Run(staleMs, s, events).qs.runs)
    decreases |events|
  {
    if events != [] {
      var next := Step(staleMs, s, events[0]);
      StepOk(staleMs, s, events[0]);
      RunOk(staleMs, next, events[1..]);
      R.EvolvesTransitive(s.qs.runs, next.qs.runs, Run(staleMs, s, events).qs.runs);
    }
  }

  /** Created in any of the three ways; a clone may be made of any set at all. */
  ghost predicate Created(s: System) {
    || (exists origin: Origin, now: Time :: s == System(CreateByAi(origin, now).qs, [CreateByAi(origin, now).claim]))
    || (exists origin: Origin, now: Time :: s == System(CreateManually(origin, now), []))
    || (exists source: QuestionSet, now: Time :: s == System(Clone(source, now), []))
  }

  ghost predicate Reachable(staleMs: int, s: System) {
    exists start: System, events: seq<Event> :: Created(start) && s == Run(staleMs, start, events)
  }

  lemma ReachableInv(staleMs: int, s: System)
    requires Reachable(staleMs, s)
    ensures Inv(s)
  {
    var start, events :| Created(start) && s == Run(staleMs, start, events);
    RunOk(staleMs, start, events);
  }

  /* ---------- positions: what the sort-and-check accepts ---------- */

  function PositionOf(item: Item): int { item.position }
  function InputPositionOf(input: ItemInput): int { input.position }

  lemma SortedInputPositions(items: seq<ItemInput>)
    ensures var sorted := SortBy(items, ByInputPosition);
      && Ascending(InputPositions(sorted), IntLeq)
      && multiset(InputPositions(sorted)) == multiset(InputPositions(items))
  {
    SortBySpec(items, ByInputPosition);
    MappedPermuted(SortBy(items, ByInputPosition), items, InputPositionOf);
    assert forall xs: seq<ItemInput> :: InputPositions(xs) == Mapped(xs, InputPositionOf);
  }

  lemma SortedPositions(items: seq<Item>)
    ensures var sorted := SortBy(items, ByPosition);
      && Ascending(Positions(sorted), IntLeq)
      && multiset(Positions(sorted)) == multiset(Positions(items))
  {
    SortBySpec(items, ByPosition);
    MappedPermuted(SortBy(items, ByPosition), items, PositionOf);
    assert forall xs: seq<Item> :: Positions(xs) == Mapped(xs, PositionOf);
  }

  lemma AscendingRange(xs: seq<int>)
    requires Ascending(xs, IntLeq)
    ensures Contiguous(xs) <==> multiset(xs) == multiset(OneTo(|xs|))
  {
    if Contiguous(xs) {
      assert xs == OneTo(|xs|);
    }
    if multiset(xs) == multiset(OneTo(|xs|)) {
      SortedUnique(xs, OneTo(|xs|), IntLeq);
    }
  }

  /** Sorting and checking accepts exactly the permutations of 1..n. */
  lemma SortAndCheckIsPermutation(items: seq<ItemInput>)
    ensures Contiguous(InputPositions(SortBy(items, ByInputPosition)))
        <==> multiset(InputPositions(items)) == multiset(OneTo(|items|))
  {
    SortedInputPositions(items);
    AscendingRange(InputPositions(SortBy(items, ByInputPosition)));
  }

  /** The same for the items an approval looks at. */
  lemma SortedItemsArePermutation(items: seq<Item>)
    ensures Contiguous(Positions(SortBy(items, ByPosition))) <==> multiset(Positions(items)) == multiset(OneTo(|items|))
  {
    SortedPositions(items);
    AscendingRange(Positions(SortBy(items, ByPosition)));
    assert |multiset(SortBy(items, ByPosition))| == |multiset(items)| by { SortBySpec(items, ByPosition); }
  }

  /* ---------- approved sets ---------- */

  /** Over whole runs, retries, late results and edits included: an approved set never changes. */
  lemma {:induction false} ApprovedIsFinal(staleMs: int, s: System, events: seq<Event>)
    requires Inv(s) && s.qs.status == Approved
    ensures Run(staleMs, s, events) == s
    decreases |events|
  {
    if events != [] {
      var next := Step(staleMs, s, events[0]);
      StepOk(staleMs, s, events[0]);
      if events[0].OutputEv? && events[0].claim < |s.claims| {
        SettledStays(s.qs.runs, events[0].claim, events[0].output, events[0].now);
      }
      assert next == s;
      ApprovedIsFinal(staleMs, next, events[1..]);
    }
  }

  lemma SettledStays(runs: seq<R.AiRun>, id: nat, output: Output, now: Time)
    requires R.NoneActive(runs)
    ensures output.Broken? ==> R.Fail(runs, id, output.code, now) == runs
  {
  }

  /** The items of an approved set, read in order of position, are questions 1, 2, ..., n with 1 <= n <= 12. */
  lemma ApprovedIsContiguous(staleMs: int, s: System)
    requires Reachable(staleMs, s) && s.qs.status == Approved
    ensures 1 <= |s.qs.items| <= MAX_ITEMS
    ensures var sorted := SortBy(s.qs.items, ByPosition);
      && multiset(sorted) == multiset(s.qs.items)
      && forall i :: 0 <= i < |sorted| ==> sorted[i].position == i + 1
  {
    ReachableInv(staleMs, s);
    SortBySpec(s.qs.items, ByPosition);
    var sorted := SortBy(s.qs.items, ByPosition);
    forall i | 0 <= i < |sorted|
      ensures sorted[i].position == i + 1
    {
      assert Positions(sorted)[i] == i + 1;
    }
  }

  /** A clone starts out as a draft with the same questions, whatever state the source is in. */
  lemma CloneKeepsQuestions(qs: QuestionSet, now: Time)
    ensures Clone(qs, now).status == Draft && Clone(qs, now).origin == qs.origin
    ensures multiset(Clone(qs, now).items) == multiset(qs.items)
  {
    SortBySpec(qs.items, ByPosition);
  }

  /** The set's version never falls and names its items: while it stands still they do, and so does approval. */
  lemma {:induction false} VersionNamesItems(staleMs: int, s: System, events: seq<Event>)
    ensures var qs := Run(staleMs, s, events).qs;
      && s.qs.version <= qs.version && qs.origin == s.qs.origin
      && (s.qs.version == qs.version ==> qs.items == s.qs.items && (qs.status == Approved <==> s.qs.status == Approved))
    decreases |events|
  {
    if events != [] {
      StepVersioned(staleMs, s, events[0]);
      VersionNamesItems(staleMs, Step(staleMs, s, events[0]), events[1..]);
    }
  }

  lemma StepVersioned(staleMs: int, s: System, e: Event)
    ensures var qs := Step(staleMs, s, e).qs;
      && s.qs.version <= qs.version && qs.origin == s.qs.origin
      && (s.qs.version == qs.version ==> qs.items == s.qs.items && (qs.status == Approved <==> s.qs.status == Approved))
  {
  }

  /* ---------- fencing ---------- */

  /** Every state of a run, in order. */
  function Trace(staleMs: int, s: System, events: seq<Event>): (r: seq<System>)
    ensures |r| == |events| + 1 && r[0] == s
    decreases |events|
  {
    [s] + if events == [] then [] else Trace(staleMs, Step(staleMs, s, events[0]), events[1..])
  }

  lemma {:induction false} TraceSteps(staleMs: int, s: System, events: seq<Event>, i: nat)
    requires Inv(s) && i < |events|
    ensures var t := Trace(staleMs, s, events); t[i + 1] == Step(staleMs, t[i], events[i]) && Inv(t[i])
    decreases |events|
  {
    StepOk(staleMs, s, events[0]);
    if i > 0 {
      TraceSteps(staleMs, Step(staleMs, s, events[0]), events[1..], i - 1);
    }
  }

  /** The row as a fence: the generation is the token, open while the set is generating. */
  function SetFence(s: System): Fencing.Fence {
    Fencing.Fence(|s.claims|, s.qs.status == Generating)
  }

  function Fences(trace: seq<System>): (r: seq<Fencing.Fence>)
    ensures |r| == |trace|
  {
    seq(|trace|, i requires 0 <= i < |trace| => SetFence(trace[i]))
  }

  lemma StepMoves(staleMs: int, s: System, e: Event)
    requires Inv(s)
    ensures Fencing.Moves(SetFence(s), SetFence(Step(staleMs, s, e)))
  {
  }

  lemma FencesAreTrace(staleMs: int, s: System, events: seq<Event>)
    requires Inv(s)
    ensures Fencing.IsTrace(Fences(Trace(staleMs, s, events)))
  {
    var t := Trace(staleMs, s, events);
    forall i | 0 <= i < |t| - 1
      ensures Fencing.Moves(Fences(t)[i], Fences(t)[i + 1])
    {
      TraceSteps(staleMs, s, events, i);
      StepMoves(staleMs, t[i], events[i]);
    }
  }

  /** The output reached the set itself, and not just its own run. */
  predicate Applied(s: System, e: Event) {
    && e.OutputEv? && e.claim < |s.claims|
    && var after := Deliver(s.qs, s.claims[e.claim], e.output, e.source, e.now);
       after.(runs := s.qs.runs) != s.qs
  }

  /** Only the run the set names, at the set's present generation, ever gets its output in; never into an approved set. */
  lemma AppliedIsCurrent(staleMs: int, s: System, e: Event)
    requires Reachable(staleMs, s) && Applied(s, e)
    ensures s.qs.aiRun == Some(s.claims[e.claim].run) && s.qs.generationVersion == s.claims[e.claim].generation
    ensures e.claim == |s.claims| - 1 && s.qs.status == Generating
    ensures e.output.Generated? ==> !CheckIfStale(s.qs.origin, e.source) && Step(staleMs, s, e).qs.items == e.output.items
  {
    ReachableInv(staleMs, s);
  }

  lemma AppliedCommits(staleMs: int, s: System, e: Event)
    requires Inv(s) && Applied(s, e)
    ensures Fencing.Commits(SetFence(s), SetFence(Step(staleMs, s, e)), s.claims[e.claim].generation)
  {
  }

  lemma AppliedAt(staleMs: int, s: System, events: seq<Event>, i: nat)
    requires Inv(s) && i < |events| && Applied(Trace(staleMs, s, events)[i], events[i])
    ensures var t := Trace(staleMs, s, events);
      Fencing.Commits(Fences(t)[i], Fences(t)[i + 1], t[i].claims[events[i].claim].generation)
  {
    TraceSteps(staleMs, s, events, i);
    AppliedCommits(staleMs, Trace(staleMs, s, events)[i], events[i]);
  }

  /** Across any sequence of stale retries, at most one output is applied per generation. */
  lemma OneOutputPerGeneration(staleMs: int, s: System, events: seq<Event>, i: nat, j: nat)
    requires Reachable(staleMs, s) && i < j < |events|
    requires var t := Trace(staleMs, s, events); Applied(t[i], events[i]) && Applied(t[j], events[j])
    ensures var t := Trace(staleMs, s, events);
      t[i].claims[events[i].claim].generation != t[j].claims[events[j].claim].generation
  {
    var t := Trace(staleMs, s, events);
    ReachableInv(staleMs, s);
    AppliedAt(staleMs, s, events, i);
    AppliedAt(staleMs, s, events, j);
    FencesAreTrace(staleMs, s, events);
    Fencing.AtMostOneCommit(Fences(t), t[i].claims[events[i].claim].generation, i, j);
  }

  /** A set waits for at most one run, the one it names. */
  lemma ActiveRunIsNamed(staleMs: int, s: System, i: nat)
    requires Reachable(staleMs, s) && i < |s.qs.runs| && s.qs.runs[i].status == R.Processing
    ensures s.qs.status == Generating && s.qs.aiRun == Some(i)
  {
    ReachableInv(staleMs, s);
  }

  /** A failure report of a claim that is not waited for leaves everything as it is. */
  lemma OldRunStays(s: System, k: nat, code: string, now: Time)
    requires Inv(s) && k < |s.claims| && !(s.qs.status == Generating && k == |s.claims| - 1)
    ensures MarkGenerationFailed(s.qs, s.claims[k], code, now) == s.qs
  {
  }

  /**
   * What transaction 2 writes before it throws is lost: the current run's output leaves set and run
   * as they are, still GENERATING and PROCESSING, exactly when its source is stale or it repeats a
   * position; otherwise the set becomes a draft.
   */
  lemma StaleOutputLeavesSetGenerating(staleMs: int, s: System, k: nat, items: seq<Item>, source: Source, now: Time)
    requires Reachable(staleMs, s) && k < |s.claims| && IsCurrent(s.qs, s.claims[k])
    ensures var after := Step(staleMs, s, OutputEv(k, Generated(items), source, now));
      if CheckIfStale(s.qs.origin, source) || exists i, j :: 0 <= i < j < |items| && items[i].position == items[j].position
      then after == s && after.qs.status == Generating
      else after.qs.status == Draft && after.qs.items == items && k < |after.qs.runs| && after.qs.runs[k].status != R.Processing
  {
    ReachableInv(staleMs, s);
  }
}

/** An approved set all the way to the end of the interview made from it. */
module QuestionPipeline {
  import opened Base
  import opened Sorting
  import QuestionSets
  import S = SessionModel
  import L = LifecycleModel
  import SessionTheorems
  import SessionInvariants

  /** The items handed to `createInterview`, in order of position. */
  function QuestionsOf(qs: QuestionSets.QuestionSet): (r: seq<S.Question>)
    ensures |r| == |qs.items|
  {
    var sorted := SortBy(qs.items, QuestionSets.ByPosition);
    seq(|sorted|, i requires 0 <= i < |sorted| => S.Question(sorted[i].text, sorted[i].allowFollowUp, sorted[i].maxFollowUps))
  }

  /** The session put this item to the candidate, once, and got one response; follow-ups came as the item allows. */
  ghost predicate WasAsked(db: S.Db, item: QuestionSets.Item) {
    exists i :: 0 <= i < |db.turns| && AskedBy(db, item, i)
  }

  ghost predicate AskedBy(db: S.Db, item: QuestionSets.Item, i: nat)
    requires i < |db.turns|
  {
    && db.turns[i].kind == S.Main && db.turns[i].root == item.position && db.turns[i].text == item.text
    && SessionInvariants.IsSubmitted(db.turns[i]) && SessionTheorems.AnswerCount(db.answers, i) == 1
    && (forall j :: 0 <= j < |db.turns| && db.turns[j].kind == S.Main && db.turns[j].root == item.position ==> j == i)
    && forall j :: 0 <= j < |db.turns| && db.turns[j].kind == S.FollowUp && db.turns[j].root == item.position ==>
         item.allowFollowUp && 1 <= db.turns[j].followUpIndex <= item.maxFollowUps
  }

  lemma FollowUpsAsAllowed(setup: S.Setup, sys: S.System, position: nat)
    requires SessionTheorems.Reachable(setup, sys) && 1 <= position <= |setup.questions|
    ensures var q := setup.questions[position - 1];
      forall j :: 0 <= j < |sys.db.turns| && sys.db.turns[j].kind == S.FollowUp && sys.db.turns[j].root == position ==>
        q.allowFollowUp && 1 <= sys.db.turns[j].followUpIndex <= q.maxFollowUps
  {
    SessionTheorems.ReachableInv(setup, sys);
    forall j | 0 <= j < |sys.db.turns| && sys.db.turns[j].kind == S.FollowUp && sys.db.turns[j].root == position
      ensures setup.questions[position - 1].allowFollowUp
      ensures 1 <= sys.db.turns[j].followUpIndex <= setup.questions[position - 1].maxFollowUps
    {
      assert SessionInvariants.TurnOk(setup.questions, sys.db.turns, j);
    }
  }

  /**
   * End to end: when an interview made from an approved set ends as fully answered, every item
   * that was approved, and so every item the set will ever have, was asked once and answered once.
   */
  lemma EveryApprovedItemWasAsked(staleMs: int, qs: QuestionSets.System, input: L.CreateInput, sys: S.System,
                                  item: QuestionSets.Item)
    requires QuestionSets.Reachable(staleMs, qs) && qs.qs.status == QuestionSets.Approved && item in qs.qs.items
    requires input.items == QuestionsOf(qs.qs)
    requires var setup := L.NewInterview(input).setup;
      && SessionTheorems.Reachable(setup, sys)
      && (sys.db.session.state == S.ReadyToFinish || sys.db.session.endReason == Some(S.AllQuestionsAnswered))
    ensures WasAsked(sys.db, item)
  {
    var setup := L.NewInterview(input).setup;
    var k := PlaceOf(staleMs, qs, item);
    assert setup.questions[k] == L.InterviewQuestion(QuestionsOf(qs.qs)[k]);
    SessionTheorems.ReadyMeansHandled(setup, sys, k + 1);
    var i :| 0 <= i < |sys.db.turns| && SessionTheorems.HandledBy(setup, sys.db, k + 1, i);
    FollowUpsAsAllowed(setup, sys, k + 1);
    assert AskedBy(sys.db, item, i);
  }

  /** Where an approved item comes in the order of its set. */
  lemma PlaceOf(staleMs: int, qs: QuestionSets.System, item: QuestionSets.Item) returns (k: nat)
    requires QuestionSets.Reachable(staleMs, qs) && qs.qs.status == QuestionSets.Approved && item in qs.qs.items
    ensures k < |qs.qs.items| && item.position == k + 1
    ensures QuestionsOf(qs.qs)[k] == S.Question(item.text, item.allowFollowUp, item.maxFollowUps)
  {
    var sorted := SortBy(qs.qs.items, QuestionSets.ByPosition);
    QuestionSets.ApprovedIsContiguous(staleMs, qs);
    assert item in multiset(sorted);
    k :| 0 <= k < |sorted| && sorted[k] == item;
  }
}
