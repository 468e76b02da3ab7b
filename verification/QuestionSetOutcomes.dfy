/**
 * What each event on a question set stores, written out, and what an edit comes to in the interview
 * made from the set.
 */
module QuestionSetOutcomes {
  import opened Base
  import opened Sorting
  import opened QuestionSets
  import R = AiRuns
  import S = SessionModel
  import L = LifecycleModel
  import QuestionPipeline
  import SessionTheorems
  import SessionInvariants

  /** The set was made from what the application's rows say now. */
  predicate IsFresh(o: Origin, source: Source) {
    && source.currentCv == Some(o.cv)
    && source.approvedProfile == Some(o.cvProfileVersion)
    && source.jobVersion == Some(o.jobVersion)
  }

  /* ---------- creating ---------- */

  /** The three ways to begin: waiting for a first run, empty, or as a copy that belongs to no run. */
  lemma CreationOutcome(origin: Origin, source: QuestionSet, now: Time)
    ensures var c := CreateByAi(origin, now);
      && c.qs == QuestionSet(origin, Generating, 1, 1, Some(0), [], now, [R.AiRun(R.Processing, None, None)])
      && c.claim == Claim(0, 1)
    ensures CreateManually(origin, now) == QuestionSet(origin, Draft, 1, 1, None, [], now, [])
    ensures var qs := Clone(source, now);
      && qs.(items := source.items) == QuestionSet(source.origin, Draft, 1, source.generationVersion, None, source.items, now, [])
      && multiset(qs.items) == multiset(source.items)
      && forall i, j :: 0 <= i < j < |qs.items| ==> qs.items[i].position <= qs.items[j].position
  {
    SortBySpec(source.items, ByPosition);
  }

  /* ---------- editing ---------- */

  /** Positions 1 to n, each once. */
  ghost predicate NumberedThrough(positions: seq<int>) {
    multiset(positions) == multiset(seq(|positions|, i => i + 1))
  }

  /** What makes an edit acceptable. */
  ghost predicate IsEditable(qs: QuestionSet, expectedVersion: nat, inputs: seq<ItemInput>) {
    && qs.status == Draft && qs.version == expectedVersion
    && 1 <= |inputs| <= 12
    && NumberedThrough(InputPositions(inputs))
    && forall i :: 0 <= i < |inputs| && inputs[i].criterion.Some? ==> inputs[i].criterion.value in qs.origin.jobSnapshot.criteria
  }

  /** Follow-ups are allowed unless refused; there is one unless the input says otherwise, and none when refused. */
  ghost predicate Stores(item: Item, input: ItemInput) {
    && item.position == input.position && item.text == input.text && item.criterion == input.criterion
    && (item.allowFollowUp <==> input.allowFollowUp != Some(false))
    && item.maxFollowUps ==
         if input.allowFollowUp == Some(false) then 0
         else match input.maxFollowUps
           case Some(m) => m
           case None => 1
  }

  lemma EditableIffAccepted(qs: QuestionSet, expectedVersion: nat, inputs: seq<ItemInput>, now: Time)
    ensures UpdateItems(qs, expectedVersion, inputs, now).Ok? <==> IsEditable(qs, expectedVersion, inputs)
  {
    SortAndCheckIsPermutation(inputs);
    assert OneTo(|inputs|) == seq(|InputPositions(inputs)|, i => i + 1);
  }

  /** Sorting puts each input in the place its position names. */
  lemma InPlace(inputs: seq<ItemInput>, i: nat)
    requires NumberedThrough(InputPositions(inputs)) && i < |inputs|
    ensures var sorted := SortBy(inputs, ByInputPosition);
      |sorted| == |inputs| && 1 <= inputs[i].position <= |inputs| && sorted[inputs[i].position - 1] == inputs[i]
  {
    var sorted := SortBy(inputs, ByInputPosition);
    SortAndCheckIsPermutation(inputs);
    assert OneTo(|inputs|) == seq(|InputPositions(inputs)|, i => i + 1);
    SortBySpec(inputs, ByInputPosition);
    assert |multiset(sorted)| == |multiset(inputs)|;
    assert inputs[i] in multiset(sorted);
    var k :| 0 <= k < |sorted| && sorted[k] == inputs[i];
    assert InputPositions(sorted)[k] == k + 1;
  }

  lemma ItemsInPlace(qs: QuestionSet, expectedVersion: nat, inputs: seq<ItemInput>, now: Time)
    requires IsEditable(qs, expectedVersion, inputs)
    ensures UpdateItems(qs, expectedVersion, inputs, now).Ok?
    ensures var items := UpdateItems(qs, expectedVersion, inputs, now).value.items;
      && |items| == |inputs|
      && forall i :: 0 <= i < |inputs| ==>
           1 <= inputs[i].position <= |inputs| && Stores(items[inputs[i].position - 1], inputs[i])
  {
    EditableIffAccepted(qs, expectedVersion, inputs, now);
    InPlace(inputs, 0);
    forall i | 0 <= i < |inputs|
      ensures 1 <= inputs[i].position <= |inputs|
           && SortBy(inputs, ByInputPosition)[inputs[i].position - 1] == inputs[i]
    {
      InPlace(inputs, i);
    }
  }

  /** An accepted edit leaves one item for each input, in its place; a refused one leaves everything. */
  lemma EditOutcome(staleMs: int, s: System, e: Event)
    requires e.EditEv?
    ensures var after := Step(staleMs, s, e);
      if IsEditable(s.qs, e.expectedVersion, e.inputs) then
        && after.claims == s.claims
        && after.qs.(items := s.qs.items) == s.qs.(version := s.qs.version + 1, updatedAt := e.now)
        && |after.qs.items| == |e.inputs|
        && forall i :: 0 <= i < |e.inputs| ==>
             1 <= e.inputs[i].position <= |e.inputs| && Stores(after.qs.items[e.inputs[i].position - 1], e.inputs[i])
      else after == s
  {
    EditableIffAccepted(s.qs, e.expectedVersion, e.inputs, e.now);
    if IsEditable(s.qs, e.expectedVersion, e.inputs) {
      ItemsInPlace(s.qs, e.expectedVersion, e.inputs, e.now);
    }
  }

  /** Each refusal of an edit names what was wrong. */
  lemma EditRefusals(qs: QuestionSet, expectedVersion: nat, inputs: seq<ItemInput>, now: Time)
    ensures var r := UpdateItems(qs, expectedVersion, inputs, now);
      var timely := qs.status == Draft && qs.version == expectedVersion;
      var numbered := 1 <= |inputs| <= 12 && NumberedThrough(InputPositions(inputs));
      && (r == Err(AlreadyApproved) <==> qs.status == Approved)
      && (r == Err(NotEditable) <==> qs.status == Generating || qs.status == Failed)
      && (r == Err(VersionConflict) <==> qs.status == Draft && qs.version != expectedVersion)
      && (r == Err(InvalidItems) <==> timely && !numbered)
      && (r == Err(CriterionNotFound) <==> timely && numbered && !IsEditable(qs, expectedVersion, inputs))
      && (r.Ok? <==> IsEditable(qs, expectedVersion, inputs))
  {
    SortAndCheckIsPermutation(inputs);
    assert OneTo(|inputs|) == seq(|InputPositions(inputs)|, i => i + 1);
  }

  /* ---------- approving ---------- */

  ghost predicate IsApprovable(qs: QuestionSet, expectedVersion: nat, source: Source) {
    && qs.status == Draft && qs.version == expectedVersion
    && source.shortlisted && IsFresh(qs.origin, source)
    && 1 <= |qs.items| <= 12 && NumberedThrough(Positions(qs.items))
  }

  lemma ApprovalOutcome(staleMs: int, s: System, e: Event)
    requires e.ApproveEv?
    ensures Step(staleMs, s, e) ==
      if IsApprovable(s.qs, e.expectedVersion, e.source)
      then s.(qs := s.qs.(status := Approved, version := s.qs.version + 1, updatedAt := e.now)) else s
  {
    SortedItemsArePermutation(s.qs.items);
    SortBySpec(s.qs.items, ByPosition);
    assert OneTo(|s.qs.items|) == seq(|Positions(s.qs.items)|, i => i + 1);
  }

  lemma ApprovalRefusals(qs: QuestionSet, expectedVersion: nat, source: Source, now: Time)
    ensures var r := Approve(qs, expectedVersion, source, now);
      var timely := qs.status == Draft && qs.version == expectedVersion;
      var current := timely && source.shortlisted && IsFresh(qs.origin, source);
      && (r == Err(AlreadyApproved) <==> qs.status == Approved)
      && (r == Err(NotEditable) <==> qs.status == Generating || qs.status == Failed)
      && (r == Err(VersionConflict) <==> qs.status == Draft && qs.version != expectedVersion)
      && (r == Err(StateConflict) <==> timely && !source.shortlisted)
      && (r == Err(StaleSource) <==> timely && source.shortlisted && !IsFresh(qs.origin, source))
      && (r == Err(Empty) <==> current && qs.items == [])
      && (r == Err(InvalidItems) <==> current && qs.items != [] && !IsApprovable(qs, expectedVersion, source))
      && (r.Ok? <==> IsApprovable(qs, expectedVersion, source))
  {
    SortedItemsArePermutation(qs.items);
    assert OneTo(|qs.items|) == seq(|Positions(qs.items)|, i => i + 1);
  }

  /* ---------- generating ---------- */

  /** A generation has failed, or its run has been out for longer than `staleMs`. */
  predicate IsRetryable(qs: QuestionSet, expectedGeneration: nat, source: Source, staleMs: int, now: Time) {
    && !qs.origin.manual
    && (qs.status == Failed || (qs.status == Generating && qs.updatedAt + staleMs < now))
    && qs.generationVersion == expectedGeneration
    && source.shortlisted && IsFresh(qs.origin, source)
  }

  /** A retry takes the next generation with a new run; the run before it is overtaken. */
  lemma RetryOutcome(staleMs: int, s: System, e: Event)
    requires Reachable(staleMs, s) && e.RetryEv?
    ensures var after := Step(staleMs, s, e); var n := |s.qs.runs|;
      if IsRetryable(s.qs, e.expectedGeneration, e.source, staleMs, e.now) then
        && after.qs.(runs := s.qs.runs)
           == s.qs.(status := Generating, generationVersion := s.qs.generationVersion + 1, aiRun := Some(n), updatedAt := e.now)
        && after.claims == s.claims + [Claim(n, s.qs.generationVersion + 1)]
        && |after.qs.runs| == n + 1 && after.qs.runs[n] == R.AiRun(R.Processing, None, None)
        && n > 0 && R.RunOvertaken(s.qs.runs, after.qs.runs[..n], n - 1, e.now)
      else after == s
  {
    ReachableInv(staleMs, s);
  }

  lemma RetryRefusals(qs: QuestionSet, expectedGeneration: nat, source: Source, staleMs: int, now: Time)
    ensures var r := RetryGeneration(qs, expectedGeneration, source, staleMs, now);
      var due := qs.status == Failed || (qs.status == Generating && qs.updatedAt + staleMs < now);
      var known := !qs.origin.manual && qs.status != Approved;
      && (r == Err(AlreadyApproved) <==> !qs.origin.manual && qs.status == Approved)
      && (r == Err(VersionConflict) <==> known && qs.generationVersion != expectedGeneration)
      && (r == Err(NotRetryable) <==> qs.origin.manual || (known && qs.generationVersion == expectedGeneration && !due))
      && (r == Err(StateConflict) <==> known && qs.generationVersion == expectedGeneration && due && !source.shortlisted)
      && (r == Err(StaleSource) <==> known && qs.generationVersion == expectedGeneration && due && source.shortlisted
                                     && !IsFresh(qs.origin, source))
      && (r.Ok? <==> IsRetryable(qs, expectedGeneration, source, staleMs, now))
  {
  }

  /** The result belongs to the generation the set is waiting for. */
  predicate IsAwaited(s: System, k: nat) {
    s.qs.status == Generating && k + 1 == |s.claims|
  }

  ghost predicate IsUsable(s: System, e: Event)
    requires e.OutputEv?
  {
    && IsAwaited(s, e.claim) && e.output.Generated? && IsFresh(s.qs.origin, e.source)
    && forall i, j :: 0 <= i < j < |e.output.items| ==> e.output.items[i].position != e.output.items[j].position
  }

  /** An awaited, fresh output becomes the items of a draft, just as it came; an awaited failure is marked; nothing else counts. */
  lemma OutputOutcome(staleMs: int, s: System, e: Event)
    requires Reachable(staleMs, s) && e.OutputEv?
    ensures var after := Step(staleMs, s, e);
      && after.claims == s.claims
      && (if IsUsable(s, e) then
            && after.qs.(runs := s.qs.runs)
               == s.qs.(status := Draft, items := e.output.items, version := s.qs.version + 1, updatedAt := e.now)
            && R.RunSucceeded(s.qs.runs, after.qs.runs, e.claim, e.now)
          else if IsAwaited(s, e.claim) && e.output.Broken? then
            && after.qs.(runs := s.qs.runs) == s.qs.(status := Failed, updatedAt := e.now)
            && R.RunFailed(s.qs.runs, after.qs.runs, e.claim, e.output.code, e.now)
          else after == s)
  {
    ReachableInv(staleMs, s);
    if e.output.Broken? && e.claim < |s.claims| && !IsAwaited(s, e.claim) {
      OldRunStays(s, e.claim, e.output.code, e.now);
    }
  }

  /* ---------- from the edit to the interview ---------- */

  /** The event gives the set its items: an accepted edit or a usable output. */
  ghost predicate WritesItems(s: System, e: Event) {
    || (e.EditEv? && IsEditable(s.qs, e.expectedVersion, e.inputs))
    || (e.OutputEv? && IsUsable(s, e))
  }

  ghost predicate WrittenIn(staleMs: int, s: System, events: seq<Event>)
    decreases |events|
  {
    events != [] && (WritesItems(s, events[0]) || WrittenIn(staleMs, Step(staleMs, s, events[0]), events[1..]))
  }

  lemma ReachableNext(staleMs: int, s: System, e: Event)
    requires Reachable(staleMs, s)
    ensures Reachable(staleMs, Step(staleMs, s, e))
  {
    var start, events :| Created(start) && s == Run(staleMs, start, events);
    RunAppend(staleMs, start, events, e);
  }

  lemma {:induction false} RunAppend(staleMs: int, s: System, events: seq<Event>, e: Event)
    ensures Run(staleMs, s, events + [e]) == Step(staleMs, Run(staleMs, s, events), e)
    decreases |events|
  {
    if events == [] {
      assert events + [e] == [e];
      assert Run(staleMs, s, [e]) == Run(staleMs, Step(staleMs, s, e), []);
    } else {
      assert (events + [e])[1..] == events[1..] + [e];
      RunAppend(staleMs, Step(staleMs, s, events[0]), events[1..], e);
    }
  }

  /** Through any run the items stay as they were last written. */
  lemma {:induction false} ItemsStay(staleMs: int, s: System, events: seq<Event>)
    requires Reachable(staleMs, s) && !WrittenIn(staleMs, s, events)
    ensures Reachable(staleMs, Run(staleMs, s, events)) && Run(staleMs, s, events).qs.items == s.qs.items
    decreases |events|
  {
    if events != [] {
      var e := events[0];
      match e {
        case EditEv(_, _, _) => EditOutcome(staleMs, s, e);
        case ApproveEv(_, _, _) => ApprovalOutcome(staleMs, s, e);
        case RetryEv(_, _, _) => RetryOutcome(staleMs, s, e);
        case OutputEv(_, _, _, _) => OutputOutcome(staleMs, s, e);
      }
      ReachableNext(staleMs, s, e);
      ItemsStay(staleMs, Step(staleMs, s, e), events[1..]);
    }
  }

  /** A question of an edit was put to the candidate in its place, word for word, and answered once. */
  ghost predicate WasPut(db: S.Db, input: ItemInput) {
    exists item: Item :: Stores(item, input) && QuestionPipeline.WasAsked(db, item)
  }

  /**
   * From the editor to the candidate: when a set is approved with its last edit and the interview made
   * from it ends as fully answered, every question of that edit was put to the candidate word for word,
   * was answered once, and was followed up only as the edit allowed.
   */
  lemma EditedQuestionsWereAsked(staleMs: int, s: System, edit: Event, events: seq<Event>, input: L.CreateInput,
                                 sys: S.System, k: nat)
    requires Reachable(staleMs, s) && edit.EditEv? && IsEditable(s.qs, edit.expectedVersion, edit.inputs)
    requires !WrittenIn(staleMs, Step(staleMs, s, edit), events) && k < |edit.inputs|
    requires var qs := Run(staleMs, Step(staleMs, s, edit), events).qs;
      qs.status == Approved && input.items == QuestionPipeline.QuestionsOf(qs)
    requires var setup := L.NewInterview(input).setup;
      && SessionTheorems.Reachable(setup, sys)
      && (sys.db.session.state == S.ReadyToFinish || sys.db.session.endReason == Some(S.AllQuestionsAnswered))
    ensures WasPut(sys.db, edit.inputs[k])
  {
    var edited := Step(staleMs, s, edit);
    EditOutcome(staleMs, s, edit);
    ReachableNext(staleMs, s, edit);
    ItemsStay(staleMs, edited, events);
    var item := edited.qs.items[edit.inputs[k].position - 1];
    QuestionPipeline.EveryApprovedItemWasAsked(staleMs, Run(staleMs, edited, events), input, sys, item);
    assert Stores(item, edit.inputs[k]);
  }
}
