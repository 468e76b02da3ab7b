/** The question set services on the row in place, with their validation loops. */
module QuestionSetRuntime {
  import opened Base
  import opened Sorting
  import opened QuestionSets
  import R = AiRuns
  import opened AiRunService

  class QuestionSetRow {
    const origin: Origin
    const runs: AiRunTable
    var status: Status
    var version: nat
    var generationVersion: nat
    var aiRun: Option<nat>
    var items: seq<Item>
    var updatedAt: Time

    /** The row as a value, with its runs. */
    ghost function Row(): QuestionSet
      reads this, runs
    {
      QuestionSet(origin, status, version, generationVersion, aiRun, items, updatedAt, runs.rows)
    }

    /** A set created for generation, with its first run. */
    constructor ForGeneration(origin: Origin, now: Time)
      ensures fresh(runs) && Row() == CreateByAi(origin, now).qs
    {
      var table := new AiRunTable();
      var run := table.Start();
      this.origin, this.runs := origin, table;
      status, version, generationVersion, aiRun, items, updatedAt := Generating, 1, 1, Some(run), [], now;
    }

    constructor Manual(origin: Origin, now: Time)
      ensures fresh(runs) && Row() == CreateManually(origin, now)
    {
      var table := new AiRunTable();
      this.origin, this.runs := origin, table;
      status, version, generationVersion, aiRun, items, updatedAt := Draft, 1, 1, None, [], now;
    }

    /** A new draft; the items are read in order of position and copied one by one. */
    constructor ClonedFrom(source: QuestionSetRow, now: Time)
      ensures fresh(runs) && Row() == Clone(source.Row(), now)
    {
      var sourceItems := SortBy(source.items, ByPosition);
      var newItems := [];
      for i := 0 to |sourceItems|
        invariant newItems == sourceItems[..i]
      {
        var item := sourceItems[i];
        newItems := newItems + [Item(item.position, item.text, item.criterion, item.allowFollowUp, item.maxFollowUps)];
      }
      var table := new AiRunTable();
      this.origin, this.runs := source.origin, table;
      status, version, generationVersion := Draft, 1, source.generationVersion;
      aiRun, items, updatedAt := None, newItems, now;
    }

    method RetryGeneration(expectedGeneration: nat, source: Source, staleMs: int, now: Time)
      returns (r: Result<Claim, SetError>)
      modifies this, runs
      ensures match QuestionSets.RetryGeneration(old(Row()), expectedGeneration, source, staleMs, now)
        case Ok(c) => r == Ok(c.claim) && Row() == c.qs
        case Err(e) => r == Err(e) && Row() == old(Row())
    {
      if origin.manual { return Err(NotRetryable); }
      if status == Approved { return Err(AlreadyApproved); }
      if generationVersion != expectedGeneration { return Err(VersionConflict); }
      var isStaleGenerating := status == Generating && now - updatedAt > staleMs;
      if status != Failed && !isStaleGenerating { return Err(NotRetryable); }
      if !source.shortlisted { return Err(StateConflict); }
      if CheckIfStale(origin, source) { return Err(StaleSource); }
      if aiRun.Some? {
        var _ := runs.Supersede(aiRun.value, now);
      }
      generationVersion := generationVersion + 1;
      status := Generating;
      var newRun := runs.Start();
      aiRun := Some(newRun);
      updatedAt := now;
      return Ok(Claim(newRun, generationVersion));
    }

    method HasDuplicatePosition(rows: seq<Item>) returns (found: bool)
      ensures found <==> exists i, j :: 0 <= i < j < |rows| && rows[i].position == rows[j].position
    {
      found := false;
      for i := 0 to |rows|
        invariant found <==> exists k, j :: 0 <= k < i && k < j < |rows| && rows[k].position == rows[j].position
      {
        for j := i + 1 to |rows|
          invariant found <==>
            || (exists k, l :: 0 <= k < i && k < l < |rows| && rows[k].position == rows[l].position)
            || (exists l :: i < l < j && rows[i].position == rows[l].position)
        {
          if rows[i].position == rows[j].position { found := true; }
        }
      }
    }

    /** Writes that are thrown away again are undone from what was saved. */
    method ApplyGenerated(claim: Claim, generated: seq<Item>, source: Source, now: Time) returns (r: Result<(), SetError>)
      modifies this, runs
      ensures match QuestionSets.ApplyGenerated(old(Row()), claim, generated, source, now)
        case Ok(qs) => r == Ok(()) && Row() == qs
        case Err(e) => r == Err(e) && Row() == old(Row())
    {
      var savedRuns, savedStatus, savedItems := runs.rows, status, items;
      if status != Generating || generationVersion != claim.generation || aiRun != Some(claim.run) {
        var _ := runs.Supersede(claim.run, now);
        runs.rows := savedRuns;
        return Err(Superseded);
      }
      if CheckIfStale(origin, source) {
        var _ := runs.Fail(claim.run, "QUESTION_GENERATION_STALE", now);
        status := Failed;
        runs.rows, status := savedRuns, savedStatus;
        return Err(StaleSource);
      }
      items := [];
      var duplicate := HasDuplicatePosition(generated);
      if duplicate {
        items := savedItems;
        return Err(DuplicatePosition);
      }
      items := generated;
      status := Draft;
      version := version + 1;
      updatedAt := now;
      var _ := runs.Succeed(claim.run, now);
      return Ok(());
    }

    method MarkGenerationFailed(claim: Claim, code: string, now: Time)
      modifies this, runs
      ensures Row() == QuestionSets.MarkGenerationFailed(old(Row()), claim, code, now)
    {
      if status == Generating && generationVersion == claim.generation && aiRun == Some(claim.run) {
        status := Failed;
        updatedAt := now;
      }
      var _ := runs.Fail(claim.run, code, now);
    }

    /** The loop over sorted positions, as both callers have it. */
    static method CheckPositions(positions: seq<int>) returns (ok: bool)
      ensures ok <==> Contiguous(positions)
    {
      for i := 0 to |positions|
        invariant forall k :: 0 <= k < i ==> positions[k] == k + 1
      {
        if positions[i] != i + 1 { return false; }
      }
      return true;
    }

    static method CheckCriteria(inputs: seq<ItemInput>, criteria: set<string>) returns (ok: bool)
      ensures ok <==> CriteriaKnown(inputs, criteria)
    {
      for i := 0 to |inputs|
        invariant forall k :: 0 <= k < i && inputs[k].criterion.Some? ==> inputs[k].criterion.value in criteria
      {
        if inputs[i].criterion.Some? && inputs[i].criterion.value !in criteria { return false; }
      }
      return true;
    }

    method UpdateItems(expectedVersion: nat, inputs: seq<ItemInput>, now: Time) returns (r: Result<(), SetError>)
      modifies this
      ensures match QuestionSets.UpdateItems(old(Row()), expectedVersion, inputs, now)
        case Ok(qs) => r == Ok(()) && Row() == qs
        case Err(e) => r == Err(e) && Row() == old(Row())
      ensures r.Ok? ==> multiset(InputPositions(inputs)) == multiset(OneTo(|inputs|))
    {
      if status == Approved { return Err(AlreadyApproved); }
      if status != Draft { return Err(NotEditable); }
      if version != expectedVersion { return Err(VersionConflict); }
      if |inputs| < 1 || |inputs| > MAX_ITEMS { return Err(InvalidItems); }
      var sortedItems := SortBy(inputs, ByInputPosition);
      var positionsOk := CheckPositions(InputPositions(sortedItems));
      if !positionsOk { return Err(InvalidItems); }
      var criteriaOk := CheckCriteria(inputs, origin.jobSnapshot.criteria);
      if !criteriaOk { return Err(CriterionNotFound); }
      SortAndCheckIsPermutation(inputs);
      var newItems := [];
      for i := 0 to |sortedItems|
        invariant |newItems| == i && forall k :: 0 <= k < i ==> newItems[k] == NewItem(sortedItems[k])
      {
        var item := sortedItems[i];
        var allowFollowUp := if item.allowFollowUp.Some? then item.allowFollowUp.value else true;
        var maxFollowUps := if !allowFollowUp then 0 else if item.maxFollowUps.Some? then item.maxFollowUps.value else 1;
        newItems := newItems + [Item(item.position, item.text, item.criterion, allowFollowUp, maxFollowUps)];
      }
      items := newItems;
      version := version + 1;
      updatedAt := now;
      return Ok(());
    }

    method Approve(expectedVersion: nat, source: Source, now: Time) returns (r: Result<(), SetError>)
      modifies this
      ensures match QuestionSets.Approve(old(Row()), expectedVersion, source, now)
        case Ok(qs) => r == Ok(()) && Row() == qs
        case Err(e) => r == Err(e) && Row() == old(Row())
    {
      if status == Approved { return Err(AlreadyApproved); }
      if status != Draft { return Err(NotEditable); }
      if version != expectedVersion { return Err(VersionConflict); }
      if !source.shortlisted { return Err(StateConflict); }
      if CheckIfStale(origin, source) { return Err(StaleSource); }
      var ordered := SortBy(items, ByPosition);
      if |ordered| == 0 { return Err(Empty); }
      if |ordered| > MAX_ITEMS { return Err(InvalidItems); }
      var positionsOk := CheckPositions(Positions(ordered));
      if !positionsOk { return Err(InvalidItems); }
      status := Approved;
      version := version + 1;
      updatedAt := now;
      return Ok(());
    }
  }
}
