/**
 * The AI run records shared by every protocol that calls a model outside a transaction
 * (nestjs-auth/src/modules/ai/services/ai-run.service.ts).
 */
module AiRuns {
  import opened Base

  datatype RunStatus = Processing | Succeeded | Failed | Superseded

  datatype AiRun = AiRun(status: RunStatus, completedAt: Option<Time>, errorCode: Option<string>)

  const MAX_ERROR_CODE := 100

  function Truncate(code: string): string {
    if |code| <= MAX_ERROR_CODE then code else code[..MAX_ERROR_CODE]
  }

  /** A run's only move: out of `Processing`, once. Anything else is a late overwrite and is ignored. */
  function Settle(runs: seq<AiRun>, id: nat, status: RunStatus, errorCode: Option<string>, now: Time): seq<AiRun> {
    if id < |runs| && runs[id].status == Processing
    then runs[id := AiRun(status, Some(now), errorCode)]
    else runs
  }

  function Start(runs: seq<AiRun>): seq<AiRun> {
    runs + [AiRun(Processing, None, None)]
  }

  function Succeed(runs: seq<AiRun>, id: nat, now: Time): seq<AiRun> {
    Settle(runs, id, Succeeded, None, now)
  }

  function Fail(runs: seq<AiRun>, id: nat, code: string, now: Time): seq<AiRun> {
    Settle(runs, id, Failed, Some(Truncate(code)), now)
  }

  function Supersede(runs: seq<AiRun>, id: nat, now: Time): seq<AiRun> {
    Settle(runs, id, Superseded, if id < |runs| then runs[id].errorCode else None, now)
  }

  /** What recovery does with the active runs it found: each of them fails, the others stay. */
  function FailActive(runs: seq<AiRun>, code: string, now: Time): (r: seq<AiRun>)
    ensures |r| == |runs|
  {
    seq(|runs|, i requires 0 <= i < |runs| =>
      if runs[i].status == Processing then AiRun(Failed, Some(now), Some(Truncate(code))) else runs[i])
  }

  /** `completedAt` is set exactly when the run has left `Processing`. */
  ghost predicate WellFormed(runs: seq<AiRun>) {
    forall i :: 0 <= i < |runs| ==> (runs[i].completedAt.Some? <==> runs[i].status != Processing)
  }

  /** Only the newest run can still be waited for. */
  ghost predicate OnlyLastActive(runs: seq<AiRun>) {
    forall i :: 0 <= i < |runs| - 1 ==> runs[i].status != Processing
  }

  ghost predicate NoneActive(runs: seq<AiRun>) {
    forall i :: 0 <= i < |runs| ==> runs[i].status != Processing
  }

  /**
   * How a table of runs may change over time: rows are only added, and a row that has left
   * `Processing` is never written again.
   */
  ghost predicate Evolves(before: seq<AiRun>, after: seq<AiRun>) {
    && |before| <= |after|
    && forall i :: 0 <= i < |before| && before[i].status != Processing ==> after[i] == before[i]
  }

  /* ---------- what each way of settling leaves, row by row ---------- */

  /** Run `id` has come to this end if it was still PROCESSING; nothing else has changed. */
  ghost predicate RunEnded(before: seq<AiRun>, after: seq<AiRun>, id: nat, end: AiRun) {
    && |after| == |before|
    && forall i :: 0 <= i < |before| ==> after[i] == if i == id && before[i].status == Processing then end else before[i]
  }

  ghost predicate RunSucceeded(before: seq<AiRun>, after: seq<AiRun>, id: nat, now: Time) {
    RunEnded(before, after, id, AiRun(Succeeded, Some(now), None))
  }

  /** Codes are kept up to 100 characters. */
  ghost predicate RunFailed(before: seq<AiRun>, after: seq<AiRun>, id: nat, code: string, now: Time) {
    RunEnded(before, after, id, AiRun(Failed, Some(now), Some(if |code| > 100 then code[..100] else code)))
  }

  /** A run that was overtaken keeps whatever code it has. */
  ghost predicate RunOvertaken(before: seq<AiRun>, after: seq<AiRun>, id: nat, now: Time) {
    && |after| == |before|
    && forall i :: 0 <= i < |before| ==>
         after[i] == if i == id && before[i].status == Processing then before[i].(status := Superseded, completedAt := Some(now))
                     else before[i]
  }

  ghost predicate ActiveRunsFailed(before: seq<AiRun>, after: seq<AiRun>, code: string, now: Time) {
    && |after| == |before|
    && forall i :: 0 <= i < |before| ==>
         after[i] == if before[i].status == Processing then AiRun(Failed, Some(now), Some(code)) else before[i]
  }

  /** The service's three guarded writes, whatever state the run is in. */
  lemma SettlingOutcome(runs: seq<AiRun>, id: nat, code: string, now: Time)
    ensures RunSucceeded(runs, Succeed(runs, id, now), id, now)
    ensures RunFailed(runs, Fail(runs, id, code, now), id, code, now)
    ensures RunOvertaken(runs, Supersede(runs, id, now), id, now)
  {
  }

  /** Settling a run adds no active one, and leaves none if it was the newest. */
  lemma SettleKeeps(runs: seq<AiRun>, id: nat, status: RunStatus, code: Option<string>, now: Time)
    requires WellFormed(runs) && OnlyLastActive(runs) && status != Processing
    ensures var r := Settle(runs, id, status, code, now);
      && |r| == |runs| && WellFormed(r) && OnlyLastActive(r) && Evolves(runs, r)
      && (NoneActive(runs) || id == |runs| - 1 ==> NoneActive(r))
  {
  }

  lemma EvolvesTransitive(a: seq<AiRun>, b: seq<AiRun>, c: seq<AiRun>)
    requires Evolves(a, b) && Evolves(b, c)
    ensures Evolves(a, c)
  {
    forall i | 0 <= i < |a| && a[i].status != Processing
      ensures c[i] == a[i]
    {
      assert b[i] == a[i];
    }
  }
}

/** The service itself: guarded updates of run rows, in place. */
module AiRunService {
  import opened Base
  import opened AiRuns

  class AiRunTable {
    var rows: seq<AiRun>

    constructor ()
      ensures rows == []
    {
      rows := [];
    }

    method Start() returns (id: nat)
      modifies this
      ensures id == old(|rows|) && rows == AiRuns.Start(old(rows))
    {
      id := |rows|;
      rows := rows + [AiRun(Processing, None, None)];
    }

    /** Returns the run as it then stands, `None` when there is no such run. */
    method Succeed(id: nat, now: Time) returns (run: Option<AiRun>)
      modifies this
      ensures rows == AiRuns.Succeed(old(rows), id, now)
      ensures run == if id < |rows| then Some(rows[id]) else None
    {
      if id >= |rows| {
        return None;
      }
      if rows[id].status != Processing {
        return Some(rows[id]);
      }
      rows := rows[id := rows[id].(status := Succeeded, completedAt := Some(now), errorCode := None)];
      return Some(rows[id]);
    }

    method Fail(id: nat, code: string, now: Time) returns (run: Option<AiRun>)
      modifies this
      ensures rows == AiRuns.Fail(old(rows), id, code, now)
      ensures run == if id < |rows| then Some(rows[id]) else None
    {
      if id >= |rows| {
        return None;
      }
      if rows[id].status != Processing {
        return Some(rows[id]);
      }
      rows := rows[id := rows[id].(status := Failed, completedAt := Some(now), errorCode := Some(Truncate(code)))];
      return Some(rows[id]);
    }

    method Supersede(id: nat, now: Time) returns (run: Option<AiRun>)
      modifies this
      ensures rows == AiRuns.Supersede(old(rows), id, now)
      ensures run == if id < |rows| then Some(rows[id]) else None
    {
      if id >= |rows| {
        return None;
      }
      if rows[id].status == Processing {
        rows := rows[id := rows[id].(status := Superseded, completedAt := Some(now))];
        return Some(rows[id]);
      }
      return Some(rows[id]);
    }

    /** The ids of the runs still in `Processing`, as recovery looks them up. */
    method ActiveRuns() returns (ids: seq<nat>)
      ensures forall k :: 0 <= k < |ids| ==> ids[k] < |rows| && rows[ids[k]].status == Processing
      ensures forall i :: 0 <= i < |rows| && rows[i].status == Processing ==> i in ids
      ensures forall j, k :: 0 <= j < k < |ids| ==> ids[j] < ids[k]
    {
      ids := [];
      for i := 0 to |rows|
        invariant forall k :: 0 <= k < |ids| ==> ids[k] < i && rows[ids[k]].status == Processing
        invariant forall j :: 0 <= j < i && rows[j].status == Processing ==> j in ids
        invariant forall j, k :: 0 <= j < k < |ids| ==> ids[j] < ids[k]
      {
        if rows[i].status == Processing {
          ids := ids + [i];
        }
      }
    }
  }
}
