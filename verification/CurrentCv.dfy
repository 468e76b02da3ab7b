/** Which of an application's CVs is its current one; a CV is known by its place in the table. */
module CurrentCv {
  import opened Base

  /** The newest CV that is not deleted. */
  function NewestActive(deleted: seq<bool>): Option<nat> {
    if deleted == [] then None
    else if !deleted[|deleted| - 1] then Some(|deleted| - 1)
    else NewestActive(deleted[..|deleted| - 1])
  }

  lemma {:induction false} NewestBelow(deleted: seq<bool>)
    ensures NewestActive(deleted).Some? ==> NewestActive(deleted).value < |deleted|
  {
    if deleted != [] {
      NewestBelow(deleted[..|deleted| - 1]);
    }
  }

  lemma {:induction false} NewestSpec(deleted: seq<bool>, k: nat)
    requires k < |deleted|
    ensures NewestActive(deleted) == Some(k) <==> !deleted[k] && forall j :: k < j < |deleted| ==> deleted[j]
    decreases |deleted|
  {
    var n := |deleted|;
    if deleted[n - 1] && k < n - 1 {
      NewestSpec(deleted[..n - 1], k);
      assert forall j :: k < j < n - 1 ==> deleted[..n - 1][j] == deleted[j];
    } else if deleted[n - 1] {
      NewestBelow(deleted[..n - 1]);
    }
  }

  /** Deleting another CV leaves the current one current. */
  lemma {:induction false} NewestAfterDelete(deleted: seq<bool>, i: nat)
    requires i < |deleted| && NewestActive(deleted) != Some(i)
    ensures NewestActive(deleted[i := true]) == NewestActive(deleted)
    decreases |deleted|
  {
    var n := |deleted|;
    if i == n - 1 {
      assert deleted[i := true] == deleted;
    } else if deleted[n - 1] {
      assert deleted[i := true][..n - 1] == deleted[..n - 1][i := true];
      NewestAfterDelete(deleted[..n - 1], i);
    }
  }

  /* ---------- numbers ---------- */

  /**
   * The highest number among the rows a query over one application's CVs sees, 0 without any. Whether
   * it sees deleted rows depends on how the query is built.
   */
  function HighestSeen(numbers: seq<nat>, deleted: seq<bool>, seesDeleted: bool): (r: nat)
    requires |numbers| == |deleted|
    ensures forall k :: 0 <= k < |numbers| && (seesDeleted || !deleted[k]) ==> numbers[k] <= r
    ensures r == 0 || exists k :: 0 <= k < |numbers| && (seesDeleted || !deleted[k]) && numbers[k] == r
  {
    if numbers == [] then 0
    else
      var n := |numbers| - 1;
      var rest := HighestSeen(numbers[..n], deleted[..n], seesDeleted);
      if (seesDeleted || !deleted[n]) && rest < numbers[n] then numbers[n] else rest
  }

  /** Numbers given out as 1, 2, ..., n. */
  function Places(n: nat): (r: seq<nat>)
    ensures |r| == n
  {
    seq(n, i => i + 1)
  }

  /** While numbers are places, the next one is free exactly when the newest row is seen; it is then the next place. */
  lemma NumberFreeIff(deleted: seq<bool>, seesDeleted: bool)
    ensures var n, numbers := |deleted|, Places(|deleted|);
      var next := HighestSeen(numbers, deleted, seesDeleted) + 1;
      && (next !in numbers <==> seesDeleted || n == 0 || !deleted[n - 1])
      && (next !in numbers ==> next == n + 1)
  {
    var n, numbers := |deleted|, Places(|deleted|);
    var highest := HighestSeen(numbers, deleted, seesDeleted);
    if highest > 0 {
      var k :| 0 <= k < n && (seesDeleted || !deleted[k]) && numbers[k] == highest;
      assert highest <= n;
    }
    if n > 0 {
      if seesDeleted || !deleted[n - 1] {
        assert numbers[n - 1] == n <= highest;
      } else {
        assert highest < n && numbers[highest] == highest + 1;
      }
    }
  }
}
