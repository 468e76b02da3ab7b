/** Small shared vocabulary: optional values, results of a transaction, time. */
module Base {
  datatype Option<+T> = None | Some(value: T)

  /** `Err` stands for an exception: the transaction is rolled back and nothing is stored. */
  datatype Result<+T, +E> = Ok(value: T) | Err(error: E)

  /** Milliseconds. Every `now` is a parameter of the step that reads the clock. */
  type Time = int

  /** The sum of a list of budgets or counts. */
  function Sum(xs: seq<nat>): nat {
    if xs == [] then 0 else Sum(xs[..|xs| - 1]) + xs[|xs| - 1]
  }

  lemma SumAppend(xs: seq<nat>, x: nat)
    ensures Sum(xs + [x]) == Sum(xs) + x
  {
    assert (xs + [x])[..|xs|] == xs;
  }

  /** A longer prefix never sums to less. */
  lemma {:induction false} SumPrefix(xs: seq<nat>, k: nat)
    requires k <= |xs|
    ensures Sum(xs[..k]) <= Sum(xs)
    decreases |xs|
  {
    if k == |xs| {
      assert xs[..k] == xs;
    } else {
      var front := xs[..|xs| - 1];
      SumPrefix(front, k);
      assert front[..k] == xs[..k];
    }
  }
}
