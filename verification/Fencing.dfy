/**
 * The claim / external call / fenced commit protocol, once for all its uses. A row shows a
 * token and whether a claim at that token is still open; a result carries the token it was
 * claimed under and may only be committed while the row still shows that token, open.
 */
module Fencing {
  datatype Fence = Fence(token: nat, open: bool)

  /** Tokens never go back, and a claim that was closed is not opened again under the same token. */
  ghost predicate Moves(a: Fence, b: Fence) {
    a.token < b.token || (a.token == b.token && (b.open ==> a.open))
  }

  ghost predicate IsTrace(trace: seq<Fence>) {
    forall i :: 0 <= i < |trace| - 1 ==> Moves(trace[i], trace[i + 1])
  }

  /** The guard of every commit, and what a commit does to the fence. */
  ghost predicate Commits(a: Fence, b: Fence, token: nat) {
    a == Fence(token, true) && b != Fence(token, true)
  }

  lemma {:induction false} MovesAlong(trace: seq<Fence>, i: nat, j: nat)
    requires IsTrace(trace) && i <= j < |trace|
    ensures Moves(trace[i], trace[j])
    decreases j - i
  {
    if i < j {
      MovesAlong(trace, i, j - 1);
      assert Moves(trace[j - 1], trace[j - 1 + 1]);
    }
  }

  /** Once a token's claim is resolved, no later moment shows it open again. */
  lemma NeverReopens(trace: seq<Fence>, token: nat, i: nat, j: nat)
    requires IsTrace(trace) && i + 1 <= j < |trace|
    requires Commits(trace[i], trace[i + 1], token)
    ensures trace[j] != Fence(token, true)
  {
    MovesAlong(trace, i, i + 1);
    MovesAlong(trace, i + 1, j);
  }

  /** Of all competitors that hold the same token, at most one ever commits. */
  lemma AtMostOneCommit(trace: seq<Fence>, token: nat, i: nat, j: nat)
    requires IsTrace(trace) && i < j && j + 1 < |trace|
    requires Commits(trace[i], trace[i + 1], token)
    ensures !Commits(trace[j], trace[j + 1], token)
  {
    NeverReopens(trace, token, i, j);
  }
}
