/**
 * A simple sequential interviewer, the reference the session runtime is measured against. It
 * asks the main questions in order and, after an answer, may ask follow-ups under the present
 * one while the question's budget and the interview's budget last. It knows nothing of
 * versions, deadlines, runs or messages.
 */
module Interviewer {
  import opened Base

  datatype Phase = Asking | Deciding | Done | Stopped

  /** `counts[k]` is the number of follow-ups asked under main question `k + 1`. */
  datatype Plan = Plan(counts: seq<nat>, phase: Phase)

  /** One entry of the transcript: index 0 is the main question, index j its j-th follow-up. */
  datatype Slot = Slot(root: nat, index: nat)

  ghost predicate Begins(p: Plan) {
    p == Plan([0], Asking)
  }

  /** What the interviewer may do next; `limits[k]` bounds `counts[k]`, `total` bounds their sum. */
  ghost predicate Next(limits: seq<nat>, total: nat, p: Plan, p': Plan) {
    && p.counts != []
    && var n := |p.counts|;
       || (p.phase == Asking && p' == Plan(p.counts, Deciding))
       || ((p.phase == Asking || p.phase == Deciding) && n < |limits| && p' == Plan(p.counts + [0], Asking))
       || ((p.phase == Asking || p.phase == Deciding) && n == |limits| && p' == Plan(p.counts, Done))
       || (&& p.phase == Deciding && n <= |limits|
           && p.counts[n - 1] < limits[n - 1] && Sum(p.counts) < total
           && p' == Plan(p.counts[n - 1 := p.counts[n - 1] + 1], Asking))
       || (p.phase != Stopped && p' == Plan(p.counts, Stopped))
  }

  /** A whole interview: it begins with the first main question and every plan follows from the one before. */
  ghost predicate IsInterview(limits: seq<nat>, total: nat, plans: seq<Plan>) {
    plans != [] && Begins(plans[0]) && Connected(limits, total, plans)
  }

  ghost predicate Connected(limits: seq<nat>, total: nat, plans: seq<Plan>) {
    forall i :: 0 < i < |plans| ==> Next(limits, total, plans[i - 1], plans[i])
  }

  /** Adjacent equal plans taken together. */
  function WithoutRepeats(plans: seq<Plan>): seq<Plan> {
    if |plans| <= 1 then plans
    else if plans[0] == plans[1] then WithoutRepeats(plans[1..])
    else [plans[0]] + WithoutRepeats(plans[1..])
  }

  /** Plans that each stay or move on are, without the repeats, a connected sequence with the same ends. */
  lemma {:induction false} WithoutRepeatsConnected(limits: seq<nat>, total: nat, plans: seq<Plan>)
    requires plans != []
    requires forall i :: 0 < i < |plans| ==> plans[i] == plans[i - 1] || Next(limits, total, plans[i - 1], plans[i])
    ensures var d := WithoutRepeats(plans);
      d != [] && d[0] == plans[0] && d[|d| - 1] == plans[|plans| - 1] && Connected(limits, total, d)
  {
    if |plans| > 1 {
      var rest := plans[1..];
      forall i | 0 < i < |rest|
        ensures rest[i] == rest[i - 1] || Next(limits, total, rest[i - 1], rest[i])
      {
        assert rest[i] == plans[i + 1] && rest[i - 1] == plans[i + 1 - 1];
      }
      WithoutRepeatsConnected(limits, total, rest);
      var d := WithoutRepeats(rest);
      if plans[0] != plans[1] {
        assert Next(limits, total, plans[1 - 1], plans[1]);
        forall i | 0 < i < |d| + 1
          ensures Next(limits, total, ([plans[0]] + d)[i - 1], ([plans[0]] + d)[i])
        {
          if i > 1 { assert Next(limits, total, d[i - 1 - 1], d[i - 1]); }
        }
      }
    }
  }

  /** What every plan the interviewer can reach satisfies. */
  ghost predicate WithinBudget(limits: seq<nat>, total: nat, p: Plan) {
    && 1 <= |p.counts| <= |limits|
    && (forall k :: 0 <= k < |p.counts| ==> p.counts[k] <= limits[k])
    && Sum(p.counts) <= total
    && (p.phase == Done ==> |p.counts| == |limits|)
  }

  /** The whole transcript: main(1), its follow-ups 1..counts[0], main(2), and so on. */
  function Transcript(counts: seq<nat>): seq<Slot> {
    if counts == [] then []
    else Transcript(counts[..|counts| - 1]) + Branch(|counts|, counts[|counts| - 1])
  }

  function Branch(root: nat, followUps: nat): seq<Slot> {
    seq(followUps + 1, j requires 0 <= j => Slot(root, j))
  }

  lemma SumReplaceLast(counts: seq<nat>, c: nat)
    requires counts != []
    ensures Sum(counts[|counts| - 1 := c]) == Sum(counts) - counts[|counts| - 1] + c
  {
    assert counts[|counts| - 1 := c][..|counts| - 1] == counts[..|counts| - 1];
  }

  /** The interviewer never exceeds a budget and only finishes when every main question was asked. */
  lemma NextKeepsBudget(limits: seq<nat>, total: nat, p: Plan, p': Plan)
    requires WithinBudget(limits, total, p) && Next(limits, total, p, p')
    ensures WithinBudget(limits, total, p')
  {
    var n := |p.counts|;
    SumAppend(p.counts, 0);
    SumReplaceLast(p.counts, p.counts[n - 1] + 1);
  }

  lemma TranscriptNextMain(counts: seq<nat>)
    ensures Transcript(counts + [0]) == Transcript(counts) + [Slot(|counts| + 1, 0)]
  {
    assert (counts + [0])[..|counts|] == counts;
    assert Branch(|counts| + 1, 0) == [Slot(|counts| + 1, 0)];
  }

  lemma TranscriptFollowUp(counts: seq<nat>)
    requires counts != []
    ensures var n := |counts|;
      Transcript(counts[n - 1 := counts[n - 1] + 1]) == Transcript(counts) + [Slot(n, counts[n - 1] + 1)]
  {
    var n := |counts|;
    var more := counts[n - 1 := counts[n - 1] + 1];
    assert more[..n - 1] == counts[..n - 1];
    assert Branch(n, counts[n - 1] + 1) == Branch(n, counts[n - 1]) + [Slot(n, counts[n - 1] + 1)];
  }

  /** A transcript holds one entry for each main question and one for each follow-up. */
  lemma {:induction false} TranscriptLength(counts: seq<nat>)
    ensures |Transcript(counts)| == |counts| + Sum(counts)
  {
    if counts != [] {
      TranscriptLength(counts[..|counts| - 1]);
    }
  }

  /** Every root and index of a transcript is one the counts allow. */
  lemma {:induction false} TranscriptEntries(counts: seq<nat>, i: nat)
    requires i < |Transcript(counts)|
    ensures var s := Transcript(counts)[i]; 1 <= s.root <= |counts| && s.index <= counts[s.root - 1]
  {
    var front := counts[..|counts| - 1];
    if i < |Transcript(front)| {
      TranscriptEntries(front, i);
    }
  }

  /** No (root, index) pair occurs twice, which is what the turn table's unique constraint asks. */
  lemma {:induction false} TranscriptDistinct(counts: seq<nat>, i: nat, j: nat)
    requires i < j < |Transcript(counts)|
    ensures Transcript(counts)[i] != Transcript(counts)[j]
  {
    var front := counts[..|counts| - 1];
    if j < |Transcript(front)| {
      TranscriptDistinct(front, i, j);
    } else if i < |Transcript(front)| {
      TranscriptEntries(front, i);
    }
  }
}
