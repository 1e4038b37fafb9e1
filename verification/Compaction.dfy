/** Dropping rejected rows from a ragged batch (prepare_inputs of llm_base_proposer.py). */
module Compaction {
  import opened BatchRuns

  datatype BatchMetadata = BatchMetadata(
    queryStartLoc: seq<int>,
    seqLens: seq<int>,
    numActualTokens: int,
    maxQueryLen: int,
    maxSeqLen: int,
    slotMapping: seq<int>)

  /** Rejected tokens of a request: drafts plus the bonus token, less what was sampled; none without drafts. */
  function Rejected(drafts: nat, sampled: seq<int>): int {
    if drafts > 0 then drafts + 1 - |sampled| else 0
  }

  /**
    Request i keeps exactly its first 'kept' rows: its new offsets are that far apart, and the indices
    between them are its old rows from the first on.
   */
  predicate KeepsFirst(oldStarts: seq<int>, newStarts: seq<int>, indices: seq<int>, i: nat, kept: int) {
    && i + 1 < |oldStarts| && i + 1 < |newStarts|
    && 0 <= newStarts[i] <= newStarts[i + 1] <= |indices| && newStarts[i + 1] - newStarts[i] == kept
    && forall k :: newStarts[i] <= k < newStarts[i + 1] ==> indices[k] == oldStarts[i] + (k - newStarts[i])
  }

  function RejectedCounts(drafts: seq<nat>, sampled: seq<seq<int>>): (r: seq<int>)
    requires |drafts| == |sampled|
    ensures |r| == |drafts| && forall i :: 0 <= i < |r| ==> r[i] == Rejected(drafts[i], sampled[i])
  {
    seq(|drafts|, i requires 0 <= i < |drafts| => Rejected(drafts[i], sampled[i]))
  }

  /** No request rejects a negative number of tokens or more than it has. */
  predicate Rejectable(lengths: seq<nat>, rejected: seq<int>) {
    |lengths| == |rejected| && forall i :: 0 <= i < |lengths| ==> 0 <= rejected[i] <= lengths[i]
  }

  function Kept(lengths: seq<nat>, rejected: seq<int>): (k: seq<nat>)
    requires Rejectable(lengths, rejected)
    ensures |k| == |lengths| && forall i :: 0 <= i < |k| ==> k[i] == lengths[i] - rejected[i]
  {
    seq(|lengths|, i requires 0 <= i < |lengths| => lengths[i] - rejected[i])
  }

  /** The kept rows: the first lengths[i] - rejected[i] rows of every request, in order. */
  function TokenIndices(lengths: seq<nat>, rejected: seq<int>): seq<int>
    requires Rejectable(lengths, rejected)
  {
    Runs(Starts(lengths), Kept(lengths, rejected), |lengths|)
  }

  function Max(xs: seq<int>): (m: int)
    requires |xs| > 0
    ensures m in xs && forall i :: 0 <= i < |xs| ==> xs[i] <= m
  {
    if |xs| == 1 then xs[0]
    else
      var rest := Max(xs[1..]);
      assert forall i :: 1 <= i < |xs| ==> xs[i] == xs[1..][i - 1];
      if xs[0] > rest then xs[0] else rest
  }

  // ---- What compaction preserves ----

  /** Row j of request i after compaction is row j of the same request before it. */
  lemma CompactionKeepsOwner(lengths: seq<nat>, rejected: seq<int>, i: nat, j: nat)
    requires Rejectable(lengths, rejected) && i < |lengths| && j < lengths[i] - rejected[i]
    ensures var k := Sum(Kept(lengths, rejected), i) + j;
            && k < |TokenIndices(lengths, rejected)|
            && TokenIndices(lengths, rejected)[k] == Sum(lengths, i) + j
            && Sum(lengths, i) <= TokenIndices(lengths, rejected)[k] < Sum(lengths, i + 1) - rejected[i]
  {
    RunsAt(Starts(lengths), Kept(lengths, rejected), |lengths|, i, j);
  }

  /** A row survives exactly when it is not in the rejected suffix of its request. */
  lemma CompactionKeepsExactly(lengths: seq<nat>, rejected: seq<int>, i: nat, x: int)
    requires Rejectable(lengths, rejected) && i < |lengths| && Sum(lengths, i) <= x < Sum(lengths, i + 1)
    ensures x in TokenIndices(lengths, rejected) <==> x < Sum(lengths, i + 1) - rejected[i]
  {
    var t, kept := TokenIndices(lengths, rejected), Kept(lengths, rejected);
    if x < Sum(lengths, i + 1) - rejected[i] {
      CompactionKeepsOwner(lengths, rejected, i, x - Sum(lengths, i));
    }
    if x in t {
      var k :| 0 <= k < |t| && t[k] == x;
      var a, b := Locate(kept, |kept|, k);
      CompactionKeepsOwner(lengths, rejected, a, b);
      if a < i {
        SumMonotone(lengths, a + 1, i);
      } else if a > i {
        SumMonotone(lengths, i + 1, a);
      }
    }
  }

  /** The kept rows stay in their original order. */
  lemma CompactionKeepsOrder(lengths: seq<nat>, rejected: seq<int>, k: nat, l: nat)
    requires Rejectable(lengths, rejected) && k < l < |TokenIndices(lengths, rejected)|
    ensures TokenIndices(lengths, rejected)[k] < TokenIndices(lengths, rejected)[l]
  {
    var kept := Kept(lengths, rejected);
    var a, b := Locate(kept, |kept|, k);
    var c, d := Locate(kept, |kept|, l);
    CompactionKeepsOwner(lengths, rejected, a, b);
    CompactionKeepsOwner(lengths, rejected, c, d);
    if a > c {
      SumMonotone(kept, c + 1, a);
    } else if a < c {
      SumMonotone(lengths, a + 1, c);
    }
  }

  // ---- prepare_inputs ----

  class Proposer {
    const tokenArange: array<int>

    constructor (capacity: nat)
      ensures fresh(tokenArange) && tokenArange.Length == capacity
      ensures forall i :: 0 <= i < capacity ==> tokenArange[i] == i
    {
      tokenArange := new int[capacity](i => i);
    }

    method PrepareInputs(queryStartLoc: seq<int>, ghost lengths: seq<nat>, seqLensUpper: seq<int>,
                         slotMapping: seq<int>, sampled: seq<seq<int>>, drafts: seq<nat>)
      returns (m: BatchMetadata, indices: seq<int>)
      requires queryStartLoc == [0] + Cumsum(lengths)
      requires |lengths| == |drafts| == |sampled| == |seqLensUpper| > 0
      requires forall i :: 0 <= i < |drafts| && drafts[i] > 0 ==>
                 |sampled[i]| <= drafts[i] + 1 <= lengths[i] + |sampled[i]|
      requires Sum(lengths, |lengths|) <= |slotMapping| && Sum(lengths, |lengths|) <= tokenArange.Length
      requires forall i :: 0 <= i < tokenArange.Length ==> tokenArange[i] == i
      ensures forall i {:trigger drafts[i]} :: 0 <= i < |drafts| ==>
                && KeepsFirst(queryStartLoc, m.queryStartLoc, indices, i,
                              if drafts[i] > 0 then lengths[i] - drafts[i] - 1 + |sampled[i]| else lengths[i])
                && i < |m.seqLens|
                && m.seqLens[i] == seqLensUpper[i] - (if drafts[i] > 0 then drafts[i] + 1 - |sampled[i]| else 0)
      ensures |m.queryStartLoc| == |drafts| + 1 && m.queryStartLoc[0] == 0 && m.queryStartLoc[|drafts|] == |indices|
      ensures |m.slotMapping| == |indices| && |m.seqLens| == |drafts|
      ensures forall k :: 0 <= k < |indices| ==>
                0 <= indices[k] < |slotMapping| && m.slotMapping[k] == slotMapping[indices[k]]
      ensures var rejected := RejectedCounts(drafts, sampled);
              && Rejectable(lengths, rejected)
              && indices == TokenIndices(lengths, rejected)
              && m.queryStartLoc == [0] + Cumsum(Kept(lengths, rejected))
              && m.numActualTokens == |indices|
              && m.seqLens == seq(|lengths|, i requires 0 <= i < |lengths| => seqLensUpper[i] - rejected[i])
              && (forall k :: 0 <= k < |indices| ==> 0 <= indices[k] < |slotMapping|)
              && m.slotMapping == Gather(slotMapping, indices)
              && (forall i :: 0 <= i < |lengths| ==> Kept(lengths, rejected)[i] <= lengths[i] <= m.maxQueryLen)
              && m.maxQueryLen in lengths
              && m.maxSeqLen in m.seqLens && forall i :: 0 <= i < |m.seqLens| ==> m.seqLens[i] <= m.maxSeqLen
    {
      hide Runs, Repeat, Sum, KeepsFirst, TokenIndices, Cumsum, Gather, Kept, Rejectable;
      var rejected := RejectedCounts(drafts, sampled);
      FewEnoughRejected(lengths, drafts, sampled);
      var seqLens: seq<int> := seq(|rejected|, i requires 0 <= i < |rejected| => seqLensUpper[i] - rejected[i]);
      var queryLens := QueryLengths(queryStartLoc, lengths);
      var cu := ComputeCumsum(Kept(queryLens, rejected));
      indices := KeptIndices(queryStartLoc, lengths, rejected, cu);
      AllRequestsKeepFirst(queryStartLoc, lengths, rejected);
      var wide: seq<int> := queryLens;
      m := BatchMetadata([0] + cu, seqLens, |indices|, Max(wide), Max(seqLens), Gather(slotMapping, indices));
    }

    /** The flat indices of the kept rows, from the repeated old and new offsets. */
    method KeptIndices(queryStartLoc: seq<int>, ghost lengths: seq<nat>, rejected: seq<int>, cu: seq<int>)
      returns (indices: seq<int>)
      requires queryStartLoc == [0] + Cumsum(lengths) && |lengths| > 0 && Rejectable(lengths, rejected)
      requires cu == Cumsum(Kept(lengths, rejected))
      requires Sum(lengths, |lengths|) <= tokenArange.Length
      requires forall i :: 0 <= i < tokenArange.Length ==> tokenArange[i] == i
      ensures indices == TokenIndices(lengths, rejected)
      ensures |indices| == cu[|cu| - 1]
      ensures forall k :: 0 <= k < |indices| ==> 0 <= indices[k] < Sum(lengths, |lengths|)
    {
      hide Runs, Repeat, Sum;
      var queryLens := QueryLengths(queryStartLoc, lengths);
      var kept := Kept(queryLens, rejected);
      var total := cu[|cu| - 1];
      var newStarts := ([0] + cu)[..|cu|];
      NewStarts(kept, newStarts);
      var newStartsExpanded := Repeat(newStarts, kept, |kept|);
      KeptFits(lengths, rejected, |lengths|);
      var oldStarts := queryStartLoc[..|queryStartLoc| - 1];
      NewStarts(lengths, oldStarts);
      var oldStartsExpanded := Repeat(oldStarts, kept, |kept|);
      indices := [];
      for p := 0 to total
        invariant indices == TokenIndices(lengths, rejected)[..p]
      {
        ArangeMinusStarts(kept, p);
        RestartPlusBases(Starts(lengths), kept, p);
        indices := indices + [tokenArange[p] - newStartsExpanded[p] + oldStartsExpanded[p]];
      }
      forall k | 0 <= k < |indices|
        ensures 0 <= indices[k] < Sum(lengths, |lengths|)
      {
        IndexInRange(lengths, rejected, k);
      }
    }
  }

  lemma FewEnoughRejected(lengths: seq<nat>, drafts: seq<nat>, sampled: seq<seq<int>>)
    requires |lengths| == |drafts| == |sampled|
    requires forall i :: 0 <= i < |drafts| && drafts[i] > 0 ==>
               |sampled[i]| <= drafts[i] + 1 <= lengths[i] + |sampled[i]|
    ensures Rejectable(lengths, RejectedCounts(drafts, sampled))
  {
  }

  lemma AllRequestsKeepFirst(queryStartLoc: seq<int>, lengths: seq<nat>, rejected: seq<int>)
    requires queryStartLoc == [0] + Cumsum(lengths) && Rejectable(lengths, rejected)
    ensures var newStarts := [0] + Cumsum(Kept(lengths, rejected));
            forall i :: 0 <= i < |lengths| ==>
              KeepsFirst(queryStartLoc, newStarts, TokenIndices(lengths, rejected), i, lengths[i] - rejected[i])
  {
    hide KeepsFirst, TokenIndices;
    forall i | 0 <= i < |lengths|
      ensures KeepsFirst(queryStartLoc, [0] + Cumsum(Kept(lengths, rejected)), TokenIndices(lengths, rejected), i,
                         lengths[i] - rejected[i])
    {
      RequestKeepsFirst(queryStartLoc, lengths, rejected, i);
    }
  }

  lemma RequestKeepsFirst(queryStartLoc: seq<int>, lengths: seq<nat>, rejected: seq<int>, i: nat)
    requires queryStartLoc == [0] + Cumsum(lengths) && Rejectable(lengths, rejected) && i < |lengths|
    ensures KeepsFirst(queryStartLoc, [0] + Cumsum(Kept(lengths, rejected)), TokenIndices(lengths, rejected), i,
                       lengths[i] - rejected[i])
  {
    var kept := Kept(lengths, rejected);
    SumNext(kept, i);
    SumMonotone(kept, i + 1, |kept|);
    hide TokenIndices, Kept;
    assert |TokenIndices(lengths, rejected)| == Sum(kept, |kept|) by {
      IndicesTotal(lengths, rejected);
    }
    forall k | Sum(kept, i) <= k < Sum(kept, i + 1)
      ensures TokenIndices(lengths, rejected)[k] == Sum(lengths, i) + (k - Sum(kept, i))
    {
      CompactionKeepsOwner(lengths, rejected, i, k - Sum(kept, i));
    }
    StartAt(lengths, i);
    StartAt(kept, i);
    StartAt(kept, i + 1);
  }

  lemma IndicesTotal(lengths: seq<nat>, rejected: seq<int>)
    requires Rejectable(lengths, rejected)
    ensures |TokenIndices(lengths, rejected)| == Sum(Kept(lengths, rejected), |lengths|)
  {
  }

  lemma StartAt(counts: seq<nat>, i: nat)
    requires i <= |counts|
    ensures ([0] + Cumsum(counts))[i] == Sum(counts, i)
  {
  }

  /** query_start_loc[1:] - query_start_loc[:-1]. */
  method QueryLengths(queryStartLoc: seq<int>, ghost lengths: seq<nat>) returns (q: seq<nat>)
    requires queryStartLoc == [0] + Cumsum(lengths)
    ensures q == lengths
  {
    q := [];
    for i := 0 to |queryStartLoc| - 1
      invariant q == lengths[..i]
    {
      assert Sum(lengths, i + 1) == Sum(lengths, i) + lengths[i];
      assert queryStartLoc[i] == Sum(lengths, i);
      q := q + [queryStartLoc[i + 1] - queryStartLoc[i]];
    }
  }

  lemma NewStarts(kept: seq<nat>, starts: seq<int>)
    requires |kept| > 0 && starts == ([0] + Cumsum(kept))[..|kept|]
    ensures starts == Starts(kept)
  {
    assert Sum(kept, 0) == 0;
  }

  lemma {:induction false} KeptFits(lengths: seq<nat>, rejected: seq<int>, n: nat)
    requires Rejectable(lengths, rejected) && n <= |lengths|
    ensures Sum(Kept(lengths, rejected), n) <= Sum(lengths, n)
  {
    if n > 0 {
      KeptFits(lengths, rejected, n - 1);
    }
  }

  lemma IndexInRange(lengths: seq<nat>, rejected: seq<int>, k: nat)
    requires Rejectable(lengths, rejected) && k < |TokenIndices(lengths, rejected)|
    ensures 0 <= TokenIndices(lengths, rejected)[k] < Sum(lengths, |lengths|)
  {
    var kept := Kept(lengths, rejected);
    var i, j := Locate(kept, |kept|, k);
    CompactionKeepsOwner(lengths, rejected, i, j);
    SumMonotone(lengths, i + 1, |lengths|);
  }
}
