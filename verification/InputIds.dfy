/**
  Filling the input token buffer of a step from the previous step's samples and drafts
  (_compute_prev_positions and _prepare_input_ids of gpu_model_runner.py).
 */
module InputIds {
  import opened Wrappers
  import opened BatchRuns

  /**
    A step: prev[i] is the row of request i in the previous step, or -1; drafts[i] is its number of scheduled
    draft tokens.
   */
  datatype Batch = Batch(counts: seq<nat>, prev: seq<int>, drafts: seq<nat>)

  predicate Common(b: Batch, i: nat)
    requires i < |b.prev|
  {
    b.prev[i] >= 0
  }

  /** Shapes agree, and a request continued from the previous step schedules its sampled token and its drafts. */
  predicate GoodBatch(b: Batch) {
    && |b.counts| == |b.prev| == |b.drafts|
    && forall i :: 0 <= i < |b.counts| ==> GoodRequest(b, i)
  }

  predicate GoodRequest(b: Batch, i: nat)
    requires |b.counts| == |b.prev| == |b.drafts| && i < |b.counts|
  {
    b.counts[i] >= 1 && (Common(b, i) ==> b.drafts[i] + 1 <= b.counts[i])
  }

  /** One entry per continued request. */
  function CommonCounts(b: Batch): (c: seq<nat>)
    ensures |c| == |b.prev|
    ensures forall i :: 0 <= i < |c| ==> c[i] == if Common(b, i) then 1 else 0
  {
    seq(|b.prev|, i requires 0 <= i < |b.prev| => if Common(b, i) then 1 else 0)
  }

  /** The draft tokens of continued requests. */
  function DraftCounts(b: Batch): (c: seq<nat>)
    requires |b.prev| == |b.drafts|
    ensures |c| == |b.prev|
    ensures forall i :: 0 <= i < |c| ==> c[i] == if Common(b, i) then b.drafts[i] else 0
  {
    seq(|b.prev|, i requires 0 <= i < |b.prev| => if Common(b, i) then b.drafts[i] else 0)
  }

  /** Row of the sampled token of request i in the flat batch: just before its drafts. */
  function SampleRow(b: Batch, i: nat): int
    requires |b.counts| == |b.drafts| && i < |b.counts|
  {
    Sum(b.counts, i + 1) - 1 - b.drafts[i]
  }

  function SampleRows(b: Batch): (r: seq<int>)
    requires |b.counts| == |b.drafts|
    ensures |r| == |b.counts| && forall i :: 0 <= i < |r| ==> r[i] == SampleRow(b, i)
  {
    seq(|b.counts|, i requires 0 <= i < |b.counts| => SampleRow(b, i))
  }

  function DraftRows(b: Batch): (r: seq<int>)
    requires |b.counts| == |b.drafts|
    ensures |r| == |b.counts| && forall i :: 0 <= i < |r| ==> r[i] == SampleRow(b, i) + 1
  {
    seq(|b.counts|, i requires 0 <= i < |b.counts| => SampleRow(b, i) + 1)
  }

  function DraftSources(b: Batch, numSpec: nat): (r: seq<int>)
    ensures |r| == |b.prev| && forall i :: 0 <= i < |r| ==> r[i] == b.prev[i] * numSpec
  {
    seq(|b.prev|, i requires 0 <= i < |b.prev| => b.prev[i] * numSpec)
  }

  // ---- Scatter ----

  function Scatter(base: seq<int>, idx: seq<int>, values: seq<int>, n: nat): (r: seq<int>)
    requires n <= |idx| && n <= |values| && forall k :: 0 <= k < |idx| ==> 0 <= idx[k] < |base|
    ensures |r| == |base|
  {
    if n == 0 then base else Scatter(base, idx, values, n - 1)[idx[n - 1] := values[n - 1]]
  }

  lemma {:induction false} ScatterMiss(base: seq<int>, idx: seq<int>, values: seq<int>, n: nat, x: nat)
    requires n <= |idx| && n <= |values| && forall k :: 0 <= k < |idx| ==> 0 <= idx[k] < |base|
    requires x < |base| && forall k :: 0 <= k < n ==> idx[k] != x
    ensures Scatter(base, idx, values, n)[x] == base[x]
  {
    if n > 0 {
      ScatterMiss(base, idx, values, n - 1, x);
    }
  }

  lemma {:induction false} ScatterHit(base: seq<int>, idx: seq<int>, values: seq<int>, n: nat, p: nat)
    requires p < n <= |idx| && n <= |values| && forall k :: 0 <= k < |idx| ==> 0 <= idx[k] < |base|
    requires forall k :: p < k < n ==> idx[k] != idx[p]
    ensures Scatter(base, idx, values, n)[idx[p]] == values[p]
  {
    if p < n - 1 {
      ScatterHit(base, idx, values, n - 1, p);
    }
  }

  /** Run i lies inside the rows of request i. */
  predicate Inside(bases: seq<int>, runCounts: seq<nat>, counts: seq<nat>) {
    && |bases| == |runCounts| == |counts|
    && forall i :: 0 <= i < |counts| ==> InsideAt(bases, runCounts, counts, i)
  }

  predicate InsideAt(bases: seq<int>, runCounts: seq<nat>, counts: seq<nat>, i: nat)
    requires |bases| == |runCounts| == |counts| && i < |counts|
  {
    runCounts[i] > 0 ==> Sum(counts, i) <= bases[i] && bases[i] + runCounts[i] <= Sum(counts, i + 1)
  }

  /** A flat row of request i is hit by the runs exactly when it lies in run i, and then at one place. */
  lemma RunsHit(bases: seq<int>, runCounts: seq<nat>, counts: seq<nat>, i: nat, x: nat, k: nat)
    requires Inside(bases, runCounts, counts) && i < |counts| && Sum(counts, i) <= x < Sum(counts, i + 1)
    requires k < Sum(runCounts, |counts|) && Runs(bases, runCounts, |counts|)[k] == x
    ensures bases[i] <= x < bases[i] + runCounts[i] && k == Sum(runCounts, i) + x - bases[i]
  {
    var a, j := Locate(runCounts, |counts|, k);
    RunsAt(bases, runCounts, |counts|, a, j);
    assert InsideAt(bases, runCounts, counts, a);
    if a < i {
      SumMonotone(counts, a + 1, i);
    } else if a > i {
      SumMonotone(counts, i + 1, a);
    }
  }

  lemma RunsInRange(bases: seq<int>, runCounts: seq<nat>, counts: seq<nat>, k: nat)
    requires Inside(bases, runCounts, counts) && k < Sum(runCounts, |counts|)
    ensures 0 <= Runs(bases, runCounts, |counts|)[k] < Sum(counts, |counts|)
  {
    var a, j := Locate(runCounts, |counts|, k);
    RunsAt(bases, runCounts, |counts|, a, j);
    assert InsideAt(bases, runCounts, counts, a);
    SumMonotone(counts, a + 1, |counts|);
  }

  /** Scattering along the runs writes entry x - bases[i] of run i at row x and leaves every other row. */
  lemma ScatterRuns(base: seq<int>, bases: seq<int>, runCounts: seq<nat>, counts: seq<nat>, values: seq<int>, i: nat,
                    x: nat)
    requires Inside(bases, runCounts, counts) && Sum(counts, |counts|) <= |base|
    requires |values| == Sum(runCounts, |counts|)
    requires i < |counts| && Sum(counts, i) <= x < Sum(counts, i + 1) && x < |base|
    ensures forall k :: 0 <= k < |values| ==> 0 <= Runs(bases, runCounts, |counts|)[k] < |base|
    ensures var r := Scatter(base, Runs(bases, runCounts, |counts|), values, |values|)[x];
            if bases[i] <= x < bases[i] + runCounts[i] then
              Sum(runCounts, i) + x - bases[i] < |values| && r == values[Sum(runCounts, i) + x - bases[i]]
            else r == base[x]
  {
    var idx, n := Runs(bases, runCounts, |counts|), |values|;
    forall k | 0 <= k < n
      ensures 0 <= idx[k] < |base|
    {
      RunsInRange(bases, runCounts, counts, k);
    }
    if bases[i] <= x < bases[i] + runCounts[i] {
      var p := Sum(runCounts, i) + x - bases[i];
      RunsAt(bases, runCounts, |counts|, i, x - bases[i]);
      forall k | p < k < n
        ensures idx[k] != idx[p]
      {
        if idx[k] == x {
          RunsHit(bases, runCounts, counts, i, x, k);
        }
      }
      ScatterHit(base, idx, values, n, p);
    } else {
      forall k | 0 <= k < n
        ensures idx[k] != x
      {
        if idx[k] == x {
          RunsHit(bases, runCounts, counts, i, x, k);
        }
      }
      ScatterMiss(base, idx, values, n, x);
    }
  }

  /** Rows after the batch are not hit. */
  lemma ScatterOutside(base: seq<int>, bases: seq<int>, runCounts: seq<nat>, counts: seq<nat>, values: seq<int>, x: nat)
    requires Inside(bases, runCounts, counts) && Sum(counts, |counts|) <= x < |base|
    requires |values| == Sum(runCounts, |counts|)
    ensures forall k :: 0 <= k < |values| ==> 0 <= Runs(bases, runCounts, |counts|)[k] < |base|
    ensures Scatter(base, Runs(bases, runCounts, |counts|), values, |values|)[x] == base[x]
  {
    var idx := Runs(bases, runCounts, |counts|);
    forall k | 0 <= k < |values|
      ensures 0 <= idx[k] < Sum(counts, |counts|)
    {
      RunsInRange(bases, runCounts, counts, k);
    }
    ScatterMiss(base, idx, values, |values|, x);
  }

  // ---- When the copy of the CPU tokens is skipped ----

  /** The test that skips the copy: as many continued requests as there are tokens that are not drafts. */
  predicate SkipsCopy(b: Batch)
    requires |b.counts| == |b.prev| == |b.drafts|
  {
    Sum(CommonCounts(b), |b.counts|) >= Sum(b.counts, |b.counts|) - Sum(DraftCounts(b), |b.counts|)
  }

  /**
    Every request has at least its sampled token and drafts to fill, so the totals agree only if every request
    is full.
   */
  lemma {:induction false} Slack(b: Batch, n: nat)
    requires GoodBatch(b) && n <= |b.counts|
    ensures Sum(b.counts, n) >= Sum(CommonCounts(b), n) + Sum(DraftCounts(b), n)
    ensures Sum(b.counts, n) == Sum(CommonCounts(b), n) + Sum(DraftCounts(b), n) ==>
              forall i :: 0 <= i < n ==> FullyContinued(b, i)
  {
    if n > 0 {
      Slack(b, n - 1);
      assert GoodRequest(b, n - 1);
    }
  }

  /** All tokens of the request are its previous sample and its drafts. */
  predicate FullyContinued(b: Batch, i: nat)
    requires |b.counts| == |b.prev| == |b.drafts| && i < |b.counts|
  {
    Common(b, i) && b.counts[i] == b.drafts[i] + 1
  }

  /** Skipping the copy is sound: the sample rows and the draft rows then cover the batch, and they never overlap. */
  lemma SkippedCopyIsCovered(b: Batch, i: nat, x: nat)
    requires GoodBatch(b) && SkipsCopy(b) && i < |b.counts| && Sum(b.counts, i) <= x < Sum(b.counts, i + 1)
    ensures Common(b, i)
    ensures x == SampleRow(b, i) || SampleRow(b, i) < x <= SampleRow(b, i) + b.drafts[i]
  {
    Slack(b, |b.counts|);
    assert FullyContinued(b, i);
  }

  lemma {:induction false} FullTotals(b: Batch, n: nat)
    requires |b.counts| == |b.prev| == |b.drafts| && n <= |b.counts|
    requires forall i :: 0 <= i < n ==> FullyContinued(b, i)
    ensures Sum(b.counts, n) == Sum(CommonCounts(b), n) + Sum(DraftCounts(b), n)
  {
    if n > 0 {
      FullTotals(b, n - 1);
      assert FullyContinued(b, n - 1);
    }
  }

  /** The copy is skipped exactly when every request consists of its previous sample and its drafts. */
  lemma SkipsCopyIff(b: Batch)
    requires GoodBatch(b)
    ensures SkipsCopy(b) <==> forall i :: 0 <= i < |b.counts| ==> FullyContinued(b, i)
  {
    Slack(b, |b.counts|);
    if forall i :: 0 <= i < |b.counts| ==> FullyContinued(b, i) {
      FullTotals(b, |b.counts|);
    }
  }

  // ---- The single-slice fast path ----

  /** Largest last row of a continued request among the first n, or -1. */
  function MaxLastRow(b: Batch, n: nat): int
    requires |b.counts| == |b.prev| && n <= |b.counts|
  {
    if n == 0 then -1
    else
      var m := MaxLastRow(b, n - 1);
      if Common(b, n - 1) && Sum(b.counts, n) - 1 > m then Sum(b.counts, n) - 1 else m
  }

  predicate RowMatches(b: Batch, i: nat)
    requires |b.counts| == |b.prev| && i < |b.counts|
  {
    Common(b, i) ==> b.prev[i] == Sum(b.counts, i + 1) - 1
  }

  predicate FastPath(b: Batch)
    requires |b.counts| == |b.prev|
  {
    && (forall i :: 0 <= i < |b.counts| ==> RowMatches(b, i))
    && Sum(CommonCounts(b), |b.counts|) > 0
    && MaxLastRow(b, |b.counts|) == Sum(CommonCounts(b), |b.counts|) - 1
  }

  lemma {:induction false} MaxLastRowBounds(b: Batch, n: nat, i: nat)
    requires GoodBatch(b) && i < n <= |b.counts| && Common(b, i)
    ensures MaxLastRow(b, n) - (Sum(b.counts, i + 1) - 1) >= Sum(CommonCounts(b), n) - Sum(CommonCounts(b), i + 1)
    decreases n
  {
    assert GoodRequest(b, n - 1);
    if i < n - 1 {
      MaxLastRowBounds(b, n - 1, i);
      if Common(b, n - 1) {
        RowsBetween(b, i + 1, n - 1);
        MaxLastRowCeiling(b, n - 1);
      }
    }
  }

  lemma {:induction false} MaxLastRowCeiling(b: Batch, n: nat)
    requires GoodBatch(b) && n <= |b.counts|
    ensures MaxLastRow(b, n) <= Sum(b.counts, n) - 1
  {
    if n > 0 {
      MaxLastRowCeiling(b, n - 1);
    }
  }

  lemma {:induction false} RowsBetween(b: Batch, i: nat, n: nat)
    requires GoodBatch(b) && i <= n <= |b.counts|
    ensures Sum(b.counts, n) - Sum(b.counts, i) >= Sum(CommonCounts(b), n) - Sum(CommonCounts(b), i)
    decreases n
  {
    if i < n {
      RowsBetween(b, i, n - 1);
      assert GoodRequest(b, n - 1);
    }
  }

  /**
    The pigeonhole behind the fast path: when the last rows of the continued requests are strictly
    ascending, non-negative and at most their number less one, they are exactly 0, 1, 2, ... in
    order; so no continued request has drafts, and each keeps its row.
   */
  lemma FastPathShape(b: Batch, i: nat)
    requires GoodBatch(b) && FastPath(b) && i < |b.counts| && Common(b, i)
    ensures b.drafts[i] == 0
    ensures b.prev[i] == SampleRow(b, i) == Sum(CommonCounts(b), i)
  {
    MaxLastRowBounds(b, |b.counts|, i);
    RowsBetween(b, 0, i);
    assert GoodRequest(b, i) && RowMatches(b, i);
  }

  /** Under the fast path the leading rows are the sample rows of the continued requests, one each. */
  lemma {:induction false} FastRowOwner(b: Batch, n: nat, x: nat) returns (i: nat)
    requires GoodBatch(b) && FastPath(b) && n <= |b.counts| && x < Sum(CommonCounts(b), n)
    ensures i < n && Common(b, i) && SampleRow(b, i) == x && b.prev[i] == x
  {
    if x < Sum(CommonCounts(b), n - 1) {
      i := FastRowOwner(b, n - 1, x);
    } else {
      i := n - 1;
      FastPathShape(b, i);
    }
  }

  // ---- The buffers ----

  /** The token row x of request i should hold, given what the row held before the scatters. */
  function Want(b: Batch, sampled: seq<int>, draftTokens: Option<seq<int>>, numSpec: nat, i: nat, x: nat, base: int)
        : int
    requires GoodTokens(b, sampled, draftTokens, numSpec) && i < |b.counts| && x < Sum(b.counts, i + 1)
  {
    assert GoodSource(b, sampled, draftTokens, numSpec, i);
    if Common(b, i) && x == SampleRow(b, i) then sampled[b.prev[i]]
    else if Common(b, i) && SampleRow(b, i) < x && draftTokens.Some? then
      draftTokens.value[b.prev[i] * numSpec + x - SampleRow(b, i) - 1]
    else base
  }

  predicate GoodSource(b: Batch, sampled: seq<int>, draftTokens: Option<seq<int>>, numSpec: nat, i: nat)
    requires |b.prev| == |b.drafts| && i < |b.prev|
  {
    Common(b, i) ==>
      && b.prev[i] < |sampled|
      && (draftTokens.Some? ==>
           b.drafts[i] <= numSpec && 0 <= b.prev[i] * numSpec
               && b.prev[i] * numSpec + b.drafts[i] <= |draftTokens.value|)
  }

  /** Every continued request has a row in the previous step's samples and, when present, drafts. */
  predicate GoodTokens(b: Batch, sampled: seq<int>, draftTokens: Option<seq<int>>, numSpec: nat) {
    GoodBatch(b) && forall i :: 0 <= i < |b.counts| ==> GoodSource(b, sampled, draftTokens, numSpec, i)
  }

  lemma SampleRunsInside(b: Batch)
    requires GoodBatch(b)
    ensures Inside(SampleRows(b), CommonCounts(b), b.counts)
    ensures Inside(DraftRows(b), DraftCounts(b), b.counts)
  {
    forall i | 0 <= i < |b.counts|
      ensures InsideAt(SampleRows(b), CommonCounts(b), b.counts, i)
      ensures InsideAt(DraftRows(b), DraftCounts(b), b.counts, i)
    {
      assert GoodRequest(b, i);
    }
  }

  /** The previous-step rows that the scatters read exist. */
  lemma SourcesExist(b: Batch, sampled: seq<int>, draftTokens: Option<seq<int>>, numSpec: nat)
    requires GoodTokens(b, sampled, draftTokens, numSpec)
    ensures forall k :: 0 <= k < Sum(CommonCounts(b), |b.prev|) ==>
              0 <= Runs(b.prev, CommonCounts(b), |b.prev|)[k] < |sampled|
    ensures draftTokens.Some? ==>
              forall k :: 0 <= k < Sum(DraftCounts(b), |b.prev|) ==>
                0 <= Runs(DraftSources(b, numSpec), DraftCounts(b), |b.prev|)[k] < |draftTokens.value|
  {
    forall k | 0 <= k < Sum(CommonCounts(b), |b.prev|)
      ensures 0 <= Runs(b.prev, CommonCounts(b), |b.prev|)[k] < |sampled|
    {
      var i, j := Locate(CommonCounts(b), |b.prev|, k);
      RunsAt(b.prev, CommonCounts(b), |b.prev|, i, j);
      assert GoodSource(b, sampled, draftTokens, numSpec, i);
    }
    if draftTokens.Some? {
      forall k | 0 <= k < Sum(DraftCounts(b), |b.prev|)
        ensures 0 <= Runs(DraftSources(b, numSpec), DraftCounts(b), |b.prev|)[k] < |draftTokens.value|
      {
        var i, j := Locate(DraftCounts(b), |b.prev|, k);
        RunsAt(DraftSources(b, numSpec), DraftCounts(b), |b.prev|, i, j);
        assert GoodSource(b, sampled, draftTokens, numSpec, i);
      }
    }
  }

  /** The buffer after the sample scatter. */
  function SamplesScattered(b: Batch, base: seq<int>, sampled: seq<int>): (r: seq<int>)
    requires GoodBatch(b) && Sum(b.counts, |b.counts|) <= |base|
    requires forall k :: 0 <= k < Sum(CommonCounts(b), |b.prev|) ==>
               0 <= Runs(b.prev, CommonCounts(b), |b.prev|)[k] < |sampled|
    ensures |r| == |base|
  {
    var idx := Runs(SampleRows(b), CommonCounts(b), |b.counts|);
    SampleRunsInside(b);
    assert forall k :: 0 <= k < |idx| ==> 0 <= idx[k] < |base| by {
      forall k | 0 <= k < |idx|
        ensures 0 <= idx[k] < |base|
      {
        RunsInRange(SampleRows(b), CommonCounts(b), b.counts, k);
      }
    }
    Scatter(base, idx, Gather(sampled, Runs(b.prev, CommonCounts(b), |b.prev|)), |idx|)
  }

  /** The buffer after the draft scatter. */
  function DraftsScattered(b: Batch, base: seq<int>, draftTokens: seq<int>, numSpec: nat): (r: seq<int>)
    requires GoodBatch(b) && Sum(b.counts, |b.counts|) <= |base|
    requires forall k :: 0 <= k < Sum(DraftCounts(b), |b.prev|) ==>
               0 <= Runs(DraftSources(b, numSpec), DraftCounts(b), |b.prev|)[k] < |draftTokens|
    ensures |r| == |base|
  {
    var idx := Runs(DraftRows(b), DraftCounts(b), |b.counts|);
    SampleRunsInside(b);
    assert forall k :: 0 <= k < |idx| ==> 0 <= idx[k] < |base| by {
      forall k | 0 <= k < |idx|
        ensures 0 <= idx[k] < |base|
      {
        RunsInRange(DraftRows(b), DraftCounts(b), b.counts, k);
      }
    }
    Scatter(base, idx, Gather(draftTokens, Runs(DraftSources(b, numSpec), DraftCounts(b), |b.prev|)), |idx|)
  }

  /** The two scatters put the wanted token into every row. */
  lemma GeneralPath(b: Batch, base: seq<int>, sampled: seq<int>, draftTokens: Option<seq<int>>, numSpec: nat, i: nat,
                    x: nat)
    requires GoodTokens(b, sampled, draftTokens, numSpec) && Sum(b.counts, |b.counts|) <= |base|
    requires forall k :: 0 <= k < Sum(CommonCounts(b), |b.prev|) ==>
               0 <= Runs(b.prev, CommonCounts(b), |b.prev|)[k] < |sampled|
    requires draftTokens.Some? ==>
               forall k :: 0 <= k < Sum(DraftCounts(b), |b.prev|) ==>
                 0 <= Runs(DraftSources(b, numSpec), DraftCounts(b), |b.prev|)[k] < |draftTokens.value|
    requires i < |b.counts| && Sum(b.counts, i) <= x < Sum(b.counts, i + 1) && x < |base|
    ensures var after := SamplesScattered(b, base, sampled);
            (if draftTokens.Some? then DraftsScattered(b, after, draftTokens.value, numSpec) else after)[x]
            == Want(b, sampled, draftTokens, numSpec, i, x, base[x])
  {
    hide Runs, Scatter;
    SampleRunsInside(b);
    var c, e := CommonCounts(b), DraftCounts(b);
    var values := Gather(sampled, Runs(b.prev, c, |b.prev|));
    var after := SamplesScattered(b, base, sampled);
    assert GoodRequest(b, i) && GoodSource(b, sampled, draftTokens, numSpec, i);
    ScatterRuns(base, SampleRows(b), c, b.counts, values, i, x);
    if Common(b, i) {
      RunsAt(b.prev, c, |b.prev|, i, 0);
    }
    if draftTokens.Some? {
      var drafted := Gather(draftTokens.value, Runs(DraftSources(b, numSpec), e, |b.prev|));
      ScatterRuns(after, DraftRows(b), e, b.counts, drafted, i, x);
      if Common(b, i) && SampleRow(b, i) < x {
        RunsAt(DraftSources(b, numSpec), e, |b.prev|, i, x - SampleRow(b, i) - 1);
      }
    }
  }

  /** Without drafts of continued requests the draft scatter is empty. */
  lemma NoDraftsScattered(b: Batch, base: seq<int>, draftTokens: seq<int>, numSpec: nat)
    requires GoodBatch(b) && Sum(b.counts, |b.counts|) <= |base| && Sum(DraftCounts(b), |b.prev|) == 0
    ensures DraftsScattered(b, base, draftTokens, numSpec) == base
  {
  }

  /** The slice copy of the fast path gives every row the token that the general scatters would give it. */
  lemma FastCopyIsGeneral(b: Batch, base: seq<int>, after: seq<int>, sampled: seq<int>, draftTokens: Option<seq<int>>,
                          numSpec: nat, i: nat, x: nat)
    requires GoodTokens(b, sampled, draftTokens, numSpec) && FastPath(b)
    requires i < |b.counts| && Sum(b.counts, i) <= x < Sum(b.counts, i + 1) && x < |base| == |after|
    requires forall k :: 0 <= k < |base| ==>
               after[k] == if k < Sum(CommonCounts(b), |b.counts|) && k < |sampled| then sampled[k] else base[k]
    ensures after[x] == Want(b, sampled, draftTokens, numSpec, i, x, base[x])
  {
    assert GoodSource(b, sampled, draftTokens, numSpec, i) && GoodRequest(b, i);
    if x < Sum(CommonCounts(b), |b.counts|) {
      var j := FastRowOwner(b, |b.counts|, x);
      FastPathShape(b, j);
      assert GoodSource(b, sampled, draftTokens, numSpec, j);
      if j < i {
        SumMonotone(b.counts, j + 1, i);
      } else if i < j {
        assert GoodRequest(b, j);
        SumMonotone(b.counts, i + 1, j);
      }
    } else if Common(b, i) {
      FastPathShape(b, i);
      SumMonotone(CommonCounts(b), i, |b.counts|);
    }
  }

  // ---- The index lists ----

  datatype IndexLists = IndexLists(
    sampleRows: seq<int>,
    draftRows: seq<int>,
    draftSources: seq<int>,
    prevRows: seq<int>,
    matches: bool,
    maxLast: int,
    numDrafts: nat)

  /** The lists after the first n requests. */
  function ListsOf(b: Batch, numSpec: nat, n: nat): IndexLists
    requires |b.counts| == |b.prev| == |b.drafts| && n <= |b.counts|
  {
    IndexLists(
      Runs(SampleRows(b), CommonCounts(b), n),
      Runs(DraftRows(b), DraftCounts(b), n),
      Runs(DraftSources(b, numSpec), DraftCounts(b), n),
      Runs(b.prev, CommonCounts(b), n),
      forall i :: 0 <= i < n ==> RowMatches(b, i),
      MaxLastRow(b, n),
      Sum(DraftCounts(b), n))
  }

  /** Every row of the batch holds the wanted token, and the rows after the batch are untouched. */
  ghost predicate Filled(b: Batch, base: seq<int>, after: seq<int>, sampled: seq<int>, draftTokens: Option<seq<int>>,
                         numSpec: nat) {
    && GoodTokens(b, sampled, draftTokens, numSpec)
    && |after| == |base| && Sum(b.counts, |b.counts|) <= |base|
    && (forall x :: Sum(b.counts, |b.counts|) <= x < |base| ==> after[x] == base[x])
    && forall i, x :: 0 <= i < |b.counts| && Sum(b.counts, i) <= x < Sum(b.counts, i + 1) && x < |base| ==>
         after[x] == Want(b, sampled, draftTokens, numSpec, i, x, base[x])
  }

  /** The first row of request i of a batch with cumulative counts cu. */
  function First(cu: seq<int>, i: nat): int
    requires i < |cu|
  {
    if i == 0 then 0 else cu[i - 1]
  }

  /**
    The rows of request i, whose last row is cu[i] - 1: the previous sample stands just before its drafts, draft
    j comes from column j of the request's row of the previous drafts, and every row before is the CPU's. Without
    previous drafts the draft rows stay as in base.
   */
  ghost predicate RequestFilled(cu: seq<int>, prev: int, drafts: nat, sampled: seq<int>, draftTokens: Option<seq<int>>,
                                numSpec: nat, cpu: seq<int>, base: seq<int>, after: seq<int>, i: nat)
    requires i < |cu|
  {
    && 0 <= First(cu, i) < cu[i] <= |after| && |cpu| == |base| == |after|
    && (prev < 0 ==> forall x :: First(cu, i) <= x < cu[i] ==> after[x] == cpu[x])
    && (prev >= 0 ==>
         && First(cu, i) <= cu[i] - 1 - drafts && prev < |sampled|
         && (forall x :: First(cu, i) <= x < cu[i] - 1 - drafts ==> after[x] == cpu[x])
         && after[cu[i] - 1 - drafts] == sampled[prev]
         && (draftTokens.None? ==> after[cu[i] - drafts..cu[i]] == base[cu[i] - drafts..cu[i]]))
    && (prev >= 0 && draftTokens.Some? ==>
         && 0 <= prev * numSpec && prev * numSpec + drafts <= |draftTokens.value|
         && after[cu[i] - drafts..cu[i]] == draftTokens.value[prev * numSpec..prev * numSpec + drafts])
  }

  /** Every request is filled, and the rows after the batch are untouched. */
  ghost predicate BatchFilled(cu: seq<int>, prev: seq<int>, drafts: seq<nat>, sampled: seq<int>,
                              draftTokens: Option<seq<int>>, numSpec: nat, cpu: seq<int>, before: seq<int>,
                              after: seq<int>, total: nat)
    requires |cu| == |prev| == |drafts| && total <= |cpu| == |before|
  {
    var full := forall i :: 0 <= i < |cu| ==> prev[i] >= 0 && cu[i] - First(cu, i) == drafts[i] + 1;
    var base := if full then before else cpu[..total] + before[total..];
    && |after| == |before| && after[total..] == before[total..]
    && forall i :: 0 <= i < |cu| ==>
         RequestFilled(cu, prev[i], drafts[i], sampled, draftTokens, numSpec, cpu, base, after, i)
  }

  /** The rows of one request hold their wanted tokens. */
  predicate Wanted(b: Batch, base: seq<int>, after: seq<int>, sampled: seq<int>, draftTokens: Option<seq<int>>,
                   numSpec: nat, i: nat)
    requires GoodTokens(b, sampled, draftTokens, numSpec) && i < |b.counts|
    requires Sum(b.counts, i + 1) <= |base| == |after|
  {
    forall x :: Sum(b.counts, i) <= x < Sum(b.counts, i + 1) ==>
      after[x] == Want(b, sampled, draftTokens, numSpec, i, x, base[x])
  }

  lemma DraftsFilled(b: Batch, base: seq<int>, after: seq<int>, sampled: seq<int>, draftTokens: Option<seq<int>>,
                     numSpec: nat, i: nat)
    requires GoodTokens(b, sampled, draftTokens, numSpec) && i < |b.counts|
    requires Sum(b.counts, i + 1) <= |base| == |after| && b.prev[i] >= 0
    requires Wanted(b, base, after, sampled, draftTokens, numSpec, i)
    ensures var to, drafts, source := Sum(b.counts, i + 1), b.drafts[i], b.prev[i] * numSpec;
            && drafts <= to
            && (draftTokens.None? ==> after[to - drafts..to] == base[to - drafts..to])
            && (draftTokens.Some? ==>
                 && 0 <= source && source + drafts <= |draftTokens.value|
                 && after[to - drafts..to] == draftTokens.value[source..source + drafts])
  {
    assert GoodRequest(b, i) && GoodSource(b, sampled, draftTokens, numSpec, i);
    SumNext(b.counts, i);
    hide Sum;
  }

  /** What the rows of one request hold, given the wanted token of each; base is what the scatters started from. */
  lemma RequestRows(b: Batch, cu: seq<int>, base: seq<int>, after: seq<int>, sampled: seq<int>,
                    draftTokens: Option<seq<int>>, numSpec: nat, cpu: seq<int>, i: nat)
    requires GoodTokens(b, sampled, draftTokens, numSpec) && cu == Cumsum(b.counts) && i < |cu|
    requires Sum(b.counts, i + 1) <= |base| == |after| == |cpu|
    requires Wanted(b, base, after, sampled, draftTokens, numSpec, i)
    requires FullyContinued(b, i) || forall x :: 0 <= x < Sum(b.counts, i + 1) ==> base[x] == cpu[x]
    ensures RequestFilled(cu, b.prev[i], b.drafts[i], sampled, draftTokens, numSpec, cpu, base, after, i)
  {
    assert GoodRequest(b, i) && GoodSource(b, sampled, draftTokens, numSpec, i);
    SumNext(b.counts, i);
    if b.prev[i] >= 0 {
      DraftsFilled(b, base, after, sampled, draftTokens, numSpec, i);
    }
    assert First(cu, i) == Sum(b.counts, i) && cu[i] == Sum(b.counts, i + 1);
  }

  lemma RequestIsFilled(b: Batch, cu: seq<int>, base: seq<int>, after: seq<int>, sampled: seq<int>,
                        draftTokens: Option<seq<int>>, numSpec: nat, cpu: seq<int>, i: nat)
    requires Filled(b, base, after, sampled, draftTokens, numSpec) && cu == Cumsum(b.counts) && i < |cu|
    requires |cpu| == |base|
    requires FullyContinued(b, i) || forall x :: 0 <= x < Sum(b.counts, |b.counts|) ==> base[x] == cpu[x]
    ensures RequestFilled(cu, b.prev[i], b.drafts[i], sampled, draftTokens, numSpec, cpu, base, after, i)
    ensures FullyContinued(b, i) <==> b.prev[i] >= 0 && cu[i] - First(cu, i) == b.drafts[i] + 1
  {
    hide Want, Sum, RequestFilled, GoodTokens;
    ZeroSum(b.counts);
    SumNext(b.counts, i);
    SumMonotone(b.counts, i + 1, |b.counts|);
    RequestRows(b, cu, base, after, sampled, draftTokens, numSpec, cpu, i);
  }

  lemma FilledIsBatchFilled(b: Batch, cu: seq<int>, before: seq<int>, after: seq<int>, sampled: seq<int>,
                            draftTokens: Option<seq<int>>, numSpec: nat, cpu: seq<int>, total: nat)
    requires GoodBatch(b) && cu == Cumsum(b.counts)
    requires total == Sum(b.counts, |b.counts|) <= |cpu| == |before|
    requires Filled(b, if SkipsCopy(b) then before else cpu[..total] + before[total..], after, sampled, draftTokens,
                    numSpec)
    ensures BatchFilled(cu, b.prev, b.drafts, sampled, draftTokens, numSpec, cpu, before, after, total)
  {
    hide Want, Sum, RequestFilled, GoodTokens, SkipsCopy, Filled, FullyContinued, GoodRequest;
    var base := if SkipsCopy(b) then before else cpu[..total] + before[total..];
    SkipsCopyIff(b);
    AfterBatch(b, base, after, sampled, draftTokens, numSpec);
    forall i | 0 <= i < |cu|
      ensures RequestFilled(cu, b.prev[i], b.drafts[i], sampled, draftTokens, numSpec, cpu, base, after, i)
      ensures FullyContinued(b, i) <==> b.prev[i] >= 0 && cu[i] - First(cu, i) == b.drafts[i] + 1
    {
      RequestIsFilled(b, cu, base, after, sampled, draftTokens, numSpec, cpu, i);
    }
  }

  lemma AfterBatch(b: Batch, base: seq<int>, after: seq<int>, sampled: seq<int>, draftTokens: Option<seq<int>>,
                   numSpec: nat)
    requires Filled(b, base, after, sampled, draftTokens, numSpec)
    ensures |after| == |base| && after[Sum(b.counts, |b.counts|)..] == base[Sum(b.counts, |b.counts|)..]
    ensures GoodBatch(b)
  {
  }

  lemma ZeroSum(counts: seq<nat>)
    ensures Sum(counts, 0) == 0
  {
  }

  lemma RowsInRange(b: Batch, base: seq<int>)
    requires GoodBatch(b) && Sum(b.counts, |b.counts|) <= |base|
    ensures forall k :: 0 <= k < Sum(CommonCounts(b), |b.counts|) ==>
              0 <= Runs(SampleRows(b), CommonCounts(b), |b.counts|)[k] < |base|
    ensures forall k :: 0 <= k < Sum(DraftCounts(b), |b.counts|) ==>
              0 <= Runs(DraftRows(b), DraftCounts(b), |b.counts|)[k] < |base|
  {
    SampleRunsInside(b);
    forall k | 0 <= k < Sum(CommonCounts(b), |b.counts|)
      ensures 0 <= Runs(SampleRows(b), CommonCounts(b), |b.counts|)[k] < |base|
    {
      RunsInRange(SampleRows(b), CommonCounts(b), b.counts, k);
    }
    forall k | 0 <= k < Sum(DraftCounts(b), |b.counts|)
      ensures 0 <= Runs(DraftRows(b), DraftCounts(b), |b.counts|)[k] < |base|
    {
      RunsInRange(DraftRows(b), DraftCounts(b), b.counts, k);
    }
  }

  lemma StepWithoutCommon(b: Batch, base: seq<int>, sampled: seq<int>, draftTokens: Option<seq<int>>, numSpec: nat)
    requires GoodTokens(b, sampled, draftTokens, numSpec) && Sum(b.counts, |b.counts|) <= |base|
    requires Sum(CommonCounts(b), |b.counts|) == 0
    ensures Filled(b, base, base, sampled, draftTokens, numSpec)
  {
    forall i, x | 0 <= i < |b.counts| && Sum(b.counts, i) <= x < Sum(b.counts, i + 1) && x < |base|
      ensures base[x] == Want(b, sampled, draftTokens, numSpec, i, x, base[x])
    {
      SumMonotone(CommonCounts(b), i, |b.counts|);
    }
  }

  lemma FastSliceFits(b: Batch, sampled: seq<int>, draftTokens: Option<seq<int>>, numSpec: nat, capacity: nat)
    requires GoodTokens(b, sampled, draftTokens, numSpec) && FastPath(b) && Sum(b.counts, |b.counts|) <= capacity
    ensures Sum(CommonCounts(b), |b.counts|) <= |sampled| && Sum(CommonCounts(b), |b.counts|) <= capacity
  {
    Slack(b, |b.counts|);
    var i := FastRowOwner(b, |b.counts|, Sum(CommonCounts(b), |b.counts|) - 1);
    assert GoodSource(b, sampled, draftTokens, numSpec, i);
  }

  lemma FastStep(b: Batch, base: seq<int>, after: seq<int>, sampled: seq<int>, draftTokens: Option<seq<int>>,
                 numSpec: nat)
    requires GoodTokens(b, sampled, draftTokens, numSpec) && FastPath(b) && Sum(b.counts, |b.counts|) <= |base|
    requires var m := Sum(CommonCounts(b), |b.counts|);
             m <= |sampled| && m <= |base| && after == sampled[..m] + base[m..]
    ensures Filled(b, base, after, sampled, draftTokens, numSpec)
  {
    hide Want, FastPath, Sum;
    Slack(b, |b.counts|);
    forall i, x | 0 <= i < |b.counts| && Sum(b.counts, i) <= x < Sum(b.counts, i + 1) && x < |base|
      ensures after[x] == Want(b, sampled, draftTokens, numSpec, i, x, base[x])
    {
      FastCopyIsGeneral(b, base, after, sampled, draftTokens, numSpec, i, x);
    }
  }

  lemma GeneralStep(b: Batch, base: seq<int>, after: seq<int>, sampled: seq<int>, draftTokens: Option<seq<int>>,
                    numSpec: nat)
    requires GoodTokens(b, sampled, draftTokens, numSpec) && Sum(b.counts, |b.counts|) <= |base|
    requires forall k :: 0 <= k < Sum(CommonCounts(b), |b.prev|) ==>
               0 <= Runs(b.prev, CommonCounts(b), |b.prev|)[k] < |sampled|
    requires draftTokens.Some? ==>
               forall k :: 0 <= k < Sum(DraftCounts(b), |b.prev|) ==>
                 0 <= Runs(DraftSources(b, numSpec), DraftCounts(b), |b.prev|)[k] < |draftTokens.value|
    requires var scattered := SamplesScattered(b, base, sampled);
             after == if draftTokens.Some? then DraftsScattered(b, scattered, draftTokens.value, numSpec) else scattered
    ensures Filled(b, base, after, sampled, draftTokens, numSpec)
  {
    hide Want, Sum, Runs, Scatter;
    forall i, x | 0 <= i < |b.counts| && Sum(b.counts, i) <= x < Sum(b.counts, i + 1) && x < |base|
      ensures after[x] == Want(b, sampled, draftTokens, numSpec, i, x, base[x])
    {
      GeneralPath(b, base, sampled, draftTokens, numSpec, i, x);
    }
    var scattered := SamplesScattered(b, base, sampled);
    forall x | Sum(b.counts, |b.counts|) <= x < |base|
      ensures after[x] == base[x]
    {
      SampleRunsInside(b);
      ScatterOutside(base, SampleRows(b), CommonCounts(b), b.counts,
                     Gather(sampled, Runs(b.prev, CommonCounts(b), |b.prev|)), x);
      if draftTokens.Some? {
        ScatterOutside(scattered, DraftRows(b), DraftCounts(b), b.counts,
                       Gather(draftTokens.value, Runs(DraftSources(b, numSpec), DraftCounts(b), |b.prev|)), x);
      }
    }
  }

  /** The lists with one more common request, whose last row in the batch is last. */
  function WithRequest(l: IndexLists, prev: nat, last: int, drafts: nat, numSpec: nat): IndexLists {
    IndexLists(
      l.sampleRows + [last - drafts],
      l.draftRows + Range(last - drafts + 1, drafts),
      l.draftSources + Range(prev * numSpec, drafts),
      l.prevRows + [prev],
      l.matches && prev == last,
      if last > l.maxLast then last else l.maxLast,
      l.numDrafts + drafts)
  }

  lemma ListsEmpty(b: Batch, numSpec: nat)
    requires |b.counts| == |b.prev| == |b.drafts|
    ensures ListsOf(b, numSpec, 0) == IndexLists([], [], [], [], true, -1, 0)
  {
  }

  /** How the lists grow by one request. */
  lemma ListsGrow(b: Batch, numSpec: nat, i: nat)
    requires |b.counts| == |b.prev| == |b.drafts| && i < |b.counts|
    ensures var l, last := ListsOf(b, numSpec, i), Sum(b.counts, i + 1) - 1;
            ListsOf(b, numSpec, i + 1)
            == if Common(b, i) then WithRequest(l, b.prev[i], last, b.drafts[i], numSpec) else l
  {
    var l, m := ListsOf(b, numSpec, i), ListsOf(b, numSpec, i + 1);
    assert m.matches == (l.matches && RowMatches(b, i));
    if Common(b, i) {
      assert Range(SampleRow(b, i), 1) == [SampleRow(b, i)];
      assert Range(b.prev[i], 1) == [b.prev[i]];
    } else {
      assert Range(SampleRow(b, i), 0) == [] && Range(SampleRow(b, i) + 1, 0) == [];
    }
  }

  class Buffers {
    const cpu: array<int>
    const gpu: array<int>
    const prevPositions: array<int>

    ghost predicate Valid() {
      cpu != gpu && cpu != prevPositions && gpu != prevPositions && cpu.Length == gpu.Length
    }

    constructor (capacity: nat, maxReqs: nat)
      ensures Valid() && fresh(cpu) && fresh(gpu) && fresh(prevPositions)
      ensures cpu.Length == capacity && prevPositions.Length == maxReqs
    {
      cpu := new int[capacity];
      gpu := new int[capacity];
      prevPositions := new int[maxReqs];
    }

    /** Current position to previous position, -1 for requests that were not in the previous step. */
    method ComputePrevPositions(reqIds: seq<string>, prevIndex: map<string, nat>)
      requires Valid() && |reqIds| <= prevPositions.Length
      modifies prevPositions
      ensures forall i :: 0 <= i < |reqIds| ==>
                prevPositions[i] == if reqIds[i] in prevIndex then prevIndex[reqIds[i]] else -1
      ensures prevPositions[|reqIds|..] == old(prevPositions[|reqIds|..])
    {
      for i := 0 to |reqIds|
        invariant forall k :: 0 <= k < i ==>
                    prevPositions[k] == if reqIds[k] in prevIndex then prevIndex[reqIds[k]] else -1
        invariant forall k :: |reqIds| <= k < prevPositions.Length ==> prevPositions[k] == old(prevPositions[k])
      {
        prevPositions[i] := if reqIds[i] in prevIndex then prevIndex[reqIds[i]] else -1;
      }
    }

    method CopyToGpu(total: nat)
      requires Valid() && total <= gpu.Length
      modifies gpu
      ensures gpu[..] == cpu[..total] + old(gpu[total..])
    {
      for x := 0 to total
        invariant forall k :: 0 <= k < x ==> gpu[k] == cpu[k]
        invariant forall k :: x <= k < gpu.Length ==> gpu[k] == old(gpu[k])
      {
        gpu[x] := cpu[x];
      }
    }

    method ScatterToGpu(idx: seq<int>, values: seq<int>)
      requires Valid() && |idx| == |values| && forall k :: 0 <= k < |idx| ==> 0 <= idx[k] < gpu.Length
      modifies gpu
      ensures gpu[..] == Scatter(old(gpu[..]), idx, values, |idx|)
    {
      for k := 0 to |idx|
        invariant gpu[..] == Scatter(old(gpu[..]), idx, values, k)
      {
        gpu[idx[k]] := values[k];
      }
    }

    /** The index lists of one step, grown request by request. */
    method CollectIndices(cu: seq<int>, ghost counts: seq<nat>, drafts: seq<nat>, numSpec: nat)
      returns (lists: IndexLists)
      requires Valid() && |cu| == |drafts| <= prevPositions.Length && cu == Cumsum(counts)
      ensures var b := Batch(counts, prevPositions[..|cu|], drafts); lists == ListsOf(b, numSpec, |cu|)
    {
      hide ListsOf, WithRequest, Sum;
      ghost var b := Batch(counts, prevPositions[..|cu|], drafts);
      lists := IndexLists([], [], [], [], true, -1, 0);
      ListsEmpty(b, numSpec);
      for i := 0 to |cu|
        invariant lists == ListsOf(b, numSpec, i)
      {
        ListsGrow(b, numSpec, i);
        var prev := prevPositions[i];
        assert prev == b.prev[i];
        if prev >= 0 {
          lists := WithRequest(lists, prev, cu[i] - 1, drafts[i], numSpec);
        }
      }
    }

    method PrepareInputIds(cu: seq<int>, ghost counts: seq<nat>, drafts: seq<nat>, prevSampled: Option<seq<int>>,
                           draftTokens: Option<seq<int>>, numSpec: nat, total: nat)
      requires Valid() && |cu| == |drafts| <= prevPositions.Length
      requires cu == Cumsum(counts) && total == Sum(counts, |counts|) <= gpu.Length
      requires prevSampled.Some? ==>
                 GoodTokens(Batch(counts, prevPositions[..|cu|], drafts), prevSampled.value, draftTokens, numSpec)
      modifies gpu
      ensures prevSampled.None? ==> gpu[..] == cpu[..total] + old(gpu[total..])
      ensures prevSampled.Some? ==>
                var b := Batch(counts, prevPositions[..|cu|], drafts);
                Filled(b, if SkipsCopy(b) then old(gpu[..]) else cpu[..total] + old(gpu[total..]), gpu[..],
                       prevSampled.value, draftTokens, numSpec)
      ensures prevSampled.Some? ==>
                BatchFilled(cu, prevPositions[..|cu|], drafts, prevSampled.value, draftTokens, numSpec, cpu[..],
                            old(gpu[..]), gpu[..], total)
    {
      if prevSampled.None? {
        CopyToGpu(total);
        return;
      }
      hide Runs, Sum, Want, GoodTokens, Scatter, MaxLastRow, Filled, BatchFilled;
      ghost var b := Batch(counts, prevPositions[..|cu|], drafts);
      assert GoodTokens(b, prevSampled.value, draftTokens, numSpec);
      var lists := CollectIndices(cu, counts, drafts, numSpec);
      var numCommon := |lists.sampleRows|;
      if numCommon < total - lists.numDrafts {
        CopyToGpu(total);
      }
      ghost var base := gpu[..];
      assert base == if SkipsCopy(b) then old(gpu[..]) else cpu[..total] + old(gpu[total..]);
      SourcesExist(b, prevSampled.value, draftTokens, numSpec);
      RowsInRange(b, base);
      if numCommon == 0 {
        StepWithoutCommon(b, base, prevSampled.value, draftTokens, numSpec);
      } else if lists.matches && lists.maxLast == numCommon - 1 {
        FastSliceFits(b, prevSampled.value, draftTokens, numSpec, gpu.Length);
        CopySlice(prevSampled.value, numCommon);
        FastStep(b, base, gpu[..], prevSampled.value, draftTokens, numSpec);
      } else {
        ScatterTokens(b, lists, prevSampled.value, draftTokens, numSpec);
      }
      FilledIsBatchFilled(b, cu, old(gpu[..]), gpu[..], prevSampled.value, draftTokens, numSpec, cpu[..], total);
    }

    /** The general path: scatter the sampled tokens, then the draft tokens if there are any. */
    method ScatterTokens(ghost b: Batch, lists: IndexLists, sampled: seq<int>, draftTokens: Option<seq<int>>,
                         ghost numSpec: nat)
      requires Valid() && GoodTokens(b, sampled, draftTokens, numSpec) && lists == ListsOf(b, numSpec, |b.counts|)
      requires Sum(b.counts, |b.counts|) <= gpu.Length
      modifies gpu
      ensures Filled(b, old(gpu[..]), gpu[..], sampled, draftTokens, numSpec)
    {
      hide Runs, Sum, Want, Scatter, Filled;
      ghost var base := gpu[..];
      SourcesExist(b, sampled, draftTokens, numSpec);
      RowsInRange(b, base);
      hide GoodTokens;
      ScatterToGpu(lists.sampleRows, Gather(sampled, lists.prevRows));
      assert gpu[..] == SamplesScattered(b, base, sampled);
      if draftTokens.Some? && |lists.draftRows| != 0 {
        ScatterToGpu(lists.draftRows, Gather(draftTokens.value, lists.draftSources));
      } else if draftTokens.Some? {
        NoDraftsScattered(b, gpu[..], draftTokens.value, numSpec);
      }
      GeneralStep(b, base, gpu[..], sampled, draftTokens, numSpec);
    }

    method CopySlice(sampled: seq<int>, n: nat)
      requires Valid() && n <= |sampled| && n <= gpu.Length
      modifies gpu
      ensures gpu[..] == sampled[..n] + old(gpu[n..])
    {
      for x := 0 to n
        invariant forall k :: 0 <= k < x ==> gpu[k] == sampled[k]
        invariant forall k :: x <= k < gpu.Length ==> gpu[k] == old(gpu[k])
      {
        gpu[x] := sampled[x];
      }
    }
  }
}
