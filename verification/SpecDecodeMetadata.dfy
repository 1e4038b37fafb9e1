/**
  Index metadata for verifying draft tokens (_get_cumsum_and_arange and _calc_spec_decode_metadata
  of gpu_model_runner.py).
 */
module SpecDecodeMetadata {
  import opened BatchRuns

  datatype Metadata = Metadata(
    draftTokenIds: seq<int>,
    numDraftTokens: seq<nat>,
    cuNumDraftTokens: seq<int>,
    cuNumSampledTokens: seq<int>,
    targetLogitsIndices: seq<int>,
    bonusLogitsIndices: seq<int>,
    logitsIndices: seq<int>)

  /** Each request samples one token per draft token and one bonus token. */
  function Sampled(drafts: seq<nat>): (s: seq<nat>)
    ensures |s| == |drafts| && forall i :: 0 <= i < |s| ==> s[i] == drafts[i] + 1
  {
    seq(|drafts|, i requires 0 <= i < |drafts| => drafts[i] + 1)
  }

  function Minus(a: seq<int>, b: seq<nat>): (r: seq<int>)
    requires |a| == |b|
    ensures |r| == |a| && forall i :: 0 <= i < |r| ==> r[i] == a[i] - b[i]
  {
    seq(|a|, i requires 0 <= i < |a| => a[i] - b[i])
  }

  /** Request i schedules scheduled[i] >= drafts[i] + 1 tokens, and cu holds the running totals. */
  predicate Scheduled(cu: seq<int>, scheduled: seq<nat>, drafts: seq<nat>) {
    && |cu| == |scheduled| == |drafts| > 0
    && cu == Cumsum(scheduled)
    && forall i :: 0 <= i < |drafts| ==> drafts[i] + 1 <= scheduled[i]
  }

  // ---- What the index lists mean ----

  /**
    The target rows and the bonus rows partition the sampled rows: together they are 0, 1, ..., each once.
   */
  lemma {:induction false} TargetsAndBonusPartition(drafts: seq<nat>, n: nat)
    requires n <= |drafts|
    ensures multiset(Runs(Starts(Sampled(drafts)), drafts, n)) + multiset(Bonus(drafts, n))
            == multiset(Range(0, Sum(Sampled(drafts), n)))
  {
    if n > 0 {
      hide Runs, Bonus, Sum, Range, Starts, Sampled;
      TargetsAndBonusPartition(drafts, n - 1);
      var own, last := NextRows(drafts, n);
      Interleave(Runs(Starts(Sampled(drafts)), drafts, n - 1), Bonus(drafts, n - 1),
                 Range(0, Sum(Sampled(drafts), n - 1)), own, last);
    } else {
      assert multiset(Runs(Starts(Sampled(drafts)), drafts, 0)) == multiset{};
    }
  }

  lemma NextRows(drafts: seq<nat>, n: nat) returns (own: seq<int>, last: seq<int>)
    requires 0 < n <= |drafts|
    ensures Runs(Starts(Sampled(drafts)), drafts, n) == Runs(Starts(Sampled(drafts)), drafts, n - 1) + own
    ensures Bonus(drafts, n) == Bonus(drafts, n - 1) + last
    ensures Range(0, Sum(Sampled(drafts), n)) == Range(0, Sum(Sampled(drafts), n - 1)) + (own + last)
  {
    var from, d := Sum(Sampled(drafts), n - 1), drafts[n - 1];
    own, last := Range(from, d), Range(from + d, 1);
    RangeSplits(0, from, d + 1);
    RangeSplits(from, d, 1);
    assert last == [from + d];
  }

  lemma Interleave(a: seq<int>, b: seq<int>, r: seq<int>, c: seq<int>, d: seq<int>)
    requires multiset(a) + multiset(b) == multiset(r)
    ensures multiset(a + c) + multiset(b + d) == multiset(r + (c + d))
  {
  }

  function Bonus(drafts: seq<nat>, n: nat): (b: seq<int>)
    requires n <= |drafts|
    ensures |b| == n && forall i :: 0 <= i < n ==> b[i] == Sum(Sampled(drafts), i + 1) - 1
  {
    if n == 0 then [] else Bonus(drafts, n - 1) + [Sum(Sampled(drafts), n) - 1]
  }

  /** The rows verified for a batch: the last drafts[i] + 1 rows of every request. */
  function LogitsRows(cu: seq<int>, drafts: seq<nat>): seq<int>
    requires |cu| == |drafts|
  {
    Runs(Minus(cu, Sampled(drafts)), Sampled(drafts), |drafts|)
  }

  /** The input rows of the draft tokens: the last drafts[i] rows of every request. */
  function DraftRows(cu: seq<int>, drafts: seq<nat>): seq<int>
    requires |cu| == |drafts|
  {
    Runs(Minus(cu, drafts), drafts, |drafts|)
  }

  /** Draft token j of request i, at its place in the flat list of draft tokens. */
  lemma DraftTokenMeaning(cu: seq<int>, drafts: seq<nat>, i: nat, j: nat)
    requires |cu| == |drafts| && i < |drafts| && j < drafts[i]
    ensures var k := Sum(drafts, i) + j;
            var target := Runs(Starts(Sampled(drafts)), drafts, |drafts|);
            && k < |target| && k < |DraftRows(cu, drafts)|
            && 0 <= target[k] && target[k] + 1 < |LogitsRows(cu, drafts)|
            && LogitsRows(cu, drafts)[target[k]] == cu[i] - drafts[i] - 1 + j
            && LogitsRows(cu, drafts)[target[k] + 1] == DraftRows(cu, drafts)[k] == cu[i] - drafts[i] + j
  {
    hide Sum, Runs, Repeat, Starts;
    var sampled := Sampled(drafts);
    RunsAt(Starts(sampled), drafts, |drafts|, i, j);
    RunsAt(Minus(cu, drafts), drafts, |drafts|, i, j);
    RunsAt(Minus(cu, sampled), sampled, |drafts|, i, j);
    RunsAt(Minus(cu, sampled), sampled, |drafts|, i, j + 1);
  }

  /** The bonus row of request i is its last row. */
  lemma BonusMeaning(cu: seq<int>, drafts: seq<nat>, i: nat)
    requires |cu| == |drafts| && i < |drafts|
    ensures 0 <= Bonus(drafts, |drafts|)[i] < |LogitsRows(cu, drafts)|
    ensures LogitsRows(cu, drafts)[Bonus(drafts, |drafts|)[i]] == cu[i] - 1
  {
    var sampled := Sampled(drafts);
    RunsAt(Minus(cu, sampled), sampled, |drafts|, i, drafts[i]);
  }

  /** The logits rows stay inside the batch, each inside the request i it is sampled for. */
  lemma LogitsRowsInRange(cu: seq<int>, scheduled: seq<nat>, drafts: seq<nat>, p: nat) returns (i: nat)
    requires Scheduled(cu, scheduled, drafts) && p < |LogitsRows(cu, drafts)|
    ensures i < |drafts| && Sum(Sampled(drafts), i) <= p < Sum(Sampled(drafts), i) + Sampled(drafts)[i]
    ensures Sum(scheduled, i) <= LogitsRows(cu, drafts)[p] < Sum(scheduled, i + 1)
    ensures 0 <= LogitsRows(cu, drafts)[p] < Sum(scheduled, |scheduled|)
  {
    hide Sum, Runs, Repeat, Starts;
    var sampled := Sampled(drafts);
    var j;
    i, j := Locate(sampled, |drafts|, p);
    SumNext(scheduled, i);
    RunsAt(Minus(cu, sampled), sampled, |drafts|, i, j);
    SumMonotone(scheduled, i, |scheduled|);
    SumMonotone(scheduled, i + 1, |scheduled|);
  }

  /** Offset of request i in a list with running totals cu. */
  function From(cu: seq<int>, i: nat): int
    requires i < |cu|
  {
    if i == 0 then 0 else cu[i - 1]
  }

  /**
    The entries of request i, found through the running totals of the metadata itself: its sampled rows are
    the last drafts[i] + 1 input rows up to cu[i] - 1, its targets all of them but the last, its bonus the last.
   */
  predicate RequestMeaning(m: Metadata, drafts: seq<nat>, cu: seq<int>, inputs: seq<int>, i: nat)
    requires i < |drafts| == |cu|
  {
    && |m.cuNumDraftTokens| == |m.cuNumSampledTokens| == |m.bonusLogitsIndices| == |drafts|
    && var d, s := From(m.cuNumDraftTokens, i), From(m.cuNumSampledTokens, i);
       && 0 <= d && m.cuNumDraftTokens[i] == d + drafts[i]
       && 0 <= s && m.cuNumSampledTokens[i] == s + drafts[i] + 1
       && d + drafts[i] <= |m.targetLogitsIndices| == |m.draftTokenIds| && s + drafts[i] + 1 <= |m.logitsIndices|
       && 0 <= cu[i] - 1 - drafts[i] && cu[i] <= |inputs|
       && m.bonusLogitsIndices[i] == s + drafts[i]
       && (forall j :: s <= j <= s + drafts[i] ==> m.logitsIndices[j] == cu[i] - 1 - drafts[i] + (j - s))
       && (forall j :: d <= j < d + drafts[i] ==> m.targetLogitsIndices[j] == s + (j - d))
       && m.draftTokenIds[d..d + drafts[i]] == inputs[cu[i] - drafts[i]..cu[i]]
  }

  /** Running totals give the offset of request i, and what it adds. */
  lemma TotalsAt(counts: seq<nat>, i: nat)
    requires i < |counts|
    ensures From(Cumsum(counts), i) == Sum(counts, i) && Cumsum(counts)[i] == Sum(counts, i) + counts[i]
    ensures Sum(counts, i) + counts[i] <= Sum(counts, |counts|)
  {
    SumNext(counts, i);
    SumMonotone(counts, i + 1, |counts|);
  }

  lemma {:induction false} RunSlice(bases: seq<int>, counts: seq<nat>, n: nat, i: nat)
    requires i < n <= |counts| && n <= |bases|
    ensures Sum(counts, i) + counts[i] <= |Runs(bases, counts, n)|
    ensures Runs(bases, counts, n)[Sum(counts, i)..Sum(counts, i) + counts[i]] == Range(bases[i], counts[i])
  {
    if i < n - 1 {
      RunSlice(bases, counts, n - 1, i);
    }
  }

  lemma RunFrom(bases: seq<int>, counts: seq<nat>, i: nat)
    requires |bases| == |counts| && i < |counts|
    ensures Sum(counts, i) + counts[i] <= |Runs(bases, counts, |counts|)|
    ensures forall p :: Sum(counts, i) <= p < Sum(counts, i) + counts[i] ==>
              Runs(bases, counts, |counts|)[p] == bases[i] + (p - Sum(counts, i))
  {
    hide Sum, Runs;
    RunSlice(bases, counts, |counts|, i);
    SliceIsRange(Runs(bases, counts, |counts|), Sum(counts, i), bases[i], counts[i]);
  }

  lemma SliceIsRange(s: seq<int>, start: nat, from: int, len: nat)
    requires start + len <= |s| && s[start..start + len] == Range(from, len)
    ensures forall p :: start <= p < start + len ==> s[p] == from + (p - start)
  {
    forall p | start <= p < start + len
      ensures s[p] == from + (p - start)
    {
      assert s[p] == s[start..start + len][p - start];
    }
  }

  lemma DraftsAt(cu: seq<int>, drafts: seq<nat>, ids: seq<int>, inputs: seq<int>, i: nat)
    requires |cu| == |drafts| && i < |drafts| && 0 <= cu[i] - drafts[i] && cu[i] <= |inputs|
    requires |ids| == |DraftRows(cu, drafts)|
    requires forall k :: 0 <= k < |ids| ==>
               0 <= DraftRows(cu, drafts)[k] < |inputs| && ids[k] == inputs[DraftRows(cu, drafts)[k]]
    ensures Sum(drafts, i) + drafts[i] <= |ids|
    ensures ids[Sum(drafts, i)..Sum(drafts, i) + drafts[i]] == inputs[cu[i] - drafts[i]..cu[i]]
  {
    hide Sum, Runs;
    RunFrom(Minus(cu, drafts), drafts, i);
  }

  lemma MeaningAt(m: Metadata, drafts: seq<nat>, cu: seq<int>, scheduled: seq<nat>, inputs: seq<int>, i: nat)
    requires Scheduled(cu, scheduled, drafts) && Sum(scheduled, |scheduled|) <= |inputs| && i < |drafts|
    requires m.cuNumDraftTokens == Cumsum(drafts) && m.cuNumSampledTokens == Cumsum(Sampled(drafts))
    requires m.logitsIndices == LogitsRows(cu, drafts)
    requires m.targetLogitsIndices == Runs(Starts(Sampled(drafts)), drafts, |drafts|)
    requires m.bonusLogitsIndices == Bonus(drafts, |drafts|)
    requires |m.draftTokenIds| == |DraftRows(cu, drafts)|
    requires forall k :: 0 <= k < |m.draftTokenIds| ==>
               0 <= DraftRows(cu, drafts)[k] < |inputs| && m.draftTokenIds[k] == inputs[DraftRows(cu, drafts)[k]]
    ensures RequestMeaning(m, drafts, cu, inputs, i)
  {
    var sampled := Sampled(drafts);
    TotalsAt(drafts, i);
    TotalsAt(sampled, i);
    TotalsAt(scheduled, i);
    hide Sum, Runs, Bonus, Cumsum, Starts, Minus;
    BonusAt(drafts, i);
    DraftsAt(cu, drafts, m.draftTokenIds, inputs, i);
    RunFrom(Starts(sampled), drafts, i);
    RunFrom(Minus(cu, sampled), sampled, i);
  }

  lemma BonusAt(drafts: seq<nat>, i: nat)
    requires i < |drafts|
    ensures Bonus(drafts, |drafts|)[i] == Sum(Sampled(drafts), i) + drafts[i]
  {
    SumNext(Sampled(drafts), i);
  }

  /** Picking the row after every target row gives the draft rows. */
  lemma DraftRowsFollowTargets(cu: seq<int>, drafts: seq<nat>, k: nat)
    requires |cu| == |drafts| && k < Sum(drafts, |drafts|)
    ensures var target := Runs(Starts(Sampled(drafts)), drafts, |drafts|);
            && 0 <= target[k] && target[k] + 1 < |LogitsRows(cu, drafts)|
            && LogitsRows(cu, drafts)[target[k] + 1] == DraftRows(cu, drafts)[k]
  {
    hide Sum, Runs, LogitsRows, DraftRows, Starts;
    var i, j := Locate(drafts, |drafts|, k);
    DraftTokenMeaning(cu, drafts, i, j);
  }

  /** Running totals less the counts are the offsets. */
  lemma OffsetsFromTotals(counts: seq<nat>)
    ensures Minus(Cumsum(counts), counts) == Starts(counts)
  {
  }

  // ---- The runner's buffers ----

  class Runner {
    const arange: array<int>
    const arangeScratch: array<int>
    const inputIds: array<int>

    ghost predicate Valid()
      reads arange
    {
      && arange != arangeScratch && arange != inputIds && arangeScratch != inputIds
      && forall i :: 0 <= i < arange.Length ==> arange[i] == i
    }

    constructor (capacity: nat)
      ensures Valid() && fresh(arange) && fresh(arangeScratch) && fresh(inputIds)
      ensures arange.Length == arangeScratch.Length == inputIds.Length == capacity
    {
      arange := new int[capacity](i => i);
      arangeScratch := new int[capacity];
      inputIds := new int[capacity];
    }

    /** Running totals of counts, and 0, 1, ... restarted per request into the front of out. */
    method GetCumsumAndArange(counts: seq<nat>, out: array<int>) returns (cu: seq<int>)
      requires Valid() && out != arange && |counts| > 0
      requires Sum(counts, |counts|) <= out.Length && Sum(counts, |counts|) <= arange.Length
      modifies out
      ensures cu == Cumsum(counts)
      ensures out[..Sum(counts, |counts|)] == Runs(Zeros(|counts|), counts, |counts|)
      ensures out[Sum(counts, |counts|)..] == old(out[Sum(counts, |counts|)..])
    {
      cu := ComputeCumsum(counts);
      var total := cu[|cu| - 1];
      var starts := Minus(cu, counts);
      OffsetsFromTotals(counts);
      var offsets := Repeat(starts, counts, |counts|);
      hide Runs, Repeat, Sum, Starts, Minus, Zeros, Cumsum;
      SubtractOffsets(counts, offsets, total, out);
    }

    method SubtractOffsets(ghost counts: seq<nat>, offsets: seq<int>, total: nat, out: array<int>)
      requires Valid() && out != arange && total == Sum(counts, |counts|) <= out.Length && total <= arange.Length
      requires offsets == Repeat(Starts(counts), counts, |counts|)
      modifies out
      ensures out[..total] == Runs(Zeros(|counts|), counts, |counts|)
      ensures out[total..] == old(out[total..])
    {
      ghost var restarted := Runs(Zeros(|counts|), counts, |counts|);
      hide Runs, Repeat, Sum, Starts, Zeros;
      for p := 0 to total
        invariant forall q :: 0 <= q < p ==> out[q] == restarted[q]
        invariant forall q :: total <= q < out.Length ==> out[q] == old(out[q])
      {
        ArangeMinusStarts(counts, p);
        out[p] := arange[p] - offsets[p];
      }
    }

    /** out[k] := values[k] + scratch[k], the in-place sum of a repeated base and the restarted counts. */
    method AddScratch(bases: seq<int>, counts: seq<nat>) returns (runs: seq<int>)
      requires |bases| == |counts| && Sum(counts, |counts|) <= arangeScratch.Length
      requires arangeScratch[..Sum(counts, |counts|)] == Runs(Zeros(|counts|), counts, |counts|)
      ensures runs == Runs(bases, counts, |counts|)
    {
      var repeated := Repeat(bases, counts, |counts|);
      runs := [];
      for p := 0 to |repeated|
        invariant runs == Runs(bases, counts, |counts|)[..p]
      {
        RestartPlusBases(bases, counts, p);
        assert arangeScratch[p] == arangeScratch[..Sum(counts, |counts|)][p];
        runs := runs + [repeated[p] + arangeScratch[p]];
      }
    }

    /** The scratch buffer is filled twice, once for the sampled rows and once for the draft rows. */
    method CalcSpecDecodeMetadata(drafts: seq<nat>, cu: seq<int>, ghost scheduled: seq<nat>) returns (m: Metadata)
      requires Valid() && Scheduled(cu, scheduled, drafts)
      requires Sum(scheduled, |scheduled|) <= inputIds.Length
      requires Sum(Sampled(drafts), |drafts|) <= arangeScratch.Length && Sum(Sampled(drafts), |drafts|) <= arange.Length
      modifies arangeScratch
      ensures m.numDraftTokens == drafts
      ensures m.cuNumDraftTokens == Cumsum(drafts) && m.cuNumSampledTokens == Cumsum(Sampled(drafts))
      ensures m.logitsIndices == LogitsRows(cu, drafts)
      ensures m.targetLogitsIndices == Runs(Starts(Sampled(drafts)), drafts, |drafts|)
      ensures m.bonusLogitsIndices == Bonus(drafts, |drafts|)
      ensures |m.draftTokenIds| == |DraftRows(cu, drafts)|
      ensures forall k :: 0 <= k < |m.draftTokenIds| ==>
                0 <= DraftRows(cu, drafts)[k] < inputIds.Length
                    && m.draftTokenIds[k] == inputIds[DraftRows(cu, drafts)[k]]
      ensures forall i :: 0 <= i < |drafts| ==> RequestMeaning(m, drafts, cu, inputIds[..], i)
    {
      hide Sum, Runs, Cumsum, Starts, DraftRows, Bonus, Minus;
      var sampled := Sampled(drafts);
      var cuSampled := GetCumsumAndArange(sampled, arangeScratch);
      var logits := AddScratch(Minus(cu, sampled), sampled);

      var bonus := seq(|cuSampled|, i requires 0 <= i < |cuSampled| => cuSampled[i] - 1);
      assert bonus == Bonus(drafts, |drafts|);

      DraftsFit(drafts, |drafts|);
      var cuDrafts := GetCumsumAndArange(drafts, arangeScratch);
      var sampledStarts := Minus(cuSampled, sampled);
      OffsetsFromTotals(sampled);
      var target := AddScratch(sampledStarts, drafts);

      var rows := DraftIds(cu, drafts, scheduled, logits, target);
      m := Metadata(rows, drafts, cuDrafts, cuSampled, target, bonus, logits);
      forall i | 0 <= i < |drafts|
        ensures RequestMeaning(m, drafts, cu, inputIds[..], i)
      {
        MeaningAt(m, drafts, cu, scheduled, inputIds[..], i);
      }
    }

    /** input_ids[logits][target + 1]. */
    method DraftIds(cu: seq<int>, drafts: seq<nat>, ghost scheduled: seq<nat>, logits: seq<int>, target: seq<int>)
      returns (ids: seq<int>)
      requires Scheduled(cu, scheduled, drafts) && Sum(scheduled, |scheduled|) <= inputIds.Length
      requires logits == LogitsRows(cu, drafts) && target == Runs(Starts(Sampled(drafts)), drafts, |drafts|)
      ensures |ids| == |DraftRows(cu, drafts)|
      ensures forall k :: 0 <= k < |ids| ==>
                0 <= DraftRows(cu, drafts)[k] < inputIds.Length && ids[k] == inputIds[DraftRows(cu, drafts)[k]]
    {
      forall p | 0 <= p < |logits|
        ensures 0 <= logits[p] < inputIds.Length
      {
        var i := LogitsRowsInRange(cu, scheduled, drafts, p);
      }
      var gathered := seq(|logits|, p requires 0 <= p < |logits| reads inputIds => inputIds[logits[p]]);
      forall k | 0 <= k < |target|
        ensures 0 <= target[k] && target[k] + 1 < |logits| && logits[target[k] + 1] == DraftRows(cu, drafts)[k]
      {
        DraftRowsFollowTargets(cu, drafts, k);
      }
      ids := seq(|target|, k requires 0 <= k < |target| => gathered[target[k] + 1]);
    }
  }

  lemma {:induction false} DraftsFit(drafts: seq<nat>, n: nat)
    requires n <= |drafts|
    ensures Sum(drafts, n) <= Sum(Sampled(drafts), n)
  {
    if n > 0 {
      DraftsFit(drafts, n - 1);
    }
  }
}
