/**
  Running totals of the confidence scheduler (DSparkDiagnostics of dspark.py). The fields are
  specified by the log of all observed requests: each request's confidence row and scheduled length.
 */
module Diagnostics {
  import opened Wrappers
  import opened PrefixValue

  datatype Observation = Observation(row: seq<real>, length: int)

  datatype ObserveError =
    | RowCountMismatch
    | RowTooLong(request: nat)
    | LengthInvalid(request: nat)
    | BadConfidence(request: nat)

  predicate Fits(x: Observation, max: nat) {
    0 <= x.length <= |x.row| <= max
  }

  predicate AllFit(log: seq<Observation>, max: nat) {
    forall i :: 0 <= i < |log| ==> Fits(log[i], max)
  }

  predicate WellFormed(x: Observation, max: nat) {
    Fits(x, max) && ValidRow(x.row)
  }

  predicate AllWellFormed(log: seq<Observation>, max: nat) {
    forall i :: 0 <= i < |log| ==> WellFormed(log[i], max)
  }

  // ---- What the log determines ----

  function One(b: bool): nat {
    if b then 1 else 0
  }

  /** Requests scheduled with exactly k draft tokens. */
  function WithLength(log: seq<Observation>, k: nat): nat {
    if log == [] then 0 else WithLength(log[..|log| - 1], k) + One(log[|log| - 1].length == k)
  }

  /** Requests with a confidence at position p. */
  function WithConfidence(log: seq<Observation>, p: nat): nat {
    if log == [] then 0 else WithConfidence(log[..|log| - 1], p) + One(p < |log[|log| - 1].row|)
  }

  /** Requests scheduled beyond position p. */
  function Beyond(log: seq<Observation>, p: nat): nat {
    if log == [] then 0 else Beyond(log[..|log| - 1], p) + One(p < log[|log| - 1].length)
  }

  function At(row: seq<real>, p: nat): real {
    if p < |row| then row[p] else 0.0
  }

  function ConfidenceSum(log: seq<Observation>, p: nat): real {
    if log == [] then 0.0 else ConfidenceSum(log[..|log| - 1], p) + At(log[|log| - 1].row, p)
  }

  function SurvivalSum(log: seq<Observation>, p: nat): real {
    if log == [] then 0.0 else SurvivalSum(log[..|log| - 1], p) + At(Survivals(log[|log| - 1].row), p)
  }

  function Scheduled(log: seq<Observation>): int {
    if log == [] then 0 else Scheduled(log[..|log| - 1]) + log[|log| - 1].length
  }

  function Possible(log: seq<Observation>): nat {
    if log == [] then 0 else Possible(log[..|log| - 1]) + |log[|log| - 1].row|
  }

  /** The observations of the first n requests of one call. */
  function Batch(rows: seq<seq<real>>, lengths: seq<int>, n: nat): (log: seq<Observation>)
    requires n <= |rows| && n <= |lengths|
    ensures |log| == n && forall i :: 0 <= i < n ==> log[i] == Observation(rows[i], lengths[i])
  {
    seq(n, i requires 0 <= i < n => Observation(rows[i], lengths[i]))
  }

  lemma BatchNext(rows: seq<seq<real>>, lengths: seq<int>, n: nat)
    requires n < |rows| && n < |lengths|
    ensures Batch(rows, lengths, n + 1) == Batch(rows, lengths, n) + [Observation(rows[n], lengths[n])]
  {
  }

  /** What one more request adds to each table. */
  lemma LogNext(log: seq<Observation>, x: Observation)
    ensures forall k: nat :: WithLength(log + [x], k) == WithLength(log, k) + One(x.length == k)
    ensures forall p: nat :: WithConfidence(log + [x], p) == WithConfidence(log, p) + One(p < |x.row|)
    ensures forall p: nat :: Beyond(log + [x], p) == Beyond(log, p) + One(p < x.length)
    ensures forall p: nat :: ConfidenceSum(log + [x], p) == ConfidenceSum(log, p) + At(x.row, p)
    ensures forall p: nat :: SurvivalSum(log + [x], p) == SurvivalSum(log, p) + At(Survivals(x.row), p)
    ensures Scheduled(log + [x]) == Scheduled(log) + x.length
    ensures Possible(log + [x]) == Possible(log) + |x.row|
  {
    assert (log + [x])[..|log|] == log;
  }

  /** Logs of successive calls add up. */
  lemma {:induction false} LogAppend(log: seq<Observation>, more: seq<Observation>)
    ensures forall k: nat :: WithLength(log + more, k) == WithLength(log, k) + WithLength(more, k)
    ensures forall p: nat :: WithConfidence(log + more, p) == WithConfidence(log, p) + WithConfidence(more, p)
    ensures forall p: nat :: Beyond(log + more, p) == Beyond(log, p) + Beyond(more, p)
    ensures forall p: nat :: ConfidenceSum(log + more, p) == ConfidenceSum(log, p) + ConfidenceSum(more, p)
    ensures forall p: nat :: SurvivalSum(log + more, p) == SurvivalSum(log, p) + SurvivalSum(more, p)
    ensures Scheduled(log + more) == Scheduled(log) + Scheduled(more)
    ensures Possible(log + more) == Possible(log) + Possible(more)
  {
    if more == [] {
      assert log + more == log;
    } else {
      var init, x := more[..|more| - 1], more[|more| - 1];
      LogAppend(log, init);
      assert log + more == (log + init) + [x] && more == init + [x];
      LogNext(log + init, x);
      LogNext(init, x);
    }
  }

  // ---- Conservation ----

  /** Sum of the first n entries of a table. */
  function TableSum(t: seq<nat>, n: nat): nat
    requires n <= |t|
  {
    if n == 0 then 0 else TableSum(t, n - 1) + t[n - 1]
  }

  /** Sum of k * t[k] over the first n entries of a table. */
  function Weighted(t: seq<nat>, n: nat): nat
    requires n <= |t|
  {
    if n == 0 then 0 else Weighted(t, n - 1) + (n - 1) * t[n - 1]
  }

  predicate IsHistogram(hist: seq<nat>, log: seq<Observation>) {
    forall k :: 0 <= k < |hist| ==> hist[k] == WithLength(log, k)
  }

  predicate IsScheduledTable(counts: seq<nat>, log: seq<Observation>) {
    forall p :: 0 <= p < |counts| ==> counts[p] == Beyond(log, p)
  }

  predicate IsConfidenceTable(counts: seq<nat>, log: seq<Observation>) {
    forall p :: 0 <= p < |counts| ==> counts[p] == WithConfidence(log, p)
  }

  function ScheduledTable(log: seq<Observation>, max: nat): (t: seq<nat>)
    ensures |t| == max && IsScheduledTable(t, log)
  {
    seq(max, p requires 0 <= p < max => Beyond(log, p))
  }

  function ConfidenceTable(log: seq<Observation>, max: nat): (t: seq<nat>)
    ensures |t| == max && IsConfidenceTable(t, log)
  {
    seq(max, p requires 0 <= p < max => WithConfidence(log, p))
  }

  lemma {:induction false} BeyondSteps(log: seq<Observation>, max: nat, p: nat)
    requires AllFit(log, max)
    ensures Beyond(log, p) == Beyond(log, p + 1) + WithLength(log, p + 1)
    ensures Beyond(log, 0) + WithLength(log, 0) == |log|
    ensures Beyond(log, p) <= WithConfidence(log, p)
    ensures WithConfidence(log, p + 1) <= WithConfidence(log, p)
    ensures p >= max ==> Beyond(log, p) == 0
  {
    if log != [] {
      BeyondSteps(log[..|log| - 1], max, p);
    }
  }

  /** The histogram counts every request once. */
  lemma {:induction false} HistogramTotal(hist: seq<nat>, log: seq<Observation>, max: nat, n: nat)
    requires AllFit(log, max) && IsHistogram(hist, log) && 0 < n <= |hist|
    ensures TableSum(hist, n) == |log| - Beyond(log, n - 1)
  {
    BeyondSteps(log, max, if n == 1 then 0 else n - 2);
    if n == 1 {
      assert TableSum(hist, n) == TableSum(hist, 0) + hist[0];
    } else {
      HistogramTotal(hist, log, max, n - 1);
    }
  }

  /** Summation by parts between the histogram and its tail counts. */
  lemma {:induction false} HistogramWeight(hist: seq<nat>, counts: seq<nat>, log: seq<Observation>, max: nat, n: nat)
    requires AllFit(log, max) && IsHistogram(hist, log) && IsScheduledTable(counts, log)
    requires n < |hist| && n <= |counts|
    ensures Weighted(hist, n + 1) == TableSum(counts, n) - n * Beyond(log, n)
  {
    if n > 0 {
      HistogramWeight(hist, counts, log, max, n - 1);
      BeyondSteps(log, max, n - 1);
      ByParts(n, Beyond(log, n), WithLength(log, n));
    } else {
      assert Weighted(hist, 1) == Weighted(hist, 0) + 0 * hist[0];
    }
  }

  lemma ByParts(n: nat, b: nat, w: nat)
    requires n > 0
    ensures n * w - (n - 1) * (b + w) == b + w - n * b
  {
    assert (n - 1) * (b + w) == n * b + n * w - (b + w);
  }

  /** The entries of one table row: how far each request reaches into the first n positions. */
  lemma {:induction false} ScheduledTotal(log: seq<Observation>, max: nat)
    requires AllFit(log, max)
    ensures TableSum(ScheduledTable(log, max), max) == Scheduled(log)
  {
    if log == [] {
      ZeroTable(ScheduledTable(log, max), max);
    } else {
      var init, x := log[..|log| - 1], log[|log| - 1];
      assert log == init + [x];
      ScheduledTotal(init, max);
      LogNext(init, x);
      TablesAdd(ScheduledTable(init, max), ScheduledTable(log, max), x.length, max);
    }
  }

  lemma {:induction false} PossibleTotal(log: seq<Observation>, max: nat)
    requires AllFit(log, max)
    ensures TableSum(ConfidenceTable(log, max), max) == Possible(log)
  {
    if log == [] {
      ZeroTable(ConfidenceTable(log, max), max);
    } else {
      var init, x := log[..|log| - 1], log[|log| - 1];
      assert log == init + [x];
      PossibleTotal(init, max);
      LogNext(init, x);
      TablesAdd(ConfidenceTable(init, max), ConfidenceTable(log, max), |x.row|, max);
    }
  }

  lemma {:induction false} ZeroTable(t: seq<nat>, n: nat)
    requires n <= |t| && forall p :: 0 <= p < |t| ==> t[p] == 0
    ensures TableSum(t, n) == 0
  {
    if n > 0 {
      ZeroTable(t, n - 1);
    }
  }

  lemma {:induction false} TablesAdd(before: seq<nat>, after: seq<nat>, reach: nat, n: nat)
    requires n <= |before| == |after|
    requires forall p :: 0 <= p < |before| ==> after[p] == before[p] + One(p < reach)
    ensures TableSum(after, n) == TableSum(before, n) + if n < reach then n else reach
  {
    if n > 0 {
      TablesAdd(before, after, reach, n - 1);
    }
  }

  lemma Totals(hist: seq<nat>, scheduledCounts: seq<nat>, confidenceCounts: seq<nat>, log: seq<Observation>, max: nat)
    requires AllFit(log, max)
    requires |hist| == max + 1 && |scheduledCounts| == |confidenceCounts| == max
    requires IsHistogram(hist, log) && IsScheduledTable(scheduledCounts, log)
             && IsConfidenceTable(confidenceCounts, log)
    ensures TableSum(hist, max + 1) == |log|
    ensures Weighted(hist, max + 1) == TableSum(scheduledCounts, max) == Scheduled(log)
    ensures TableSum(confidenceCounts, max) == Possible(log)
  {
    BeyondSteps(log, max, max);
    ScheduledTotal(log, max);
    PossibleTotal(log, max);
    assert scheduledCounts == ScheduledTable(log, max);
    assert confidenceCounts == ConfidenceTable(log, max);
    hide TableSum, Weighted, Beyond, WithConfidence, WithLength, IsHistogram, IsScheduledTable, IsConfidenceTable;
    HistogramTotal(hist, log, max, max + 1);
    HistogramWeight(hist, scheduledCounts, log, max, max);
  }

  /**
    Conservation for tables of one log: the histogram counts each request once, weighs to the
    scheduled total, is the difference of the scheduled counts, and never exceeds what was offered.
   */
  lemma Conservation(hist: seq<nat>, scheduledCounts: seq<nat>, confidenceCounts: seq<nat>, log: seq<Observation>,
                     max: nat)
    requires AllFit(log, max)
    requires |hist| == max + 1 && |scheduledCounts| == |confidenceCounts| == max
    requires IsHistogram(hist, log) && IsScheduledTable(scheduledCounts, log)
             && IsConfidenceTable(confidenceCounts, log)
    ensures TableSum(hist, max + 1) == |log|
    ensures Weighted(hist, max + 1) == TableSum(scheduledCounts, max) == Scheduled(log)
    ensures TableSum(confidenceCounts, max) == Possible(log)
    ensures forall p :: 0 <= p < max ==> scheduledCounts[p] <= confidenceCounts[p]
    ensures forall p :: 0 <= p && p + 1 < max ==> scheduledCounts[p] == scheduledCounts[p + 1] + hist[p + 1]
    ensures forall p :: 0 <= p && p + 1 < max ==> confidenceCounts[p + 1] <= confidenceCounts[p]
  {
    Totals(hist, scheduledCounts, confidenceCounts, log, max);
    hide TableSum, Weighted;
    forall p | 0 <= p < max
      ensures scheduledCounts[p] <= confidenceCounts[p]
      ensures p + 1 < max ==> scheduledCounts[p] == scheduledCounts[p + 1] + hist[p + 1]
      ensures p + 1 < max ==> confidenceCounts[p + 1] <= confidenceCounts[p]
    {
      BeyondSteps(log, max, p);
    }
  }

  lemma {:induction false} ScheduledAtMostPossible(log: seq<Observation>, max: nat)
    requires AllFit(log, max)
    ensures 0 <= Scheduled(log) <= Possible(log)
  {
    if log != [] {
      ScheduledAtMostPossible(log[..|log| - 1], max);
    }
  }

  // ---- The accumulator ----

  datatype Tables = Tables(
    histogram: seq<nat>,
    confidenceSums: seq<real>,
    confidenceCounts: seq<nat>,
    survivalSums: seq<real>,
    survivalCounts: seq<nat>,
    scheduledCounts: seq<nat>)

  predicate Sized(t: Tables, max: nat) {
    && |t.histogram| == max + 1
    && |t.confidenceSums| == |t.confidenceCounts| == |t.survivalSums| == |t.survivalCounts| == |t.scheduledCounts|
       == max
  }

  function Zero(max: nat): (t: Tables)
    ensures Sized(t, max)
  {
    var counts: seq<nat>, sums: seq<real> := seq(max, _ => 0), seq(max, _ => 0.0);
    Tables(seq(max + 1, _ => 0), sums, counts, sums, counts, counts)
  }

  /** Nothing has been counted. */
  predicate Empty(t: Tables) {
    && (forall k :: 0 <= k < |t.histogram| ==> t.histogram[k] == 0)
    && (forall p :: 0 <= p < |t.confidenceSums| ==> t.confidenceSums[p] == 0.0)
    && (forall p :: 0 <= p < |t.confidenceCounts| ==> t.confidenceCounts[p] == 0)
    && (forall p :: 0 <= p < |t.survivalSums| ==> t.survivalSums[p] == 0.0)
    && (forall p :: 0 <= p < |t.survivalCounts| ==> t.survivalCounts[p] == 0)
    && (forall p :: 0 <= p < |t.scheduledCounts| ==> t.scheduledCounts[p] == 0)
  }

  predicate HistogramAdds(before: Tables, after: Tables, log: seq<Observation>, max: nat)
    requires Sized(before, max) && Sized(after, max)
  {
    forall k :: 0 <= k <= max ==> after.histogram[k] == before.histogram[k] + WithLength(log, k)
  }

  predicate PositionsAdd(before: Tables, after: Tables, log: seq<Observation>, max: nat)
    requires Sized(before, max) && Sized(after, max)
  {
    forall p :: 0 <= p < max ==>
      && after.confidenceSums[p] == before.confidenceSums[p] + ConfidenceSum(log, p)
      && after.confidenceCounts[p] == before.confidenceCounts[p] + WithConfidence(log, p)
      && after.survivalSums[p] == before.survivalSums[p] + SurvivalSum(log, p)
      && after.survivalCounts[p] == before.survivalCounts[p] + WithConfidence(log, p)
      && after.scheduledCounts[p] == before.scheduledCounts[p] + Beyond(log, p)
  }

  /** The same tables, one request later, with its first n positions counted. */
  predicate Counted(before: Tables, after: Tables, x: Observation, n: nat, max: nat)
    requires Sized(before, max) && Sized(after, max) && n <= |x.row| <= max
  {
    forall p :: 0 <= p < max ==>
      && after.confidenceSums[p] == before.confidenceSums[p] + (if p < n then At(x.row, p) else 0.0)
      && after.confidenceCounts[p] == before.confidenceCounts[p] + (if p < n then 1 else 0)
      && after.survivalSums[p] == before.survivalSums[p] + (if p < n then At(Survivals(x.row), p) else 0.0)
      && after.survivalCounts[p] == before.survivalCounts[p] + (if p < n then 1 else 0)
      && after.scheduledCounts[p] == before.scheduledCounts[p] + (if p < n && p < x.length then 1 else 0)
  }

  lemma OneMoreLength(before: Tables, now: Tables, after: Tables, log: seq<Observation>, x: Observation, max: nat)
    requires Sized(before, max) && Sized(now, max) && Sized(after, max) && 0 <= x.length <= max
    requires HistogramAdds(before, now, log, max)
    requires after.histogram == now.histogram[x.length := now.histogram[x.length] + 1]
    ensures HistogramAdds(before, after, log + [x], max)
  {
    LogNext(log, x);
  }

  lemma OneMoreRow(before: Tables, now: Tables, after: Tables, log: seq<Observation>, x: Observation, max: nat)
    requires Sized(before, max) && Sized(now, max) && Sized(after, max) && x.length <= |x.row| <= max
    requires PositionsAdd(before, now, log, max) && Counted(now, after, x, |x.row|, max)
    ensures PositionsAdd(before, after, log + [x], max)
  {
    LogNext(log, x);
  }

  lemma NothingAdded(t: Tables, max: nat)
    requires Sized(t, max)
    ensures HistogramAdds(t, t, [], max) && PositionsAdd(t, t, [], max)
  {
  }

  /** How many lengths, and how many whole rows, a failed call has counted. */
  function LengthsCounted(error: ObserveError): nat {
    match error
    case RowCountMismatch => 0
    case RowTooLong(i) => i
    case LengthInvalid(i) => i
    case BadConfidence(i) => i + 1
  }

  function RowsCounted(error: ObserveError): nat {
    match error
    case RowCountMismatch => 0
    case RowTooLong(i) => i
    case LengthInvalid(i) => i
    case BadConfidence(i) => i
  }

  /** The error is the one of the first offending request, and exactly what precedes it has been counted. */
  predicate StoppedAt(error: ObserveError, rows: seq<seq<real>>, lengths: seq<int>, before: Tables, after: Tables,
                      max: nat)
    requires |rows| == |lengths| && Sized(before, max) && Sized(after, max)
  {
    var i := RowsCounted(error);
    && !error.RowCountMismatch?
    && i < |rows| && AllWellFormed(Batch(rows, lengths, i), max)
    && (error.RowTooLong? <==> |rows[i]| > max)
    && (error.LengthInvalid? <==> |rows[i]| <= max && !(0 <= lengths[i] <= |rows[i]|))
    && (error.BadConfidence? ==> !ValidRow(rows[i]))
    && HistogramAdds(before, after, Batch(rows, lengths, LengthsCounted(error)), max)
    && PositionsAdd(before, after, Batch(rows, lengths, i), max)
  }

  // ---- What the requests of a call add, one by one ----

  /**
    One request: its length is counted once in the histogram, and each of its positions p once in both counts,
    with its confidence and the product of the confidences up to p added to the sums, and as scheduled if p is below
    its length. Positions beyond the row keep their entries.
   */
  predicate RequestAdds(a: Tables, b: Tables, row: seq<real>, length: int, max: nat) {
    && Sized(a, max) && Sized(b, max) && 0 <= length <= |row| <= max
    && b.histogram == a.histogram[length := a.histogram[length] + 1]
    && (forall p :: 0 <= p < |row| ==> PositionAdds(a, b, row, length, max, p))
    && b.confidenceSums[|row|..] == a.confidenceSums[|row|..]
    && b.confidenceCounts[|row|..] == a.confidenceCounts[|row|..]
    && b.survivalSums[|row|..] == a.survivalSums[|row|..]
    && b.survivalCounts[|row|..] == a.survivalCounts[|row|..]
    && b.scheduledCounts[|row|..] == a.scheduledCounts[|row|..]
  }

  /** The product up to p is the product up to p - 1 times the confidence at p. */
  predicate PositionAdds(a: Tables, b: Tables, row: seq<real>, length: int, max: nat, p: nat)
    requires Sized(a, max) && Sized(b, max) && p < |row| <= max
  {
    && b.confidenceSums[p] == a.confidenceSums[p] + row[p]
    && b.confidenceCounts[p] == a.confidenceCounts[p] + 1
    && b.survivalSums[p] - a.survivalSums[p]
       == (if p == 0 then row[0] else (b.survivalSums[p - 1] - a.survivalSums[p - 1]) * row[p])
    && b.survivalCounts[p] == a.survivalCounts[p] + 1
    && b.scheduledCounts[p] == a.scheduledCounts[p] + (if p < length then 1 else 0)
  }

  /** trace[i] holds the tables after the first i of n requests. */
  predicate Traces(trace: seq<Tables>, rows: seq<seq<real>>, lengths: seq<int>, n: nat, max: nat) {
    && n <= |rows| == |lengths| && |trace| == n + 1
    && forall i :: 0 <= i < n ==> RequestAdds(trace[i], trace[i + 1], rows[i], lengths[i], max)
  }

  /**
    A call that ends without an error has added every request; one that stops at request i has added those
    before i and, when a confidence of request i was bad, the length of request i.
   */
  predicate TalliedTo(error: Option<ObserveError>, trace: seq<Tables>, before: Tables, after: Tables,
                      rows: seq<seq<real>>, lengths: seq<int>, max: nat) {
    && trace != [] && trace[0] == before
    && match error
       case None => Traces(trace, rows, lengths, |rows|, max) && trace[|trace| - 1] == after
       case Some(RowCountMismatch) => after == before
       case Some(RowTooLong(i)) => Traces(trace, rows, lengths, i, max) && trace[|trace| - 1] == after
       case Some(LengthInvalid(i)) => Traces(trace, rows, lengths, i, max) && trace[|trace| - 1] == after
       case Some(BadConfidence(i)) =>
         var last := trace[|trace| - 1];
         && Traces(trace, rows, lengths, i, max) && i < |rows|
         && 0 <= lengths[i] < |last.histogram|
         && after == last.(histogram := last.histogram[lengths[i] := last.histogram[lengths[i]] + 1])
  }

  lemma NothingTallied(t: Tables, rows: seq<seq<real>>, lengths: seq<int>, max: nat)
    ensures TalliedTo(Some(RowCountMismatch), [t], t, t, rows, lengths, max)
  {
  }

  lemma RequestCounted(a: Tables, counted: Tables, b: Tables, x: Observation, max: nat)
    requires Sized(a, max) && Sized(counted, max) && Sized(b, max) && Fits(x, max)
    requires counted == a.(histogram := a.histogram[x.length := a.histogram[x.length] + 1])
    requires b.histogram == counted.histogram && Counted(counted, b, x, |x.row|, max)
    ensures RequestAdds(a, b, x.row, x.length, max)
  {
    forall p | 0 <= p < |x.row|
      ensures PositionAdds(a, b, x.row, x.length, max, p)
    {
      assert Survival(x.row, p + 1) == Survival(x.row, p) * x.row[p];
      assert Survival(x.row, 0) == 1.0;
    }
  }

  class SchedulerDiagnostics {
    const max: nat
    var numSteps: nat
    var numRequests: nat
    var numPossibleDraftTokens: nat
    var numScheduledDraftTokens: int
    var totalExpectedAcceptedTokens: real
    var totalExpectedTokensPerSecond: real
    var tables: Tables
    ghost var log: seq<Observation>

    predicate Valid() reads this {
      Sized(tables, max)
    }

    /** Every field is the one the log determines. */
    ghost predicate Consistent() reads this {
      && Sized(tables, max)
      && AllWellFormed(log, max)
      && numRequests == |log|
      && numPossibleDraftTokens == Possible(log)
      && numScheduledDraftTokens == Scheduled(log)
      && HistogramAdds(Zero(max), tables, log, max)
      && PositionsAdd(Zero(max), tables, log, max)
    }

    predicate Agreeing() reads this {
      Sized(tables, max) && Agree(tables, max, numRequests, numPossibleDraftTokens, numScheduledDraftTokens)
    }

    /** Requests announced but missing from the histogram. */
    function MissingRequests(): int
      requires Valid()
      reads this
    {
      numRequests - TableSum(tables.histogram, max + 1)
    }

    /** Draft tokens announced but missing from the confidence counts. */
    function MissingTokens(): int
      requires Valid()
      reads this
    {
      numPossibleDraftTokens - TableSum(tables.confidenceCounts, max)
    }

    constructor (max: nat)
      requires max > 0
      ensures this.max == max && Consistent() && log == [] && numSteps == 0
      ensures totalExpectedAcceptedTokens == 0.0 && totalExpectedTokensPerSecond == 0.0
      ensures numRequests == numPossibleDraftTokens == numScheduledDraftTokens == 0 && Empty(tables)
    {
      this.max := max;
      numSteps, numRequests, numPossibleDraftTokens, numScheduledDraftTokens := 0, 0, 0, 0;
      totalExpectedAcceptedTokens, totalExpectedTokensPerSecond := 0.0, 0.0;
      tables := Zero(max);
      log := [];
      new;
      NothingAdded(Zero(max), max);
    }

    /** Adds the confidences and survivals of one request to the positional tables. */
    method CountPositions(x: Observation, survivals: seq<real>)
      requires Valid() && |x.row| <= max && survivals == Survivals(x.row)
      modifies this`tables
      ensures Valid() && tables.histogram == old(tables.histogram)
      ensures Counted(old(tables), tables, x, |x.row|, max)
    {
      hide Survivals;
      for position := 0 to |x.row|
        invariant Valid() && tables.histogram == old(tables.histogram)
        invariant Counted(old(tables), tables, x, position, max)
      {
        var t := tables;
        tables := t.(
          confidenceSums := t.confidenceSums[position := t.confidenceSums[position] + x.row[position]],
          confidenceCounts := t.confidenceCounts[position := t.confidenceCounts[position] + 1],
          survivalSums := t.survivalSums[position := t.survivalSums[position] + survivals[position]],
          survivalCounts := t.survivalCounts[position := t.survivalCounts[position] + 1],
          scheduledCounts := if position < x.length then t.scheduledCounts[position := t.scheduledCounts[position] + 1]
                             else t.scheduledCounts);
      }
    }

    /**
      The loop of observe: on success every request is tallied. On an error the requests before the
      offending one stay tallied, and a bad confidence is found only after its length was counted.
     */
    method Tally(rows: seq<seq<real>>, lengths: seq<int>)
      returns (error: Option<ObserveError>, ghost trace: seq<Tables>)
      requires Valid() && |rows| == |lengths|
      modifies this`tables
      ensures Valid()
      ensures error.None? <==> AllWellFormed(Batch(rows, lengths, |rows|), max)
      ensures error.None? ==> var batch := Batch(rows, lengths, |rows|);
                HistogramAdds(old(tables), tables, batch, max) && PositionsAdd(old(tables), tables, batch, max)
      ensures error.Some? ==> !error.value.RowCountMismatch?
      ensures error.Some? ==> StoppedAt(error.value, rows, lengths, old(tables), tables, max)
      ensures TalliedTo(error, trace, old(tables), tables, rows, lengths, max)
    {
      hide HistogramAdds, PositionsAdd, Counted, Survivals, RequestAdds;
      NothingAdded(tables, max);
      ghost var before := tables;
      trace := [tables];
      for i := 0 to |rows|
        invariant Valid() && AllWellFormed(Batch(rows, lengths, i), max)
        invariant HistogramAdds(before, tables, Batch(rows, lengths, i), max)
        invariant PositionsAdd(before, tables, Batch(rows, lengths, i), max)
        invariant Traces(trace, rows, lengths, i, max) && trace[0] == before && trace[i] == tables
      {
        var row, length := rows[i], lengths[i];
        ghost var x, now := Observation(row, length), tables;
        if |row| > max {
          assert !WellFormed(Batch(rows, lengths, |rows|)[i], max);
          return Some(RowTooLong(i)), trace;
        }
        if length < 0 || length > |row| {
          assert !WellFormed(Batch(rows, lengths, |rows|)[i], max);
          return Some(LengthInvalid(i)), trace;
        }
        tables := tables.(histogram := tables.histogram[length := tables.histogram[length] + 1]);
        BatchNext(rows, lengths, i);
        OneMoreLength(before, now, tables, Batch(rows, lengths, i), x, max);
        SamePositions(before, now, tables, Batch(rows, lengths, i), max);
        var survivals := CumulativeSurvival(row);
        if survivals.Failure? {
          assert !WellFormed(Batch(rows, lengths, |rows|)[i], max);
          return Some(BadConfidence(i)), trace;
        }
        ghost var counted := tables;
        CountPositions(Observation(row, length), survivals.value);
        SameHistogram(before, counted, tables, Batch(rows, lengths, i + 1), max);
        OneMoreRow(before, counted, tables, Batch(rows, lengths, i), x, max);
        RequestCounted(now, counted, tables, x, max);
        trace := trace + [tables];
      }
      return None, trace;
    }

    /**
      A row-count mismatch changes nothing. Otherwise the call keeps the totals in agreement exactly when
      the whole batch is well formed: a later error has announced requests or tokens it does not count,
      and no later call makes up for them.
     */
    method Observe(rows: seq<seq<real>>, result: ScheduleResult)
      returns (error: Option<ObserveError>, ghost trace: seq<Tables>)
      requires Valid()
      modifies this
      ensures Valid()
      ensures error == Some(RowCountMismatch) <==> |rows| != |result.lengths|
      ensures error.None? <==> |rows| == |result.lengths| && AllWellFormed(Batch(rows, result.lengths, |rows|), max)
      ensures |rows| != |result.lengths| ==> unchanged(this)
      ensures |rows| == |result.lengths| ==>
                && numSteps == old(numSteps) + 1 && numRequests == old(numRequests) + |rows|
                && numPossibleDraftTokens == old(numPossibleDraftTokens) + Possible(Batch(rows, result.lengths, |rows|))
                && numScheduledDraftTokens
                   == old(numScheduledDraftTokens) + Scheduled(Batch(rows, result.lengths, |rows|))
                && totalExpectedAcceptedTokens == old(totalExpectedAcceptedTokens) + result.expectedAcceptedTokens
                && totalExpectedTokensPerSecond == old(totalExpectedTokensPerSecond) + result.expectedTokensPerSecond
      ensures error.None? && old(Consistent()) ==> Consistent() && log == old(log) + Batch(rows, result.lengths, |rows|)
      ensures error.Some? && |rows| == |result.lengths| ==>
                log == old(log) && StoppedAt(error.value, rows, result.lengths, old(tables), tables, max)
      ensures TalliedTo(error, trace, old(tables), tables, rows, result.lengths, max)
      ensures MissingRequests() >= old(MissingRequests()) && MissingTokens() >= old(MissingTokens())
      ensures |rows| == |result.lengths| ==>
                (MissingRequests() == old(MissingRequests()) && MissingTokens() == old(MissingTokens())
                 <==> AllWellFormed(Batch(rows, result.lengths, |rows|), max))
      ensures |rows| == |result.lengths| && old(Consistent()) ==>
                (Agreeing() <==> AllWellFormed(Batch(rows, result.lengths, |rows|), max))
    {
      hide HistogramAdds, PositionsAdd, TableSum, Weighted, Agree, Zero, Scheduled, Possible, StoppedAt, WellFormed,
           TalliedTo;
      if |rows| != |result.lengths| {
        NothingTallied(tables, rows, result.lengths, max);
        return Some(RowCountMismatch), [tables];
      }
      ghost var batch := Batch(rows, result.lengths, |rows|);
      Announce(rows, result);
      ghost var before := tables;
      error, trace := Tally(rows, result.lengths);
      if error.None? {
        Join(Zero(max), before, tables, log, batch, max);
        LogAppend(log, batch);
        log := log + batch;
        AllFitBatch(batch, max);
        HistogramGrows(before, tables, batch, max);
        ConfidencesGrow(before, tables, batch, max);
      } else {
        FailedCallUndercounts(error.value, rows, result.lengths, before, tables, max);
      }
      if old(Consistent()) {
        MissingNothing(before, old(log), old(numRequests), old(numPossibleDraftTokens), max);
        AgreementMissesNothing(tables, max, numRequests, numPossibleDraftTokens, numScheduledDraftTokens);
        if error.None? {
          TotalsAgree(this);
        }
      }
    }

    /** The scalar totals, advanced by the whole batch before any request is looked at. */
    method Announce(rows: seq<seq<real>>, result: ScheduleResult)
      requires |rows| == |result.lengths|
      modifies this`numSteps, this`numRequests, this`numPossibleDraftTokens, this`numScheduledDraftTokens,
               this`totalExpectedAcceptedTokens, this`totalExpectedTokensPerSecond
      ensures numSteps == old(numSteps) + 1 && numRequests == old(numRequests) + |rows|
      ensures numPossibleDraftTokens == old(numPossibleDraftTokens) + Possible(Batch(rows, result.lengths, |rows|))
      ensures numScheduledDraftTokens == old(numScheduledDraftTokens) + Scheduled(Batch(rows, result.lengths, |rows|))
      ensures totalExpectedAcceptedTokens == old(totalExpectedAcceptedTokens) + result.expectedAcceptedTokens
      ensures totalExpectedTokensPerSecond == old(totalExpectedTokensPerSecond) + result.expectedTokensPerSecond
    {
      numSteps := numSteps + 1;
      numRequests := numRequests + |rows|;
      var possible, scheduled := SumTokens(rows, result.lengths);
      numPossibleDraftTokens := numPossibleDraftTokens + possible;
      numScheduledDraftTokens := numScheduledDraftTokens + scheduled;
      totalExpectedAcceptedTokens := totalExpectedAcceptedTokens + result.expectedAcceptedTokens;
      totalExpectedTokensPerSecond := totalExpectedTokensPerSecond + result.expectedTokensPerSecond;
    }
  }

  method SumTokens(rows: seq<seq<real>>, lengths: seq<int>) returns (possible: nat, scheduled: int)
    requires |rows| == |lengths|
    ensures possible == Possible(Batch(rows, lengths, |rows|)) && scheduled == Scheduled(Batch(rows, lengths, |rows|))
  {
    possible, scheduled := 0, 0;
    for i := 0 to |rows|
      invariant possible == Possible(Batch(rows, lengths, i)) && scheduled == Scheduled(Batch(rows, lengths, i))
    {
      BatchNext(rows, lengths, i);
      LogNext(Batch(rows, lengths, i), Observation(rows[i], lengths[i]));
      possible, scheduled := possible + |rows[i]|, scheduled + lengths[i];
    }
  }

  lemma SamePositions(before: Tables, now: Tables, after: Tables, log: seq<Observation>, max: nat)
    requires Sized(before, max) && Sized(now, max) && Sized(after, max) && PositionsAdd(before, now, log, max)
    requires after == now.(histogram := after.histogram)
    ensures PositionsAdd(before, after, log, max)
  {
  }

  lemma SameHistogram(before: Tables, now: Tables, after: Tables, log: seq<Observation>, max: nat)
    requires Sized(before, max) && Sized(now, max) && Sized(after, max) && HistogramAdds(before, now, log, max)
    requires after.histogram == now.histogram
    ensures HistogramAdds(before, after, log, max)
  {
  }

  lemma Join(zero: Tables, before: Tables, after: Tables, log: seq<Observation>, batch: seq<Observation>, max: nat)
    requires Sized(zero, max) && Sized(before, max) && Sized(after, max)
    requires HistogramAdds(before, after, batch, max) && PositionsAdd(before, after, batch, max)
    ensures HistogramAdds(zero, before, log, max) ==> HistogramAdds(zero, after, log + batch, max)
    ensures PositionsAdd(zero, before, log, max) ==> PositionsAdd(zero, after, log + batch, max)
  {
    LogAppend(log, batch);
  }

  // ---- When the totals agree ----

  /** The totals of one state agree with each other. */
  predicate Agree(t: Tables, max: nat, requests: nat, possible: nat, scheduled: int)
    requires Sized(t, max)
  {
    && TableSum(t.histogram, max + 1) == requests
    && Weighted(t.histogram, max + 1) == TableSum(t.scheduledCounts, max) == scheduled
    && TableSum(t.confidenceCounts, max) == possible
    && 0 <= scheduled <= possible
    && t.survivalCounts == t.confidenceCounts
    && (forall p :: 0 <= p < max ==> t.scheduledCounts[p] <= t.confidenceCounts[p])
    && (forall p :: 1 <= p < max ==> StepsDown(t, max, p))
  }

  /** Requests scheduled beyond p - 1 but not beyond p have length p; fewer rows reach p than p - 1. */
  predicate StepsDown(t: Tables, max: nat, p: nat)
    requires Sized(t, max) && 1 <= p < max
  {
    t.scheduledCounts[p - 1] == t.scheduledCounts[p] + t.histogram[p]
        && t.confidenceCounts[p] <= t.confidenceCounts[p - 1]
  }

  /** Whatever calls led here, as long as all succeeded: the totals agree with each other. */
  lemma TotalsAgree(d: SchedulerDiagnostics)
    requires d.Consistent()
    ensures d.Agreeing() && d.MissingRequests() == 0 && d.MissingTokens() == 0
  {
    var t := d.tables;
    Conservation(t.histogram, t.scheduledCounts, t.confidenceCounts, d.log, d.max);
    ScheduledAtMostPossible(d.log, d.max);
    forall p | 1 <= p < d.max
      ensures StepsDown(t, d.max, p)
    {
      assert t.scheduledCounts[p - 1] == t.scheduledCounts[p - 1 + 1] + t.histogram[p - 1 + 1];
    }
  }

  lemma AgreementMissesNothing(t: Tables, max: nat, requests: nat, possible: nat, scheduled: int)
    requires Sized(t, max)
    ensures Agree(t, max, requests, possible, scheduled) ==>
              TableSum(t.histogram, max + 1) == requests && TableSum(t.confidenceCounts, max) == possible
  {
  }

  lemma AllFitBatch(log: seq<Observation>, max: nat)
    requires AllWellFormed(log, max)
    ensures AllFit(log, max)
  {
  }

  /** Tables that a log determines miss nothing. */
  lemma MissingNothing(t: Tables, log: seq<Observation>, requests: nat, possible: nat, max: nat)
    requires Sized(t, max) && AllWellFormed(log, max) && requests == |log| && possible == Possible(log)
    requires HistogramAdds(Zero(max), t, log, max) && PositionsAdd(Zero(max), t, log, max)
    ensures TableSum(t.histogram, max + 1) == requests && TableSum(t.confidenceCounts, max) == possible
  {
    AllFitBatch(log, max);
    ZeroTable(Zero(max).histogram, max + 1);
    ZeroTable(Zero(max).confidenceCounts, max);
    hide TableSum, HistogramAdds, PositionsAdd, Zero;
    HistogramGrows(Zero(max), t, log, max);
    ConfidencesGrow(Zero(max), t, log, max);
  }

  lemma {:induction false} SumsAdd(before: seq<nat>, after: seq<nat>, added: seq<nat>, n: nat)
    requires n <= |before| == |after| == |added|
    requires forall p :: 0 <= p < |before| ==> after[p] == before[p] + added[p]
    ensures TableSum(after, n) == TableSum(before, n) + TableSum(added, n)
  {
    if n > 0 {
      SumsAdd(before, after, added, n - 1);
    }
  }

  function LengthTable(log: seq<Observation>, n: nat): (t: seq<nat>)
    ensures |t| == n && IsHistogram(t, log)
  {
    seq(n, k requires 0 <= k < n => WithLength(log, k))
  }

  /** A counted log raises the histogram total by its requests. */
  lemma HistogramGrows(before: Tables, after: Tables, log: seq<Observation>, max: nat)
    requires Sized(before, max) && Sized(after, max) && AllFit(log, max) && HistogramAdds(before, after, log, max)
    ensures TableSum(after.histogram, max + 1) == TableSum(before.histogram, max + 1) + |log|
  {
    hide TableSum, WithLength, Beyond;
    var added := LengthTable(log, max + 1);
    SumsAdd(before.histogram, after.histogram, added, max + 1);
    HistogramTotal(added, log, max, max + 1);
    BeyondSteps(log, max, max);
  }

  /** A counted log raises the confidence total by its tokens. */
  lemma ConfidencesGrow(before: Tables, after: Tables, log: seq<Observation>, max: nat)
    requires Sized(before, max) && Sized(after, max) && AllFit(log, max) && PositionsAdd(before, after, log, max)
    ensures TableSum(after.confidenceCounts, max) == TableSum(before.confidenceCounts, max) + Possible(log)
  {
    hide TableSum, WithConfidence, Beyond, ConfidenceSum, SurvivalSum;
    SumsAdd(before.confidenceCounts, after.confidenceCounts, ConfidenceTable(log, max), max);
    PossibleTotal(log, max);
  }

  lemma {:induction false} BatchGrows(rows: seq<seq<real>>, lengths: seq<int>, i: nat, n: nat)
    requires i <= n <= |rows| && n <= |lengths|
    ensures Possible(Batch(rows, lengths, i)) <= Possible(Batch(rows, lengths, n))
    ensures i < n && rows[i] != [] ==> Possible(Batch(rows, lengths, i)) < Possible(Batch(rows, lengths, n))
    decreases n
  {
    if i < n {
      BatchGrows(rows, lengths, i, n - 1);
      BatchNext(rows, lengths, n - 1);
      LogNext(Batch(rows, lengths, n - 1), Observation(rows[n - 1], lengths[n - 1]));
    }
  }

  /**
    A call that fails has announced more than it counts: the histogram misses the requests after the
    offending one or, if that was the last request and only its confidences were bad, the confidence
    counts miss its tokens.
   */
  lemma FailedCallUndercounts(error: ObserveError, rows: seq<seq<real>>, lengths: seq<int>, before: Tables,
                              after: Tables, max: nat)
    requires |rows| == |lengths| && Sized(before, max) && Sized(after, max)
    requires StoppedAt(error, rows, lengths, before, after, max)
    ensures var counted := TableSum(after.histogram, max + 1) - TableSum(before.histogram, max + 1);
            var offered := TableSum(after.confidenceCounts, max) - TableSum(before.confidenceCounts, max);
            var announced := Possible(Batch(rows, lengths, |rows|));
            && counted == LengthsCounted(error) <= |rows| && offered <= announced
            && (counted < |rows| || offered < announced)
  {
    hide TableSum, Possible, HistogramAdds, PositionsAdd, ValidRow;
    var i := RowsCounted(error);
    StoppedBatchesFit(error, rows, lengths, before, after, max);
    HistogramGrows(before, after, Batch(rows, lengths, LengthsCounted(error)), max);
    ConfidencesGrow(before, after, Batch(rows, lengths, i), max);
    BatchGrows(rows, lengths, i, |rows|);
    if LengthsCounted(error) == |rows| {
      EmptyRowIsValid(rows[i]);
    }
  }

  lemma EmptyRowIsValid(row: seq<real>)
    ensures row == [] ==> ValidRow(row)
  {
  }

  lemma StoppedBatchesFit(error: ObserveError, rows: seq<seq<real>>, lengths: seq<int>, before: Tables, after: Tables,
                          max: nat)
    requires |rows| == |lengths| && Sized(before, max) && Sized(after, max)
    requires StoppedAt(error, rows, lengths, before, after, max)
    ensures AllFit(Batch(rows, lengths, LengthsCounted(error)), max)
            && AllFit(Batch(rows, lengths, RowsCounted(error)), max)
  {
    hide HistogramAdds, PositionsAdd;
    var i := RowsCounted(error);
    forall j | 0 <= j < i
      ensures Fits(Observation(rows[j], lengths[j]), max)
    {
      assert WellFormed(Batch(rows, lengths, i)[j], max);
    }
  }
}
