/**
  Flattened batches: prefix sums, repeats, and runs of consecutive indices, one run per request.
 */
module BatchRuns {

  function Sum(counts: seq<nat>, n: nat): (s: nat)
    requires n <= |counts|
  {
    if n == 0 then 0 else Sum(counts, n - 1) + counts[n - 1]
  }

  lemma SumNext(counts: seq<nat>, i: nat)
    requires i < |counts|
    ensures Sum(counts, i + 1) == Sum(counts, i) + counts[i]
  {
  }

  /** np.cumsum. */
  function Cumsum(counts: seq<nat>): (cu: seq<int>)
    ensures |cu| == |counts|
    ensures forall i :: 0 <= i < |cu| ==> cu[i] == Sum(counts, i + 1)
  {
    seq(|counts|, i requires 0 <= i < |counts| => Sum(counts, i + 1))
  }

  /** np.repeat: counts[i] copies of values[i], one group after the other. */
  function Repeat(values: seq<int>, counts: seq<nat>, n: nat): (r: seq<int>)
    requires n <= |values| && n <= |counts|
    ensures |r| == Sum(counts, n)
  {
    if n == 0 then [] else Repeat(values, counts, n - 1) + seq(counts[n - 1], _ => values[n - 1])
  }

  function Range(from: int, len: nat): (r: seq<int>)
    ensures |r| == len && forall j :: 0 <= j < len ==> r[j] == from + j
  {
    seq(len, j => from + j)
  }

  lemma RangeSplits(from: int, a: nat, b: nat)
    ensures Range(from, a + b) == Range(from, a) + Range(from + a, b)
  {
  }

  /** One run per request: bases[i], bases[i] + 1, ..., counts[i] entries, one request after the other. */
  function Runs(bases: seq<int>, counts: seq<nat>, n: nat): (r: seq<int>)
    requires n <= |bases| && n <= |counts|
    ensures |r| == Sum(counts, n)
  {
    if n == 0 then [] else Runs(bases, counts, n - 1) + Range(bases[n - 1], counts[n - 1])
  }

  lemma {:induction false} SumMonotone(counts: seq<nat>, i: nat, n: nat)
    requires i <= n <= |counts|
    ensures Sum(counts, i) <= Sum(counts, n)
    ensures i < n ==> Sum(counts, i) + counts[i] <= Sum(counts, n)
    decreases n - i
  {
    if i < n {
      SumMonotone(counts, i + 1, n);
    }
  }

  /** Entry j of request i sits at the request's offset plus j, in the runs and in the repeats. */
  lemma {:induction false} RunsAt(bases: seq<int>, counts: seq<nat>, n: nat, i: nat, j: nat)
    requires i < n <= |counts| && n <= |bases| && j < counts[i]
    ensures Sum(counts, i) + j < Sum(counts, n)
    ensures Runs(bases, counts, n)[Sum(counts, i) + j] == bases[i] + j
    ensures Repeat(bases, counts, n)[Sum(counts, i) + j] == bases[i]
    decreases n
  {
    SumMonotone(counts, i, n);
    if i < n - 1 {
      RunsAt(bases, counts, n - 1, i, j);
    }
  }

  /** Every flat index belongs to exactly one request. */
  lemma {:induction false} Locate(counts: seq<nat>, n: nat, p: nat) returns (i: nat, j: nat)
    requires n <= |counts| && p < Sum(counts, n)
    ensures i < n && j < counts[i] && p == Sum(counts, i) + j
  {
    if p >= Sum(counts, n - 1) {
      i, j := n - 1, p - Sum(counts, n - 1);
    } else {
      i, j := Locate(counts, n - 1, p);
    }
  }

  function Zeros(n: nat): (z: seq<int>)
    ensures |z| == n && forall i :: 0 <= i < n ==> z[i] == 0
  {
    seq(n, _ => 0)
  }

  /** The offsets of the requests in the flat batch. */
  function Starts(counts: seq<nat>): (s: seq<int>)
    ensures |s| == |counts| && forall i :: 0 <= i < |s| ==> s[i] == Sum(counts, i)
  {
    seq(|counts|, i requires 0 <= i < |counts| => Sum(counts, i))
  }

  /** Subtracting each request's offset from its flat indices restarts the count in every request. */
  lemma ArangeMinusStarts(counts: seq<nat>, p: nat)
    requires p < Sum(counts, |counts|)
    ensures p - Repeat(Starts(counts), counts, |counts|)[p] == Runs(Zeros(|counts|), counts, |counts|)[p]
  {
    hide Runs, Repeat, Sum;
    var i, j := Locate(counts, |counts|, p);
    RunsAt(Starts(counts), counts, |counts|, i, j);
    RunsAt(Zeros(|counts|), counts, |counts|, i, j);
  }

  /** Adding a repeated base to the restarted counts gives the runs from those bases. */
  lemma RestartPlusBases(bases: seq<int>, counts: seq<nat>, p: nat)
    requires |bases| == |counts| && p < Sum(counts, |counts|)
    ensures Repeat(bases, counts, |counts|)[p] + Runs(Zeros(|counts|), counts, |counts|)[p]
            == Runs(bases, counts, |counts|)[p]
  {
    hide Runs, Repeat, Sum;
    var i, j := Locate(counts, |counts|, p);
    RunsAt(bases, counts, |counts|, i, j);
    RunsAt(Zeros(|counts|), counts, |counts|, i, j);
  }

  method ComputeCumsum(counts: seq<nat>) returns (cu: seq<int>)
    ensures cu == Cumsum(counts)
  {
    cu := [];
    var total := 0;
    for i := 0 to |counts|
      invariant total == Sum(counts, i)
      invariant cu == Cumsum(counts)[..i]
    {
      total := total + counts[i];
      cu := cu + [total];
    }
  }

  // ---- Scatter and gather ----

  function Gather(src: seq<int>, idx: seq<int>): (r: seq<int>)
    requires forall k :: 0 <= k < |idx| ==> 0 <= idx[k] < |src|
    ensures |r| == |idx| && forall k :: 0 <= k < |idx| ==> r[k] == src[idx[k]]
  {
    seq(|idx|, k requires 0 <= k < |idx| => src[idx[k]])
  }
}
