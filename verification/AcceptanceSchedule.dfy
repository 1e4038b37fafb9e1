/**
  Synthetic acceptance rates (_acceptance_length_to_rates and _resolve_synthetic_acceptance_rates of
  config/speculative.py). Entry i - 1 of a rate list is the probability that the first i draft
  tokens are all accepted.
 */
module AcceptanceSchedule {
  import opened Wrappers

  datatype ScheduleError = NeedsExactlyOne | WrongLength | OutOfRange | Increasing | LengthOutOfRange

  /** int(): truncation toward zero. */
  function Truncate(x: real): int {
    if x >= 0.0 then x.Floor else -((-x).Floor)
  }

  /** [x] * k, empty for a negative k. */
  function Copies(x: real, k: int): (r: seq<real>)
    ensures |r| == if k < 0 then 0 else k
    ensures forall i :: 0 <= i < |r| ==> r[i] == x
  {
    if k < 0 then [] else seq(k, _ => x)
  }

  /** s[:n]. */
  function Take(s: seq<real>, n: nat): (r: seq<real>)
    ensures |r| == if |s| < n then |s| else n
    ensures forall i :: 0 <= i < |r| ==> r[i] == s[i]
  {
    if |s| <= n then s else s[..n]
  }

  function AcceptanceLengthToRates(length: real, n: nat): seq<real> {
    var numDrafts := length - 1.0;
    var numFull := Truncate(numDrafts);
    Take(Copies(1.0, numFull) + [numDrafts - numFull as real] + Copies(0.0, n - numFull - 1), n)
  }

  function ResolveSyntheticAcceptanceRates(n: nat, rates: Option<seq<real>>, length: Option<real>)
        : Result<seq<real>, ScheduleError> {
    if rates.None? == length.None? then Failure(NeedsExactlyOne)
    else if rates.Some? then
      if |rates.value| != n then Failure(WrongLength)
      else if !(forall i :: 0 <= i < n ==> 0.0 <= rates.value[i] <= 1.0) then Failure(OutOfRange)
      else if exists i :: 1 <= i < n && Rises(rates.value, i) then Failure(Increasing)
      else Success(rates.value)
    else if !(1.0 <= length.value <= (n + 1) as real) then Failure(LengthOutOfRange)
    else Success(AcceptanceLengthToRates(length.value, n))
  }

  predicate Rises(rates: seq<real>, i: nat)
    requires 1 <= i < |rates|
  {
    rates[i] > rates[i - 1]
  }

  // ---- Rate lists as distributions ----

  /** Probabilities that never grow with the number of accepted tokens. */
  predicate ValidRates(rates: seq<real>, n: nat) {
    && |rates| == n
    && (forall i :: 0 <= i < n ==> 0.0 <= rates[i] <= 1.0)
    && forall i, j :: 0 <= i <= j < n ==> rates[j] <= rates[i]
  }

  /** Probability that at least i draft tokens are accepted. */
  function AtLeast(rates: seq<real>, i: nat): real {
    if i == 0 then 1.0 else if i <= |rates| then rates[i - 1] else 0.0
  }

  /** Probability that exactly i draft tokens are accepted. */
  function Exactly(rates: seq<real>, i: nat): real {
    AtLeast(rates, i) - AtLeast(rates, i + 1)
  }

  /** Expected number of accepted draft tokens, over outcomes below n. */
  function MeanUpTo(rates: seq<real>, n: nat): real {
    if n == 0 then 0.0 else MeanUpTo(rates, n - 1) + Part((n - 1) as real, Exactly(rates, n - 1))
  }

  /** The part of an outcome k of probability p in the mean. */
  function Part(k: real, p: real): real {
    k * p
  }

  /** The share of an outcome k of probability p in the second moment about m. */
  function Share(k: real, m: real, p: real): real {
    (k - m) * (k - m) * p
  }

  function DeviationUpTo(rates: seq<real>, mean: real, n: nat): real {
    if n == 0 then 0.0
    else DeviationUpTo(rates, mean, n - 1) + Share((n - 1) as real, mean, Exactly(rates, n - 1))
  }

  function SquareUpTo(rates: seq<real>, n: nat): real {
    DeviationUpTo(rates, 0.0, n)
  }

  function ProbabilityUpTo(rates: seq<real>, n: nat): real {
    if n == 0 then 0.0 else ProbabilityUpTo(rates, n - 1) + Exactly(rates, n - 1)
  }

  function Mean(rates: seq<real>): real {
    MeanUpTo(rates, |rates| + 1)
  }

  /** Mean acceptance length: the accepted draft tokens and the bonus token. */
  function MeanLength(rates: seq<real>): real {
    1.0 + Mean(rates)
  }

  function Variance(rates: seq<real>): real {
    DeviationUpTo(rates, Mean(rates), |rates| + 1)
  }

  function Total(rates: seq<real>, n: nat): real
    requires n <= |rates|
  {
    if n == 0 then 0.0 else Total(rates, n - 1) + rates[n - 1]
  }

  /** Rates weighted by 2i - 1. */
  function Weighted(rates: seq<real>, n: nat): real
    requires n <= |rates|
  {
    if n == 0 then 0.0 else Weighted(rates, n - 1) + (2 * n - 1) as real * rates[n - 1]
  }

  // ---- Moments by summation of tails ----

  lemma {:induction false} Telescope(rates: seq<real>, n: nat)
    ensures ProbabilityUpTo(rates, n) == 1.0 - AtLeast(rates, n)
  {
    if n > 0 {
      Telescope(rates, n - 1);
    }
  }

  lemma {:induction false} MeanByTails(rates: seq<real>, n: nat)
    requires n <= |rates|
    ensures MeanUpTo(rates, n + 1) == Total(rates, n) - n as real * AtLeast(rates, n + 1)
  {
    if n > 0 {
      MeanByTails(rates, n - 1);
      UnfoldMoments(rates, 0.0, n + 1);
      var a, b := AtLeast(rates, n), AtLeast(rates, n + 1);
      assert n as real * (a - b) == (n - 1) as real * a + a - n as real * b;
    }
  }

  lemma WeightedUnfolds(r: seq<real>, n: nat)
    requires 0 < n <= |r|
    ensures Weighted(r, n) == Weighted(r, n - 1) + Scaled(n - 1, r[n - 1])
  {
  }

  function Scaled(i: nat, a: real): real {
    (2 * i + 1) as real * a
  }

  /** An outcome k of probability p in the second moment about zero. */
  function Square(k: nat, p: real): real {
    (k * k) as real * p
  }

  lemma ShareOfWhole(k: nat, p: real)
    ensures Share(k as real, 0.0, p) == Square(k, p)
  {
    assert (k * k) as real == k as real * k as real;
  }

  lemma SquareTail(n: nat, a: real, b: real)
    requires n > 0
    ensures Square(n, a - b) == Square(n - 1, a) + Scaled(n - 1, a) - Square(n, b)
  {
    var k, w := ((n - 1) * (n - 1)) as real, (2 * n - 1) as real;
    assert n * n == (n - 1) * (n - 1) + (2 * n - 1);
    assert (n * n) as real == k + w;
  }

  lemma {:induction false} SquareByTails(rates: seq<real>, n: nat)
    requires n <= |rates|
    ensures SquareUpTo(rates, n + 1) == Weighted(rates, n) - Square(n, AtLeast(rates, n + 1))
  {
    hide Share, Square, SquareUpTo, Weighted, Scaled;
    UnfoldMoments(rates, 0.0, n + 1);
    ShareOfWhole(n, Exactly(rates, n));
    if n == 0 {
      NoSquares(rates, Exactly(rates, 0), AtLeast(rates, 1));
    } else {
      SquareByTails(rates, n - 1);
      SquareTail(n, AtLeast(rates, n), AtLeast(rates, n + 1));
      WeightedUnfolds(rates, n);
    }
  }

  lemma NoSquares(rates: seq<real>, p: real, q: real)
    ensures SquareUpTo(rates, 0) == Weighted(rates, 0) == Square(0, p) == Square(0, q) == 0.0
  {
  }

  /** d is the second moment about m, given the second moment s and the mean e of a mass q. */
  predicate Expanded(d: real, s: real, e: real, q: real, m: real) {
    d == s - 2.0 * m * e + m * m * q
  }

  lemma ExpandStep(k: real, m: real, p: real, d: real, s: real, e: real, q: real)
    requires Expanded(d, s, e, q, m)
    ensures Expanded(d + Share(k, m, p), s + Share(k, 0.0, p), e + Part(k, p), q + p, m)
  {
    var kp := k * p;
    assert Share(k, 0.0, p) == k * kp;
    assert (k - m) * (k - m) * p == (k - m) * (kp - m * p) == k * kp - 2.0 * m * kp + m * m * p;
    assert 2.0 * m * (e + kp) == 2.0 * m * e + 2.0 * m * kp;
    assert m * m * (q + p) == m * m * q + m * m * p;
  }

  /** Sum of p (k - m)^2 is the sum of p k^2 less 2m times the sum of p k plus m^2 times the sum of p. */
  lemma {:induction false} DeviationExpands(rates: seq<real>, m: real, n: nat)
    ensures Expanded(DeviationUpTo(rates, m, n), SquareUpTo(rates, n), MeanUpTo(rates, n), ProbabilityUpTo(rates, n), m)
  {
    if n > 0 {
      DeviationExpands(rates, m, n - 1);
      UnfoldMoments(rates, m, n);
      ExpandStep((n - 1) as real, m, Exactly(rates, n - 1), DeviationUpTo(rates, m, n - 1),
                 SquareUpTo(rates, n - 1), MeanUpTo(rates, n - 1), ProbabilityUpTo(rates, n - 1));
    } else {
      assert Expanded(0.0, 0.0, 0.0, 0.0, m);
    }
  }

  lemma UnfoldMoments(rates: seq<real>, m: real, n: nat)
    requires n > 0
    ensures DeviationUpTo(rates, m, n)
            == DeviationUpTo(rates, m, n - 1) + Share((n - 1) as real, m, Exactly(rates, n - 1))
    ensures SquareUpTo(rates, n) == SquareUpTo(rates, n - 1) + Share((n - 1) as real, 0.0, Exactly(rates, n - 1))
    ensures MeanUpTo(rates, n) == MeanUpTo(rates, n - 1) + Part((n - 1) as real, Exactly(rates, n - 1))
    ensures ProbabilityUpTo(rates, n) == ProbabilityUpTo(rates, n - 1) + Exactly(rates, n - 1)
  {
    hide Share, Exactly;
  }

  lemma AboutTheMean(d: real, s: real, m: real)
    requires Expanded(d, s, m, 1.0, m)
    ensures d == s - m * m
  {
  }

  /** The mean is the sum of the rates, and the variance a weighted sum of them less the squared mean. */
  lemma Moments(rates: seq<real>)
    ensures Mean(rates) == Total(rates, |rates|)
    ensures Variance(rates) == Weighted(rates, |rates|) - Mean(rates) * Mean(rates)
  {
    var n, m := |rates|, Mean(rates);
    MeanByTails(rates, n);
    SquareByTails(rates, n);
    Telescope(rates, n + 1);
    DeviationExpands(rates, m, n + 1);
    hide Expanded, MeanUpTo, DeviationUpTo, SquareUpTo, ProbabilityUpTo, Total, Weighted;
    assert AtLeast(rates, n + 1) == 0.0;
    AboutTheMean(Variance(rates), Weighted(rates, n), m);
  }

  // ---- The schedule for a mean acceptance length ----

  /** What the schedule is: full rates, one fractional rate, and zeros. */
  lemma ScheduleShape(length: real, n: nat)
    requires 1.0 <= length <= (n + 1) as real
    ensures var f, s := Truncate(length - 1.0), AcceptanceLengthToRates(length, n);
            && 0 <= f <= n && |s| == n
            && f as real <= length - 1.0 < f as real + 1.0
            && forall i :: 0 <= i < n ==>
                 s[i] == if i < f then 1.0 else if i == f then length - 1.0 - f as real else 0.0
  {
  }

  lemma {:induction false} ShapeTotal(s: seq<real>, f: nat, x: real, n: nat)
    requires n <= |s| && forall i :: 0 <= i < |s| ==> s[i] == if i < f then 1.0 else if i == f then x else 0.0
    ensures Total(s, n) == if n <= f then n as real else f as real + x
  {
    if n > 0 {
      ShapeTotal(s, f, x, n - 1);
    }
  }

  /** For every length in range the schedule is a valid rate list with exactly that mean length. */
  lemma ScheduleIsValid(length: real, n: nat)
    requires 1.0 <= length <= (n + 1) as real
    ensures ValidRates(AcceptanceLengthToRates(length, n), n)
    ensures MeanLength(AcceptanceLengthToRates(length, n)) == length
  {
    ScheduleShape(length, n);
    var f, s := Truncate(length - 1.0), AcceptanceLengthToRates(length, n);
    ShapeTotal(s, f, length - 1.0 - f as real, n);
    Moments(s);
  }

  lemma {:induction false} NoRiseIsSorted(rates: seq<real>, i: nat, j: nat)
    requires i <= j < |rates| && forall k :: 1 <= k < |rates| ==> !Rises(rates, k)
    ensures rates[j] <= rates[i]
    decreases j
  {
    if i < j {
      NoRiseIsSorted(rates, i, j - 1);
      assert !Rises(rates, j);
    }
  }

  /** Explicit rates are accepted exactly when they are a valid list, and then returned unchanged. */
  lemma ExplicitRatesAcceptedIff(rates: seq<real>, n: nat)
    ensures ResolveSyntheticAcceptanceRates(n, Some(rates), None).Success? <==> ValidRates(rates, n)
    ensures ValidRates(rates, n) ==> ResolveSyntheticAcceptanceRates(n, Some(rates), None) == Success(rates)
  {
    if |rates| == n && forall k :: 1 <= k < |rates| ==> !Rises(rates, k) {
      forall i, j | 0 <= i <= j < n
        ensures rates[j] <= rates[i]
      {
        NoRiseIsSorted(rates, i, j);
      }
    }
  }

  /** A length is accepted exactly when it is in range, and the resolved rates pass the explicit-rates check. */
  lemma ResolvedRatesPass(length: real, n: nat)
    ensures ResolveSyntheticAcceptanceRates(n, None, Some(length)).Success? <==> 1.0 <= length <= (n + 1) as real
    ensures 1.0 <= length <= (n + 1) as real ==>
              var rates := ResolveSyntheticAcceptanceRates(n, None, Some(length)).value;
              ResolveSyntheticAcceptanceRates(n, Some(rates), None) == Success(rates) && MeanLength(rates) == length
  {
    if 1.0 <= length <= (n + 1) as real {
      ScheduleIsValid(length, n);
      ExplicitRatesAcceptedIff(AcceptanceLengthToRates(length, n), n);
    }
  }

  /**
    Which error is raised: exactly one of rates and length must be given; rates are checked for their number,
    then their range, then their order.
   */
  lemma ResolveErrors(n: nat, rates: Option<seq<real>>, length: Option<real>)
    ensures var r := ResolveSyntheticAcceptanceRates(n, rates, length);
            && (rates.Some? == length.Some? <==> r == Failure(NeedsExactlyOne))
            && (rates.Some? && length.None? ==>
                 && (r == Failure(WrongLength) <==> |rates.value| != n)
                 && (r == Failure(OutOfRange)
                     <==> |rates.value| == n
                          && exists i :: 0 <= i < n && (rates.value[i] < 0.0 || rates.value[i] > 1.0))
                 && (r == Failure(Increasing)
                     <==> && |rates.value| == n
                          && (forall i :: 0 <= i < n ==> 0.0 <= rates.value[i] <= 1.0)
                          && exists i, j :: 0 <= i < j < n && rates.value[j] > rates.value[i]))
            && (rates.None? && length.Some? ==>
                 (r == Failure(LengthOutOfRange) <==> length.value < 1.0 || length.value > n as real + 1.0))
  {
    if rates.Some? && length.None? && |rates.value| == n {
      if forall k :: 1 <= k < n ==> !Rises(rates.value, k) {
        forall i, j | 0 <= i <= j < n
          ensures rates.value[j] <= rates.value[i]
        {
          NoRiseIsSorted(rates.value, i, j);
        }
      }
      forall k | 1 <= k < n && Rises(rates.value, k)
        ensures exists i, j :: 0 <= i < j < n && rates.value[j] > rates.value[i]
      {
        assert 0 <= k - 1 < k && rates.value[k] > rates.value[k - 1];
      }
    }
  }

  // ---- Minimum variance ----

  /** Weighted sums differ by at least c times the difference of the plain sums. */
  predicate GapAtLeast(wr: real, ws: real, tr: real, ts: real, c: real) {
    wr - ws - c * (tr - ts) >= 0.0
  }

  predicate GapIs(wr: real, ws: real, tr: real, ts: real, c: real) {
    wr - ws == c * (tr - ts)
  }

  /** Moving mass to earlier positions lowers the weighted sum: compare at the price of the fractional position. */
  lemma {:induction false} WeightedGap(r: seq<real>, s: seq<real>, f: nat, x: real, n: nat)
    requires n <= |r| == |s| && ValidRates(r, |r|)
    requires forall i :: 0 <= i < |s| ==> s[i] == if i < f then 1.0 else if i == f then x else 0.0
    ensures GapAtLeast(Weighted(r, n), Weighted(s, n), Total(r, n), Total(s, n), (2 * f + 1) as real)
    ensures GapIs(Weighted(r, n), Weighted(s, n), Total(r, n), Total(s, n), (2 * f + 1) as real) ==>
              forall i :: 0 <= i < n && i != f ==> r[i] == s[i]
  {
    if n > 0 {
      WeightedGap(r, s, f, x, n - 1);
      var i := n - 1;
      WeightedUnfolds(r, n);
      WeightedUnfolds(s, n);
      hide GapAtLeast, GapIs, Weighted;
      GapStep(Weighted(r, i), Weighted(s, i), Total(r, i), Total(s, i), i, f, r[i], s[i]);
    }
  }

  lemma GapStep(wr: real, ws: real, tr: real, ts: real, i: nat, f: nat, a: real, b: real)
    requires (i < f ==> a <= b) && (i > f ==> a >= b)
    requires GapAtLeast(wr, ws, tr, ts, (2 * f + 1) as real)
    ensures GapAtLeast(wr + Scaled(i, a), ws + Scaled(i, b), tr + a, ts + b, (2 * f + 1) as real)
    ensures GapIs(wr + Scaled(i, a), ws + Scaled(i, b), tr + a, ts + b, (2 * f + 1) as real) ==>
              GapIs(wr, ws, tr, ts, (2 * f + 1) as real) && (i != f ==> a == b)
  {
    var w, c := (2 * i + 1) as real, (2 * f + 1) as real;
    GapTerm(w, c, a - b, i, f);
    GapSplit(wr, ws, tr, ts, w, c, a, b);
  }

  lemma GapSplit(wr: real, ws: real, tr: real, ts: real, w: real, c: real, a: real, b: real)
    ensures (wr + w * a) - (ws + w * b) - c * ((tr + a) - (ts + b)) == wr - ws - c * (tr - ts) + (w - c) * (a - b)
  {
  }

  lemma GapTerm(w: real, c: real, d: real, i: nat, f: nat)
    requires w == (2 * i + 1) as real && c == (2 * f + 1) as real
    requires (i < f ==> d <= 0.0) && (i > f ==> d >= 0.0)
    ensures (w - c) * d >= 0.0
    ensures (w - c) * d == 0.0 && i != f ==> d == 0.0
  {
    if i < f {
      assert w - c < 0.0;
    } else if i > f {
      assert w - c > 0.0;
    } else {
      assert w == c;
    }
  }

  lemma {:induction false} TotalDiffersAt(r: seq<real>, s: seq<real>, f: nat, n: nat)
    requires n <= |r| == |s| && forall i :: 0 <= i < n && i != f ==> r[i] == s[i]
    ensures Total(r, n) - Total(s, n) == if f < n then r[f] - s[f] else 0.0
  {
    if n > 0 {
      TotalDiffersAt(r, s, f, n - 1);
    }
  }

  lemma SmallerGap(wr: real, ws: real, tr: real, ts: real, c: real)
    requires tr == ts && GapAtLeast(wr, ws, tr, ts, c)
    ensures ws <= wr && (ws == wr ==> GapIs(wr, ws, tr, ts, c))
  {
    assert c * (tr - ts) == 0.0;
  }

  lemma {:induction false} ShapeWeighted(s: seq<real>, f: nat, x: real, n: nat)
    requires n <= |s| && forall i :: 0 <= i < |s| ==> s[i] == if i < f then 1.0 else if i == f then x else 0.0
    ensures Weighted(s, n) == if n <= f then (n * n) as real else (f * f) as real + (2 * f + 1) as real * x
  {
    if n > 0 {
      ShapeWeighted(s, f, x, n - 1);
      WeightedUnfolds(s, n);
      assert n * n == (n - 1) * (n - 1) + (2 * (n - 1) + 1);
    }
  }

  /** The schedule accepts one of two neighbouring lengths: its variance is that of a coin with the fractional rate. */
  lemma ScheduleVariance(length: real, n: nat)
    requires 1.0 <= length <= (n + 1) as real
    ensures var x := (length - 1.0) - (length - 1.0).Floor as real;
            Variance(AcceptanceLengthToRates(length, n)) == x * (1.0 - x)
  {
    ScheduleShape(length, n);
    var f, s := Truncate(length - 1.0), AcceptanceLengthToRates(length, n);
    var x := length - 1.0 - f as real;
    ShapeTotal(s, f, x, n);
    ShapeWeighted(s, f, x, n);
    Moments(s);
    hide AcceptanceLengthToRates, Variance, Mean, Weighted, Total;
    assert (f * f) as real == f as real * f as real;
    assert (2 * f + 1) as real == 2.0 * f as real + 1.0;
  }

  /**
    The schedule is the minimum-variance one: among all valid rate lists with the same mean
    acceptance length it has the smallest variance, and no other list attains it.
   */
  lemma ScheduleHasMinimumVariance(length: real, n: nat, rates: seq<real>)
    requires 1.0 <= length <= (n + 1) as real
    requires ValidRates(rates, n) && MeanLength(rates) == length
    ensures Variance(AcceptanceLengthToRates(length, n)) <= Variance(rates)
    ensures Variance(AcceptanceLengthToRates(length, n)) == Variance(rates)
            <==> rates == AcceptanceLengthToRates(length, n)
  {
    hide AcceptanceLengthToRates, Truncate, Mean, Variance, Weighted, Total, GapAtLeast, GapIs;
    ScheduleShape(length, n);
    ScheduleIsValid(length, n);
    var f, s := Truncate(length - 1.0), AcceptanceLengthToRates(length, n);
    Moments(s);
    Moments(rates);
    WeightedGap(rates, s, f, length - 1.0 - f as real, n);
    SmallerGap(Weighted(rates, n), Weighted(s, n), Total(rates, n), Total(s, n), (2 * f + 1) as real);
    if Variance(s) == Variance(rates) {
      TotalDiffersAt(rates, s, f, n);
      assert rates == s;
    }
  }
}
