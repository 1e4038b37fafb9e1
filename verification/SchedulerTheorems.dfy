/**
  What the hardware-aware planner promises for given survival rows: its result is a correctly scored
  schedule, the exhaustive mode is globally optimal, and on smooth curves the path has a single peak.
 */
module SchedulerTheorems {
  import opened Wrappers
  import opened PrefixValue
  import opened GreedyOrder
  import opened PrefixScheduler

  /** Every scheduled prefix has positive survival. */
  predicate OnlyPositive(rows: seq<seq<real>>, v: seq<int>)
    requires IsSchedule(rows, v)
  {
    forall i :: 0 <= i < |v| ==> v[i] > 0 ==> rows[i][v[i] - 1] > 0.0
  }

  /** A planner result is what score_prefix_lengths reports for the same lengths, and never schedules a dead token. */
  lemma ResultIsScored(rows: seq<seq<real>>, curve: StepCurve, earlyStop: bool)
    requires AllDecay(rows) && Plan(rows, curve, earlyStop).Success?
    ensures var s := Plan(rows, curve, earlyStop).value;
            IsSchedule(rows, s.lengths) && OnlyPositive(rows, s.lengths) && s == Score(rows, s.lengths, curve)
  {
    var path := Path(rows, curve);
    var b := FirstBest(path, LastVisited(path, earlyStop));
    assert path[b] == Score(rows, Point(rows, b), curve);
    PointIsPositive(rows, b);
  }

  /**
    A planned schedule is closed under the admission order: with token (m, q) it holds every token of larger survival,
    and every token of the same survival in an earlier request or at an earlier position.
   */
  lemma PlanAdmitsInOrder(rows: seq<seq<real>>, curve: StepCurve, earlyStop: bool, i: nat, p: nat, m: nat, q: nat)
    requires AllDecay(rows) && Plan(rows, curve, earlyStop).Success?
    requires i < |rows| && 1 <= p <= |rows[i]| && m < |rows| && 1 <= q <= |rows[m]|
    requires rows[i][p - 1] > 0.0
    requires rows[i][p - 1] > rows[m][q - 1] || (rows[i][p - 1] == rows[m][q - 1] && (i < m || (i == m && p <= q)))
    ensures var v := Plan(rows, curve, earlyStop).value.lengths;
            |v| == |rows| && (q <= v[m] ==> p <= v[i])
  {
    hide Order, Mass, TotalMass, Tokens, GreedyLengths, AllDecay, IsGreedyOrder;
    var path := Path(rows, curve);
    var b := FirstBest(path, LastVisited(path, earlyStop));
    assert path[b] == Score(rows, Point(rows, b), curve);
    OrderIsGreedy(rows);
    PathAdmitsInOrder(rows, Order(rows), b, i, p, m, q);
  }

  /** A plan fails exactly when a rate up to the last point its mode visits is negative. */
  lemma PlanFailsIff(rows: seq<seq<real>>, curve: StepCurve, earlyStop: bool)
    requires AllDecay(rows)
    ensures var last := if earlyStop then StopIndex(Path(rows, curve), 1) else |Order(rows)|;
            Plan(rows, curve, earlyStop).Failure? <==> exists n :: |rows| <= n <= |rows| + last && curve(n) < 0.0
  {
    hide Order, Score, Path, AllDecay;
    var path := Path(rows, curve);
    var last := if earlyStop then StopIndex(path, 1) else |Order(rows)|;
    forall k | 0 <= k <= last
      ensures path[k].batchTokens == |rows| + k
    {
      PointBatch(rows, curve, k);
    }
    if n :| |rows| <= n <= |rows| + last && curve(n) < 0.0 {
      assert NegativeRate(path, curve, n - |rows|);
    }
  }

  lemma PointBatch(rows: seq<seq<real>>, curve: StepCurve, k: nat)
    requires AllDecay(rows) && k <= |Order(rows)|
    ensures |Path(rows, curve)| == |Order(rows)| + 1 && Path(rows, curve)[k].batchTokens == |rows| + k
  {
    hide Order, Mass, TotalMass, Tokens, Expected, GreedyLengths;
    assert Path(rows, curve)[k] == Score(rows, Point(rows, k), curve);
  }

  lemma PointIsPositive(rows: seq<seq<real>>, k: nat)
    requires AllDecay(rows) && k <= |Order(rows)|
    ensures OnlyPositive(rows, Point(rows, k))
  {
    OrderIsGreedy(rows);
    PathInvariant(rows, Order(rows), k);
    var v := Point(rows, k);
    forall i | 0 <= i < |v|
      ensures v[i] > 0 ==> rows[i][v[i] - 1] > 0.0
    {
      if v[i] > 0 {
        assert Token(rows, i, v[i]) in Order(rows)[..k];
      }
    }
  }

  // ---- Exhaustive mode ----

  /** The traversal visits every point, so its result is the best of the path and no visited rate is negative. */
  lemma ExhaustiveIsPathBest(rows: seq<seq<real>>, curve: StepCurve, k: nat)
    requires AllDecay(rows) && Plan(rows, curve, false).Success? && k <= |Order(rows)|
    ensures curve(|rows| + k) >= 0.0
    ensures Throughput(rows, Point(rows, k), curve) <= Plan(rows, curve, false).value.expectedTokensPerSecond
  {
    var path := Path(rows, curve);
    assert path[k] == Score(rows, Point(rows, k), curve);
    assert !NegativeRate(path, curve, k);
  }

  lemma ScaleMonotone(a: real, b: real, c: real)
    requires a <= b && c >= 0.0
    ensures a * c <= b * c
  {
  }

  /**
    Among all schedules of k draft tokens, dead tokens included, the k-th point of the greedy path
    has the largest expected number of accepted tokens.
   */
  lemma GreedyIsBestOfItsSize(rows: seq<seq<real>>, v: seq<int>)
    requires AllDecay(rows) && IsSchedule(rows, v) && Tokens(v, |rows|) <= |Order(rows)|
    ensures Tokens(v, |rows|) >= 0
    ensures Expected(rows, v) <= Expected(rows, Point(rows, Tokens(v, |rows|)))
  {
    OrderIsGreedy(rows);
    PathIsBestOfItsSize(rows, Order(rows), v);
  }

  /** A schedule that fits on the path is beaten by the path point of its size, hence by the result. */
  lemma PathSizedIsBeaten(rows: seq<seq<real>>, curve: StepCurve, v: seq<int>)
    requires AllDecay(rows) && Plan(rows, curve, false).Success? && IsSchedule(rows, v)
    requires Tokens(v, |rows|) <= |Order(rows)|
    ensures Throughput(rows, v, curve) <= Plan(rows, curve, false).value.expectedTokensPerSecond
  {
    hide Mass, TotalMass, Tokens, Expected, GreedyLengths, Order, Plan, Walk;
    GreedyIsBestOfItsSize(rows, v);
    var k := Tokens(v, |rows|);
    ExhaustiveIsPathBest(rows, curve, k);
    ScaleMonotone(Expected(rows, v), Expected(rows, Point(rows, k)), curve(|rows| + k));
  }

  /**
    Exhaustive greedy is globally optimal among all schedules that use only positive-survival tokens, for every
    curve.
   */
  lemma ExhaustiveIsOptimal(rows: seq<seq<real>>, curve: StepCurve, v: seq<int>)
    requires AllDecay(rows) && Plan(rows, curve, false).Success? && IsSchedule(rows, v) && OnlyPositive(rows, v)
    ensures Throughput(rows, v, curve) <= Plan(rows, curve, false).value.expectedTokensPerSecond
  {
    OrderIsGreedy(rows);
    var full := Point(rows, |Order(rows)|);
    forall i | 0 <= i < |rows|
      ensures v[i] <= full[i]
    {
      FullPathCut(rows, Order(rows), i);
    }
    TokensMonotone(v, full, |rows|);
    PathSizedIsBeaten(rows, curve, v);
  }

  function Capacities(rows: seq<seq<real>>): (v: seq<int>)
    ensures IsSchedule(rows, v)
    ensures forall i :: 0 <= i < |rows| ==> v[i] == |rows[i]|
  {
    seq(|rows|, i requires 0 <= i < |rows| => |rows[i]|)
  }

  /** The throughput of padding the whole path with zero-survival tokens up to k draft tokens. */
  function PaddedThroughput(rows: seq<seq<real>>, curve: StepCurve, k: nat): real
    requires AllDecay(rows)
  {
    Expected(rows, Point(rows, |Order(rows)|)) * curve(|rows| + k)
  }

  /** Point i of the path is at least as fast as the path padded to k draft tokens. */
  predicate OutrunsPadding(rows: seq<seq<real>>, curve: StepCurve, i: nat, k: nat)
    requires AllDecay(rows)
  {
    i <= |Order(rows)| && PaddedThroughput(rows, curve, k) <= Throughput(rows, Point(rows, i), curve)
  }

  predicate PaddingIsOutrun(rows: seq<seq<real>>, curve: StepCurve, k: nat)
    requires AllDecay(rows)
  {
    exists i :: 0 <= i <= |Order(rows)| && OutrunsPadding(rows, curve, i, k)
  }

  /** No size beyond the end of the path is profiled so fast that dead tokens would pay off. */
  predicate TailIsSlow(rows: seq<seq<real>>, curve: StepCurve)
    requires AllDecay(rows)
  {
    forall k :: |Order(rows)| < k <= Tokens(Capacities(rows), |rows|) ==> PaddingIsOutrun(rows, curve, k)
  }

  /** The result is at least as fast as every schedule, dead tokens included. */
  ghost predicate IsOptimal(rows: seq<seq<real>>, curve: StepCurve)
    requires AllDecay(rows)
  {
    && Plan(rows, curve, false).Success?
    && forall v: seq<int> | IsSchedule(rows, v) ::
         Throughput(rows, v, curve) <= Plan(rows, curve, false).value.expectedTokensPerSecond
  }

  lemma OutrunIsBeaten(rows: seq<seq<real>>, curve: StepCurve, k: nat)
    requires AllDecay(rows) && Plan(rows, curve, false).Success?
    ensures PaddingIsOutrun(rows, curve, k)
            <==> PaddedThroughput(rows, curve, k) <= Plan(rows, curve, false).value.expectedTokensPerSecond
  {
    hide Mass, TotalMass, Tokens, Expected, GreedyLengths, Order, PaddedThroughput;
    var path := Path(rows, curve);
    var b := FirstBest(path, LastVisited(path, false));
    assert path[b] == Score(rows, Point(rows, b), curve);
    if PaddedThroughput(rows, curve, k) <= path[b].expectedTokensPerSecond {
      assert OutrunsPadding(rows, curve, b, k);
    }
    if i :| 0 <= i <= |Order(rows)| && OutrunsPadding(rows, curve, i, k) {
      ExhaustiveIsPathBest(rows, curve, i);
    }
  }

  /** Exactly when the exhaustive result is optimal among all schedules, dead tokens included. */
  lemma ExhaustiveBeatsEverythingIff(rows: seq<seq<real>>, curve: StepCurve)
    requires AllDecay(rows) && Plan(rows, curve, false).Success?
    ensures TailIsSlow(rows, curve) <==> IsOptimal(rows, curve)
  {
    hide Mass, TotalMass, Tokens, Expected, GreedyLengths, Order, Plan, Walk;
    var best := Plan(rows, curve, false).value.expectedTokensPerSecond;
    if TailIsSlow(rows, curve) {
      forall v: seq<int> | IsSchedule(rows, v)
        ensures Throughput(rows, v, curve) <= best
      {
        SlowTailBeatsEverything(rows, curve, v);
      }
    }
    if forall v: seq<int> | IsSchedule(rows, v) :: Throughput(rows, v, curve) <= best {
      forall k | |Order(rows)| < k <= Tokens(Capacities(rows), |rows|)
        ensures PaddingIsOutrun(rows, curve, k)
      {
        var v := PaddedSchedule(rows, k);
        assert Throughput(rows, v, curve) == PaddedThroughput(rows, curve, k);
        OutrunIsBeaten(rows, curve, k);
      }
    }
  }

  lemma ExpectedNonNegative(rows: seq<seq<real>>, v: seq<int>)
    requires AllDecay(rows) && IsSchedule(rows, v)
    ensures Expected(rows, v) >= 0.0
  {
    TotalMassNonNegative(rows, v, |rows|);
  }

  lemma SlowTailBeatsEverything(rows: seq<seq<real>>, curve: StepCurve, v: seq<int>)
    requires AllDecay(rows) && Plan(rows, curve, false).Success? && IsSchedule(rows, v) && TailIsSlow(rows, curve)
    ensures Throughput(rows, v, curve) <= Plan(rows, curve, false).value.expectedTokensPerSecond
  {
    hide Mass, TotalMass, Tokens, Expected, GreedyLengths, Order, Plan, Walk;
    if Tokens(v, |rows|) <= |Order(rows)| {
      PathSizedIsBeaten(rows, curve, v);
    } else {
      OversizedIsBeaten(rows, curve, v);
    }
  }

  /** A schedule longer than the path has at most the value of the padded path, or a negative one. */
  lemma OversizedIsBeaten(rows: seq<seq<real>>, curve: StepCurve, v: seq<int>)
    requires AllDecay(rows) && Plan(rows, curve, false).Success? && IsSchedule(rows, v) && TailIsSlow(rows, curve)
    requires Tokens(v, |rows|) > |Order(rows)|
    ensures Throughput(rows, v, curve) <= Plan(rows, curve, false).value.expectedTokensPerSecond
  {
    hide Mass, TotalMass, Tokens, Expected, GreedyLengths, Order, Plan, Walk;
    var k := Tokens(v, |rows|);
    OrderIsGreedy(rows);
    FullPathIsBest(rows, Order(rows), v);
    TokensMonotone(v, Capacities(rows), |rows|);
    OutrunIsBeaten(rows, curve, k);
    ExpectedNonNegative(rows, v);
    NonNegativeBest(rows, curve);
    ScaledByRate(Expected(rows, v), Expected(rows, Point(rows, |Order(rows)|)), curve(|rows| + k));
  }

  lemma ScaledByRate(e: real, full: real, rate: real)
    requires 0.0 <= e <= full
    ensures rate >= 0.0 ==> e * rate <= full * rate
    ensures rate <= 0.0 ==> e * rate <= 0.0
  {
  }

  lemma NonNegativeBest(rows: seq<seq<real>>, curve: StepCurve)
    requires AllDecay(rows) && Plan(rows, curve, false).Success?
    ensures Plan(rows, curve, false).value.expectedTokensPerSecond >= 0.0
  {
    hide Mass, TotalMass, Tokens, Expected, GreedyLengths, Order, Plan, Walk;
    ExhaustiveIsPathBest(rows, curve, 0);
    ExpectedNonNegative(rows, Point(rows, 0));
    ScaleMonotone(0.0, Expected(rows, Point(rows, 0)), curve(|rows|));
  }

  /** A schedule of k draft tokens that contains the whole path, for every k up to the capacity. */
  lemma {:induction false} PaddedSchedule(rows: seq<seq<real>>, k: nat) returns (v: seq<int>)
    requires AllDecay(rows) && |Order(rows)| <= k <= Tokens(Capacities(rows), |rows|)
    ensures IsSchedule(rows, v) && Tokens(v, |rows|) == k
    ensures Expected(rows, v) == Expected(rows, Point(rows, |Order(rows)|))
  {
    OrderIsGreedy(rows);
    var full := Point(rows, |Order(rows)|);
    v := PadTo(rows, full, k);
    FullPathIsBest(rows, Order(rows), v);
    TotalMassMonotone(rows, full, v, |rows|);
  }

  lemma {:induction false} PadTo(rows: seq<seq<real>>, base: seq<int>, k: nat) returns (v: seq<int>)
    requires IsSchedule(rows, base) && Tokens(base, |rows|) <= k <= Tokens(Capacities(rows), |rows|)
    ensures IsSchedule(rows, v) && Tokens(v, |rows|) == k
    ensures forall i :: 0 <= i < |v| ==> base[i] <= v[i]
    decreases k
  {
    if Tokens(base, |rows|) == k {
      v := base;
    } else {
      NoTokens(base, |rows|);
      v := PadTo(rows, base, k - 1);
      if forall i :: 0 <= i < |v| ==> v[i] >= Capacities(rows)[i] {
        TokensMonotone(Capacities(rows), v, |rows|);
        assert false;
      }
      var i :| 0 <= i < |v| && v[i] < Capacities(rows)[i];
      TokensUpdate(v, i, v[i] + 1, |rows|);
      v := v[i := v[i] + 1];
    }
  }

  ghost predicate NonIncreasing(curve: StepCurve) {
    forall m: int, n: int :: m <= n ==> Faster(curve, m, n)
  }

  predicate Faster(curve: StepCurve, m: int, n: int) {
    curve(m) >= curve(n)
  }

  /** On a non-increasing curve the exhaustive result is optimal among all schedules whatsoever. */
  lemma ExhaustiveIsOptimalOnNonIncreasing(rows: seq<seq<real>>, curve: StepCurve, v: seq<int>)
    requires AllDecay(rows) && Plan(rows, curve, false).Success? && NonIncreasing(curve) && IsSchedule(rows, v)
    ensures Throughput(rows, v, curve) <= Plan(rows, curve, false).value.expectedTokensPerSecond
  {
    hide Mass, TotalMass, Tokens, Expected, GreedyLengths, Order, Plan, Walk;
    var end := |Order(rows)|;
    forall k | end < k <= Tokens(Capacities(rows), |rows|)
      ensures PaddingIsOutrun(rows, curve, k)
    {
      assert Faster(curve, |rows| + end, |rows| + k);
      ExpectedNonNegative(rows, Point(rows, end));
      ScaleMonotone(curve(|rows| + k), curve(|rows| + end), Expected(rows, Point(rows, end)));
      assert OutrunsPadding(rows, curve, end, k);
    }
    SlowTailBeatsEverything(rows, curve, v);
  }

  // ---- Early stop ----

  function StepTime(rate: real): real
    requires rate > 0.0
  {
    1.0 / rate
  }

  /** The growth of the step time does not slow down from n to n + 2. */
  predicate ConvexAt(curve: StepCurve, n: int) {
    && curve(n) > 0.0 && curve(n + 1) > 0.0 && curve(n + 2) > 0.0
    && StepTime(curve(n + 1)) - StepTime(curve(n)) <= StepTime(curve(n + 2)) - StepTime(curve(n + 1))
  }

  /** A smooth capacity curve on [lo, hi]: positive rates and convex step times. */
  predicate Smooth(curve: StepCurve, lo: int, hi: int) {
    && (forall n :: lo <= n <= hi ==> curve(n) > 0.0)
    && (forall n :: lo <= n <= hi - 2 ==> ConvexAt(curve, n))
  }

  /** Comparing e1 * r1 with e0 * r0 is comparing e1 / g1 with e0 / g0 for the step times g. */
  lemma RatesAsTimes(e0: real, r0: real, e1: real, r1: real)
    requires r0 > 0.0 && r1 > 0.0
    ensures StepTime(r0) > 0.0 && StepTime(r1) > 0.0
    ensures e1 * r1 <= e0 * r0 <==> e1 * StepTime(r0) <= e0 * StepTime(r1)
  {
    var g0, g1 := StepTime(r0), StepTime(r1);
    assert r0 * g0 == 1.0 && r1 * g1 == 1.0;
    assert g0 > 0.0 && g1 > 0.0;
    var x, y := e1 * r1, e0 * r0;
    assert x * (g0 * g1) == e1 * g0 by {
      assert x * (g0 * g1) == e1 * g0 * (r1 * g1);
    }
    assert y * (g0 * g1) == e0 * g1 by {
      assert y * (g0 * g1) == e0 * g1 * (r0 * g0);
    }
    assert g0 * g1 > 0.0;
    if x <= y {
      ScaleMonotone(x, y, g0 * g1);
    } else {
      StrictScale(y, x, g0 * g1);
    }
  }

  lemma StrictScale(a: real, b: real, c: real)
    requires a < b && c > 0.0
    ensures a * c < b * c
  {
  }

  /** The ratio of a concave numerator to a convex denominator does not recover once it stops growing. */
  lemma RatioStaysFlat(e: real, s1: real, s2: real, g0: real, g1: real, g2: real)
    requires e >= 0.0 && s1 >= s2 >= 0.0 && g1 > 0.0
    requires g1 - g0 <= g2 - g1
    requires (e + s1) * g0 <= e * g1
    ensures (e + s1 + s2) * g1 <= (e + s1) * g2
  {
    var d := g1 - g0;
    assert s1 * g0 <= e * d;
    assert s1 * g1 == s1 * g0 + s1 * d;
    assert e * d + s1 * d == (e + s1) * d;
    ScaleMonotone(s2, s1, g1);
    ScaleMonotone(d, g2 - g1, e + s1);
    assert (e + s1) * (g2 - g1) == (e + s1) * g2 - (e + s1) * g1;
    assert (e + s1 + s2) * g1 == (e + s1) * g1 + s2 * g1;
  }

  /** On a smooth curve a point that does not improve is followed by a point that does not improve. */
  lemma FlatStaysFlat(rows: seq<seq<real>>, curve: StepCurve, k: nat)
    requires AllDecay(rows) && 1 <= k < |Order(rows)|
    requires Smooth(curve, |rows|, |rows| + |Order(rows)|)
    requires !Improves(Path(rows, curve), k)
    ensures !Improves(Path(rows, curve), k + 1)
  {
    hide Mass, TotalMass, Tokens, Expected, GreedyLengths, Order, Plan, Walk;
    var path, order := Path(rows, curve), Order(rows);
    OrderIsGreedy(rows);
    GreedyPathIsPath(rows, curve);
    assert StepsTo(order[k - 1], path[k - 1], path[k], curve);
    assert StepsTo(order[k], path[k], path[k + 1], curve);
    var n, e := |rows| + k - 1, path[k - 1].expectedAcceptedTokens;
    assert IsCandidate(rows, order[k]);
    assert Before(order[k - 1], order[k]);
    ExpectedNonNegative(rows, Point(rows, k - 1));
    assert path[k - 1] == Score(rows, Point(rows, k - 1), curve);
    ThroughputStaysFlat(curve, n, e, order[k - 1].survival, order[k].survival);
  }

  lemma ThroughputStaysFlat(curve: StepCurve, n: int, e: real, s1: real, s2: real)
    requires ConvexAt(curve, n) && e >= 0.0 && s1 >= s2 >= 0.0
    requires (e + s1) * curve(n + 1) <= e * curve(n)
    ensures (e + s1 + s2) * curve(n + 2) <= (e + s1) * curve(n + 1)
  {
    hide StepTime;
    var r0, r1, r2 := curve(n), curve(n + 1), curve(n + 2);
    RatesAsTimes(e, r0, e + s1, r1);
    RatesAsTimes(e + s1, r1, e + s1 + s2, r2);
    RatioStaysFlat(e, s1, s2, StepTime(r0), StepTime(r1), StepTime(r2));
  }

  /** On a smooth curve the first non-improvement is final. */
  lemma {:induction false} FlatToTheEnd(rows: seq<seq<real>>, curve: StepCurve, m: nat, k: nat)
    requires AllDecay(rows) && 1 <= m <= k <= |Order(rows)|
    requires Smooth(curve, |rows|, |rows| + |Order(rows)|)
    requires !Improves(Path(rows, curve), m)
    ensures !Improves(Path(rows, curve), k)
  {
    hide Mass, TotalMass, Tokens, Expected, GreedyLengths, Order, Plan, Walk;
    if m < k {
      FlatToTheEnd(rows, curve, m, k - 1);
      FlatStaysFlat(rows, curve, k - 1);
    }
  }
}
