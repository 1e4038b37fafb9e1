/**
  When the planner's two modes keep their promises, read off the step-rate curve alone: the exact
  conditions under which early stopping loses nothing, and under which the exhaustive result is
  optimal, on every batch of a given shape.
 */
module CurveConditions {
  import opened Wrappers
  import opened PrefixValue
  import opened GreedyOrder
  import opened PrefixScheduler
  import opened SchedulerTheorems
  import opened GreedyGains
  import BatchRuns

  predicate Positive(curve: StepCurve, lo: int, hi: int) {
    forall n :: lo <= n <= hi ==> curve(n) > 0.0
  }

  predicate NonNegative(curve: StepCurve, lo: int, hi: int) {
    forall n :: lo <= n <= hi ==> curve(n) >= 0.0
  }

  /** Throughput of R requests when j draft tokens are certain to be accepted. */
  function CertainThroughput(curve: StepCurve, R: nat, j: nat): real {
    Yield((R + j) as real, curve(R + j))
  }

  // ---- The condition for early stopping ----

  /** The largest survival at which one more token does not improve on p certain tokens. */
  function Slack(p: real, c0: real, c1: real): real
    requires c1 > 0.0
  {
    var x := p * (c0 / c1 - 1.0);
    if x < 1.0 then x else 1.0
  }

  predicate ImprovesAt(curve: StepCurve, R: nat, j: nat)
    requires j >= 1
  {
    CertainThroughput(curve, R, j) > CertainThroughput(curve, R, j - 1)
  }

  /** With enough certain tokens before it, the planner can stop at its m-th candidate. */
  predicate CanStopAt(curve: StepCurve, R: nat, m: nat) {
    && 1 <= m && curve(R + m) < curve(R + m - 1)
    && forall j :: 1 <= j < m ==> ImprovesAt(curve, R, j)
  }

  /** Throughput of m - 1 certain tokens and then tokens of survival x, k tokens in all. */
  function StairThroughput(curve: StepCurve, R: nat, m: nat, k: nat, x: real): real
    requires 1 <= m <= k
  {
    Yield(Along((R + m - 1) as real, k - m + 1, x), curve(R + k))
  }

  /** After a stop at the m-th candidate, k tokens can still be faster. */
  predicate Recovers(curve: StepCurve, R: nat, m: nat, k: nat)
    requires 1 <= m <= k && curve(R + m) > 0.0
  {
    var x := Slack((R + m - 1) as real, curve(R + m - 1), curve(R + m));
    StairThroughput(curve, R, m, k, x) > CertainThroughput(curve, R, m - 1)
  }

  /** No stop within n draft tokens is followed by a recovery. */
  predicate NeverRecovers(curve: StepCurve, R: nat, n: nat)
    requires Positive(curve, R, R + n)
  {
    forall m: nat, k: nat :: 1 <= m < k <= n && CanStopAt(curve, R, m) ==> !Recovers(curve, R, m, k)
  }

  lemma SlackBounds(p: real, c0: real, c1: real)
    requires p > 0.0 && c0 > c1 > 0.0
    ensures var s := Slack(p, c0, c1);
            0.0 < s <= 1.0 && s * c1 <= p * (c0 - c1) && (s == 1.0 || s * c1 == p * (c0 - c1))
  {
    var q := c0 / c1;
    assert q * c1 == c0;
    assert q > 1.0;
    var x := p * (q - 1.0);
    assert x > 0.0;
    assert x * c1 == p * (c0 - c1) by {
      assert x * c1 == p * (q * c1 - c1);
    }
    if x >= 1.0 {
      ScaleMonotone(1.0, x, c1);
    }
  }

  lemma Cancel(a: real, b: real, c: real)
    requires a * c <= b * c && c > 0.0
    ensures a <= b
  {
    if a > b {
      StrictScale(b, a, c);
    }
  }

  lemma YieldMonotone(e: real, f: real, rate: real)
    requires e <= f && rate >= 0.0
    ensures Yield(e, rate) <= Yield(f, rate)
  {
  }

  /** A token of survival x that does not improve on e expected tokens scales down to slack over p certain ones. */
  lemma SlackDominates(e: real, x: real, p: real, c0: real, c1: real)
    requires e >= p * x && p > 0.0 && c0 > c1 > 0.0 && e > 0.0
    requires (e + x) * c1 <= e * c0
    ensures p * x <= e * Slack(p, c0, c1)
  {
    hide Slack;
    var s := Slack(p, c0, c1);
    SlackBounds(p, c0, c1);
    if s != 1.0 {
      assert x * c1 <= e * (c0 - c1);
      ScaleMonotone(x * c1, e * (c0 - c1), p);
      assert (p * x) * c1 == (x * c1) * p;
      assert (e * s) * c1 == e * (s * c1) == e * (p * (c0 - c1)) == (e * (c0 - c1)) * p;
      Cancel(p * x, e * s, c1);
    }
  }

  /** If slack over p certain tokens does not recover after n more, x over e expected tokens does not either. */
  lemma NoRecoveryScales(e: real, x: real, p: real, s: real, n: nat, c0: real, ck: real)
    requires p * x <= e * s && p > 0.0 && e > 0.0 && ck > 0.0
    requires Yield(Along(p, n, s), ck) <= Yield(p, c0)
    ensures Yield(Along(e, n, x), ck) <= Yield(e, c0)
  {
    var a, b := p * (e + n as real * x), e * (p + n as real * s);
    assert a <= b by {
      ScaleMonotone(p * x, e * s, n as real);
      assert a == p * e + (p * x) * n as real;
      assert b == e * p + (e * s) * n as real;
    }
    ScaleMonotone(a, b, ck);
    ScaleMonotone((p + n as real * s) * ck, p * c0, e);
    assert b * ck == ((p + n as real * s) * ck) * e;
    assert ((e + n as real * x) * ck) * p == a * ck;
    assert (p * c0) * e == (e * c0) * p;
    Cancel((e + n as real * x) * ck, e * c0, p);
  }

  /** Slack over p certain tokens, dominating a token of survival x over e expected ones. */
  predicate Dominates(e: real, x: real, p: real, s: real) {
    p * x <= e * s
  }

  lemma StopDominates(e: real, x: real, p: nat, c0: real, c1: real)
    requires e > 0.0 && p > 0 && c0 > c1 > 0.0 && e >= Along(0.0, p, x)
    requires Yield(e + x, c1) <= Yield(e, c0)
    ensures Dominates(e, x, p as real, Slack(p as real, c0, c1))
  {
    hide Slack;
    SlackDominates(e, x, p as real, c0, c1);
  }

  lemma DominatedRecovers(e: real, x: real, p: nat, s: real, n: nat, c0: real, ck: real)
    requires Dominates(e, x, p as real, s) && p > 0 && e > 0.0 && ck > 0.0
    requires Yield(Along(p as real, n, s), ck) <= Yield(p as real, c0)
    ensures Yield(Along(e, n, x), ck) <= Yield(e, c0)
  {
    hide Yield, Along;
    NoRecoveryScales(e, x, p as real, s, n, c0, ck);
  }

  lemma NoPointRecovers(e: real, x: real, f: real, p: nat, n: nat, c0: real, c1: real, ck: real)
    requires e > 0.0 && p > 0 && c0 > c1 > 0.0 && ck > 0.0
    requires e >= Along(0.0, p, x) && f <= Along(e, n, x)
    requires Yield(e + x, c1) <= Yield(e, c0)
    requires Yield(Along(p as real, n, Slack(p as real, c0, c1)), ck) <= Yield(p as real, c0)
    ensures Yield(f, ck) <= Yield(e, c0)
  {
    hide Yield, Along, Slack, Dominates;
    StopDominates(e, x, p, c0, c1);
    DominatedRecovers(e, x, p, Slack(p as real, c0, c1), n, c0, ck);
    YieldMonotone(f, Along(e, n, x), ck);
  }

  // ---- The condition suffices ----

  lemma PositiveRates(rows: seq<seq<real>>, curve: StepCurve)
    requires AllDecay(rows) && NonNegative(curve, |rows|, |rows| + |Order(rows)|)
    ensures forall k :: 0 <= k < |Path(rows, curve)| ==> !NegativeRate(Path(rows, curve), curve, k)
    ensures Plan(rows, curve, true).Success? && Plan(rows, curve, false).Success?
  {
    hide Order;
    var path := Path(rows, curve);
    forall k | 0 <= k < |path|
      ensures !NegativeRate(path, curve, k)
    {
      PathRate(rows, curve, k);
    }
  }

  lemma PointImproves(rows: seq<seq<real>>, curve: StepCurve, j: nat)
    requires AllDecay(rows) && 1 <= j <= |Order(rows)|
    ensures Improves(Path(rows, curve), j)
            <==> Yield(Reach(rows, j), curve(|rows| + j)) > Yield(Reach(rows, j - 1), curve(|rows| + j - 1))
  {
    hide Order, Reach, Yield, Path, AllDecay, Score;
    PathRate(rows, curve, j - 1);
    PathRate(rows, curve, j);
  }

  /** Improvement at point j of any path means improvement with j certain tokens. */
  lemma ImprovementIsCertain(rows: seq<seq<real>>, curve: StepCurve, j: nat)
    requires AllDecay(rows) && 1 <= j <= |Order(rows)| && Positive(curve, |rows|, |rows| + |Order(rows)|)
    requires Improves(Path(rows, curve), j)
    ensures ImprovesAt(curve, |rows|, j)
  {
    hide Order, Gain, Reach, Path, Yield, Improves;
    var R := |rows|;
    PointImproves(rows, curve, j);
    ReachGrowsSlowly(rows, j - 1, j);
    ReachStep(rows, j - 1);
    ReachPositive(rows, j - 1);
    ImprovementScales(Reach(rows, j - 1), Reach(rows, j), (R + j - 1) as real, (R + j) as real, curve(R + j - 1),
        curve(R + j));
  }

  lemma ImprovementScales(e: real, f: real, p: real, q: real, c0: real, c1: real)
    requires Yield(f, p) <= Yield(e, q) && e > 0.0 && c1 > 0.0 && Yield(f, c1) > Yield(e, c0) && p > 0.0
    ensures Yield(q, c1) > Yield(p, c0)
  {
    StrictScale(e * c0, f * c1, p);
    ScaleMonotone(f * p, e * q, c1);
    assert (e * c0) * p == (p * c0) * e;
    assert (f * c1) * p == (f * p) * c1;
    assert (e * q) * c1 == (q * c1) * e;
    if q * c1 <= p * c0 {
      ScaleMonotone(q * c1, p * c0, e);
    }
  }

  /** A stop of the planner is a stop that certain tokens could cause. */
  lemma StopIsCertain(rows: seq<seq<real>>, curve: StepCurve, m: nat)
    requires AllDecay(rows) && 1 <= m <= |Order(rows)| && Positive(curve, |rows|, |rows| + |Order(rows)|)
    requires !Improves(Path(rows, curve), m) && forall j :: 1 <= j < m ==> Improves(Path(rows, curve), j)
    ensures CanStopAt(curve, |rows|, m)
  {
    hide Order, Gain, Reach, Path, ImprovesAt, Yield, Improves, AllDecay;
    var R := |rows|;
    forall j | 1 <= j < m
      ensures ImprovesAt(curve, R, j)
    {
      ImprovementIsCertain(rows, curve, j);
    }
    PointImproves(rows, curve, m);
    ReachStep(rows, m - 1);
    ReachPositive(rows, m - 1);
    RateFalls(Reach(rows, m - 1), Gain(rows, m - 1), curve(R + m - 1), curve(R + m));
  }

  lemma RateFalls(e: real, x: real, c0: real, c1: real)
    requires e > 0.0 && x > 0.0 && c1 > 0.0 && Yield(e + x, c1) <= Yield(e, c0)
    ensures c1 < c0
  {
    StrictScale(e, e + x, c1);
    if c0 <= c1 {
      ScaleMonotone(c0, c1, e);
    }
  }

  /** Past a stop from which the curve never recovers, no point of the path is faster than the one before the stop. */
  lemma PointsPastStop(rows: seq<seq<real>>, curve: StepCurve, m: nat, k: nat)
    requires AllDecay(rows) && 1 <= m <= k <= |Order(rows)| && Positive(curve, |rows|, |rows| + |Order(rows)|)
    requires NeverRecovers(curve, |rows|, |Order(rows)|) && CanStopAt(curve, |rows|, m)
    requires !Improves(Path(rows, curve), m)
    ensures Path(rows, curve)[k].expectedTokensPerSecond <= Path(rows, curve)[m - 1].expectedTokensPerSecond
  {
    hide Order, Reach, Path, Yield, Improves, AllDecay, Recovers;
    PointImproves(rows, curve, m);
    if m < k {
      assert !Recovers(curve, |rows|, m, k);
      LaterYield(rows, curve, m, k);
    }
    PathRate(rows, curve, m - 1);
    PathRate(rows, curve, k);
  }

  lemma LaterYield(rows: seq<seq<real>>, curve: StepCurve, m: nat, k: nat)
    requires AllDecay(rows) && 1 <= m < k <= |Order(rows)|
    requires curve(|rows| + m - 1) > curve(|rows| + m) > 0.0 && curve(|rows| + k) > 0.0
    requires Yield(Reach(rows, m), curve(|rows| + m)) <= Yield(Reach(rows, m - 1), curve(|rows| + m - 1))
    requires !Recovers(curve, |rows|, m, k)
    ensures Yield(Reach(rows, k), curve(|rows| + k)) <= Yield(Reach(rows, m - 1), curve(|rows| + m - 1))
  {
    hide Order, Gain, Reach, Slack, Yield, Along, AllDecay;
    var R, e, x := |rows|, Reach(rows, m - 1), Gain(rows, m - 1);
    ReachStep(rows, m - 1);
    ReachPositive(rows, m - 1);
    ReachCoversGain(rows, m - 1, m - 1);
    ReachAtMost(rows, m - 1, k);
    NoPointRecovers(e, x, Reach(rows, k), R + m - 1, k - m + 1, curve(R + m - 1), curve(R + m), curve(R + k));
  }

  lemma {:induction false} FirstBestIs(path: seq<ScheduleResult>, m: nat, b: nat)
    requires b <= m < |path|
    requires forall j :: 0 <= j <= m ==> path[j].expectedTokensPerSecond <= path[b].expectedTokensPerSecond
    requires forall j :: 0 <= j < b ==> path[j].expectedTokensPerSecond < path[b].expectedTokensPerSecond
    ensures FirstBest(path, m) == b
  {
    var f := FirstBest(path, m);
    assert path[f].expectedTokensPerSecond == path[b].expectedTokensPerSecond;
  }

  lemma ImprovingRises(path: seq<ScheduleResult>, b: nat, j: nat)
    requires j < b < |path| && forall i :: 1 <= i <= b ==> Improves(path, i)
    ensures path[j].expectedTokensPerSecond < path[b].expectedTokensPerSecond
    decreases b
  {
    assert Improves(path, b);
    if j < b - 1 {
      ImprovingRises(path, b - 1, j);
    }
  }

  /** If nothing past the stop beats the point before it, both walks return that point. */
  lemma StopWalk(path: seq<ScheduleResult>, curve: StepCurve, m: nat)
    requires |path| > 0 && m == StopIndex(path, 1)
    requires forall k :: 0 <= k < |path| ==> !NegativeRate(path, curve, k)
    requires m >= 1 && !Improves(path, m) ==>
               forall k :: m <= k < |path| ==> path[k].expectedTokensPerSecond <= path[m - 1].expectedTokensPerSecond
    ensures Walk(path, curve, true) == Walk(path, curve, false) && Walk(path, curve, true).Success?
  {
    hide NegativeRate, Improves, FirstBest;
    if m >= 1 && !Improves(path, m) {
      forall j | 0 <= j < m - 1
        ensures path[j].expectedTokensPerSecond < path[m - 1].expectedTokensPerSecond
      {
        ImprovingRises(path, m - 1, j);
      }
      FirstBestIs(path, m, m - 1);
      FirstBestIs(path, |path| - 1, m - 1);
    }
  }

  /** Where the curve never recovers within the path, early stopping returns the result of the full traversal. */
  lemma EarlyStopIsFinal(rows: seq<seq<real>>, curve: StepCurve)
    requires AllDecay(rows) && Positive(curve, |rows|, |rows| + |Order(rows)|)
    requires NeverRecovers(curve, |rows|, |Order(rows)|)
    ensures Plan(rows, curve, true) == Plan(rows, curve, false)
    ensures Plan(rows, curve, true).Success?
  {
    hide Order, Path, Walk, StopIndex, Improves, NegativeRate, Recovers;
    PositiveRates(rows, curve);
    var path := Path(rows, curve);
    var m := StopIndex(path, 1);
    if m >= 1 && !Improves(path, m) {
      StopIsCertain(rows, curve, m);
      forall k | m <= k < |path|
        ensures path[k].expectedTokensPerSecond <= path[m - 1].expectedTokensPerSecond
      {
        PointsPastStop(rows, curve, m, k);
      }
    }
    StopWalk(path, curve, m);
  }

  // ---- The condition is necessary ----

  /** Point j of the path of stair rows, before and after the certain tokens run out. */
  lemma StairPoint(shape: seq<nat>, curve: StepCurve, m: nat, k: nat, x: real, j: nat)
    requires 1 <= m <= k <= Capacity(shape) && 0.0 < x <= 1.0 && j <= k
    ensures AllDecay(StairRows(shape, m - 1, k, x)) && |Order(StairRows(shape, m - 1, k, x))| == k
    ensures var t := Path(StairRows(shape, m - 1, k, x), curve)[j].expectedTokensPerSecond;
            t == if j < m then CertainThroughput(curve, |shape|, j) else StairThroughput(curve, |shape|, m, j, x)
  {
    hide Order, Reach, Path, StairRows, BatchRuns.Sum, Yield;
    var rows := StairRows(shape, m - 1, k, x);
    StairReach(shape, m - 1, k, x, j);
    PathRate(rows, curve, j);
  }

  /**
    m - 1 certain tokens and then tokens of survival x: if the first of those does not improve, early
    stopping returns the throughput of the certain tokens and the full traversal at least that of all k.
   */
  lemma StairsStop(shape: seq<nat>, curve: StepCurve, m: nat, k: nat, x: real)
    requires 1 <= m <= k <= Capacity(shape) && 0.0 < x <= 1.0
    requires Positive(curve, |shape|, |shape| + Capacity(shape))
    requires forall j :: 1 <= j < m ==> ImprovesAt(curve, |shape|, j)
    requires StairThroughput(curve, |shape|, m, m, x) <= CertainThroughput(curve, |shape|, m - 1)
    ensures var rows := StairRows(shape, m - 1, k, x);
            && AllDecay(rows) && Plan(rows, curve, true).Success? && Plan(rows, curve, false).Success?
            && Plan(rows, curve, true).value.expectedTokensPerSecond == CertainThroughput(curve, |shape|, m - 1)
            && Plan(rows, curve, false).value.expectedTokensPerSecond >= StairThroughput(curve, |shape|, m, k, x)
  {
    hide Order, Path, StairRows, BatchRuns.Sum, NegativeRate, Walk, IsStairPath, StairThroughput, CertainThroughput;
    var rows := StairRows(shape, m - 1, k, x);
    StairPath(shape, curve, m, k, x);
    PositiveRates(rows, curve);
    StairWalks(Path(rows, curve), curve, |shape|, m, k, x);
  }

  /** The throughputs along the path of stair rows. */
  predicate IsStairPath(path: seq<ScheduleResult>, curve: StepCurve, R: nat, m: nat, k: nat, x: real)
    requires 1 <= m <= k
  {
    && |path| == k + 1
    && forall j :: 0 <= j <= k ==>
         path[j].expectedTokensPerSecond == if j < m then CertainThroughput(curve, R, j)
             else StairThroughput(curve, R, m, j, x)
  }

  lemma StairPath(shape: seq<nat>, curve: StepCurve, m: nat, k: nat, x: real)
    requires 1 <= m <= k <= Capacity(shape) && 0.0 < x <= 1.0
    ensures AllDecay(StairRows(shape, m - 1, k, x)) && |Order(StairRows(shape, m - 1, k, x))| == k
    ensures IsStairPath(Path(StairRows(shape, m - 1, k, x), curve), curve, |shape|, m, k, x)
  {
    hide Order, StairRows, BatchRuns.Sum, StairThroughput, CertainThroughput;
    StairPoint(shape, curve, m, k, x, 0);
    var path := Path(StairRows(shape, m - 1, k, x), curve);
    forall j | 0 <= j <= k
      ensures path[j].expectedTokensPerSecond == if j < m then CertainThroughput(curve, |shape|, j)
              else StairThroughput(curve, |shape|, m, j, x)
    {
      StairPoint(shape, curve, m, k, x, j);
    }
  }

  lemma StairWalks(path: seq<ScheduleResult>, curve: StepCurve, R: nat, m: nat, k: nat, x: real)
    requires 1 <= m <= k && IsStairPath(path, curve, R, m, k, x)
    requires forall j :: 0 <= j < |path| ==> !NegativeRate(path, curve, j)
    requires forall j :: 1 <= j < m ==> ImprovesAt(curve, R, j)
    requires StairThroughput(curve, R, m, m, x) <= CertainThroughput(curve, R, m - 1)
    ensures Walk(path, curve, true).Success? && Walk(path, curve, false).Success?
    ensures Walk(path, curve, true).value.expectedTokensPerSecond == CertainThroughput(curve, R, m - 1)
    ensures Walk(path, curve, false).value.expectedTokensPerSecond >= StairThroughput(curve, R, m, k, x)
  {
    hide CertainThroughput, StairThroughput, NegativeRate;
    StopsAfterRise(path, curve, R, m);
    assert path[k].expectedTokensPerSecond == StairThroughput(curve, R, m, k, x);
  }

  lemma StopsAfterRise(path: seq<ScheduleResult>, curve: StepCurve, R: nat, m: nat)
    requires 1 <= m < |path| && forall j :: 1 <= j < m ==> ImprovesAt(curve, R, j)
    requires forall j :: 0 <= j < m ==> path[j].expectedTokensPerSecond == CertainThroughput(curve, R, j)
    requires path[m].expectedTokensPerSecond <= path[m - 1].expectedTokensPerSecond
    ensures StopIndex(path, 1) == m && FirstBest(path, m) == m - 1
  {
    hide CertainThroughput;
    forall j | 1 <= j < m
      ensures Improves(path, j)
    {
      assert ImprovesAt(curve, R, j);
    }
    StopsHere(path, m, 1);
    assert Improving(path, m - 1);
    ImprovingIsBest(path, m - 1);
  }

  /** A stop followed by a recovery costs throughput on some batch of the shape. */
  lemma RecoveryLoses(shape: seq<nat>, curve: StepCurve, m: nat, k: nat) returns (rows: seq<seq<real>>)
    requires 1 <= m < k <= Capacity(shape) && Positive(curve, |shape|, |shape| + Capacity(shape))
    requires CanStopAt(curve, |shape|, m) && Recovers(curve, |shape|, m, k)
    ensures HasShape(rows, shape) && AllDecay(rows)
    ensures Plan(rows, curve, true).Success? && Plan(rows, curve, false).Success?
    ensures Plan(rows, curve, true).value.expectedTokensPerSecond
            < Plan(rows, curve, false).value.expectedTokensPerSecond
  {
    hide StairRows, Plan, BatchRuns.Sum, Slack, CertainThroughput;
    var R := |shape|;
    assert R > 0 by {
      EmptyShape(shape);
    }
    var c0, c1 := curve(R + m - 1), curve(R + m);
    var x := Slack((R + m - 1) as real, c0, c1);
    rows := StairRows(shape, m - 1, k, x);
    SlackStops(R + m - 1, c0, c1);
    assert CertainThroughput(curve, R, m - 1) == Yield((R + m - 1) as real, c0) by {
      CertainIs(curve, R, m - 1);
    }
    StairsStop(shape, curve, m, k, x);
  }

  lemma CertainIs(curve: StepCurve, R: nat, j: nat)
    ensures CertainThroughput(curve, R, j) == Yield((R + j) as real, curve(R + j))
  {
  }

  lemma EmptyShape(shape: seq<nat>)
    ensures |shape| == 0 ==> Capacity(shape) == 0
  {
  }

  lemma SlackStops(p: nat, c0: real, c1: real)
    requires p > 0 && c0 > c1 > 0.0
    ensures var x := Slack(p as real, c0, c1);
            0.0 < x <= 1.0 && Yield(Along(p as real, 1, x), c1) <= Yield(p as real, c0)
  {
    hide Slack;
    var x := Slack(p as real, c0, c1);
    SlackBounds(p as real, c0, c1);
    assert (p as real + x) * c1 == p as real * c1 + x * c1;
  }

  // ---- Early stopping, exactly ----

  lemma {:induction false} CapacityIsTokens(rows: seq<seq<real>>, shape: seq<nat>, n: nat)
    requires HasShape(rows, shape) && n <= |shape|
    ensures Tokens(Capacities(rows), n) == BatchRuns.Sum(shape, n)
  {
    if n > 0 {
      CapacityIsTokens(rows, shape, n - 1);
    }
  }

  lemma OrderFits(rows: seq<seq<real>>, shape: seq<nat>)
    requires HasShape(rows, shape) && AllDecay(rows)
    ensures |Order(rows)| <= Capacity(shape)
  {
    hide Order, GreedyLengths;
    OrderIsGreedy(rows);
    PathTokens(rows, Order(rows), |Order(rows)|);
    TokensMonotone(Point(rows, |Order(rows)|), Capacities(rows), |rows|);
    CapacityIsTokens(rows, shape, |shape|);
  }

  /** Both modes succeed and return the same result on every batch of the shape. */
  ghost predicate NeverLoses(shape: seq<nat>, curve: StepCurve) {
    forall rows: seq<seq<real>> | HasShape(rows, shape) && AllDecay(rows) :: SameResult(rows, curve)
  }

  predicate SameResult(rows: seq<seq<real>>, curve: StepCurve)
    requires AllDecay(rows)
  {
    Plan(rows, curve, true).Success? && Plan(rows, curve, true) == Plan(rows, curve, false)
  }

  /** Both modes succeed with the same throughput on every batch of the shape. */
  ghost predicate NeverSlower(shape: seq<nat>, curve: StepCurve) {
    forall rows: seq<seq<real>> | HasShape(rows, shape) && AllDecay(rows) :: SameThroughput(rows, curve)
  }

  predicate SameThroughput(rows: seq<seq<real>>, curve: StepCurve)
    requires AllDecay(rows)
  {
    && Plan(rows, curve, true).Success? && Plan(rows, curve, false).Success?
    && Plan(rows, curve, true).value.expectedTokensPerSecond == Plan(rows, curve, false).value.expectedTokensPerSecond
  }

  /**
    When early stopping loses nothing, read off the curve: on every batch of a shape both modes return
    the same result, or merely the same throughput, if and only if no stop that certain tokens could
    cause is followed by a recovery within the shape's capacity.
   */
  lemma EarlyStopLosesNothingIff(shape: seq<nat>, curve: StepCurve)
    requires Positive(curve, |shape|, |shape| + Capacity(shape))
    ensures NeverRecovers(curve, |shape|, Capacity(shape)) <==> NeverLoses(shape, curve)
    ensures NeverRecovers(curve, |shape|, Capacity(shape)) <==> NeverSlower(shape, curve)
  {
    hide Plan, CanStopAt, Recovers, Order, HasShape, AllDecay, Capacity;
    if NeverRecovers(curve, |shape|, Capacity(shape)) {
      forall rows: seq<seq<real>> | HasShape(rows, shape) && AllDecay(rows)
        ensures SameResult(rows, curve) && SameThroughput(rows, curve)
      {
        SufficesForRows(rows, shape, curve);
      }
    } else {
      var m: nat, k: nat :| 1 <= m < k <= Capacity(shape) && CanStopAt(curve, |shape|, m)
          && Recovers(curve, |shape|, m, k);
      var rows := RecoveryLoses(shape, curve, m, k);
      assert !SameResult(rows, curve) && !SameThroughput(rows, curve);
    }
  }

  lemma SufficesForRows(rows: seq<seq<real>>, shape: seq<nat>, curve: StepCurve)
    requires Positive(curve, |shape|, |shape| + Capacity(shape)) && NeverRecovers(curve, |shape|, Capacity(shape))
    requires HasShape(rows, shape) && AllDecay(rows)
    ensures SameResult(rows, curve) && SameThroughput(rows, curve)
  {
    hide Plan, CanStopAt, Recovers, Order, Capacity, AllDecay;
    OrderFits(rows, shape);
    EarlyStopIsFinal(rows, curve);
  }

  /** Both modes of a planning call on confidences succeed with the same result. */
  predicate SameSchedule(confidences: seq<seq<real>>, curve: StepCurve) {
    Schedule(confidences, curve, true).Success?
        && Schedule(confidences, curve, true) == Schedule(confidences, curve, false)
  }

  ghost predicate NeverLosesOnConfidences(shape: seq<nat>, curve: StepCurve) {
    forall rows: seq<seq<real>> | HasShape(rows, shape) && ValidRows(rows) :: SameSchedule(rows, curve)
  }

  lemma SameScheduleIff(confidences: seq<seq<real>>, curve: StepCurve)
    requires ValidRows(confidences) && curve(|confidences|) >= 0.0
    ensures AllDecay(SurvivalRows(confidences))
    ensures SameSchedule(confidences, curve) <==> SameResult(SurvivalRows(confidences), curve)
  {
    hide Plan;
    SurvivalRowsDecay(confidences);
  }

  /** The same for the planner as it is called: on all confidences of the shape. */
  lemma PlannerLosesNothingIff(shape: seq<nat>, curve: StepCurve)
    requires Positive(curve, |shape|, |shape| + Capacity(shape))
    ensures NeverRecovers(curve, |shape|, Capacity(shape)) <==> NeverLosesOnConfidences(shape, curve)
  {
    hide NeverRecovers, SameSchedule, SameResult, AllDecay, Capacity, ValidRows;
    EarlyStopLosesNothingIff(shape, curve);
    if NeverLoses(shape, curve) {
      forall rows: seq<seq<real>> | HasShape(rows, shape) && ValidRows(rows)
        ensures SameSchedule(rows, curve)
      {
        SameScheduleIff(rows, curve);
        assert HasShape(SurvivalRows(rows), shape);
      }
    }
    if NeverLosesOnConfidences(shape, curve) {
      forall rows: seq<seq<real>> | HasShape(rows, shape) && AllDecay(rows)
        ensures SameResult(rows, curve)
      {
        var confidences := EveryDecayIsReached(rows);
        assert HasShape(confidences, shape);
        SameScheduleIff(confidences, curve);
      }
    }
  }

  // ---- Smooth curves never recover ----

  /** A convex step time stays above the line through two neighbouring points. */
  lemma {:induction false} AboveTheLine(curve: StepCurve, R: nat, n: nat, m: nat, k: nat)
    requires Smooth(curve, R, R + n) && 1 <= m <= k <= n
    ensures curve(R + m - 1) > 0.0 && curve(R + m) > 0.0 && curve(R + k - 1) > 0.0 && curve(R + k) > 0.0
    ensures var g, d := StepTime(curve(R + m - 1)), StepTime(curve(R + m)) - StepTime(curve(R + m - 1));
            && StepTime(curve(R + k)) - StepTime(curve(R + k - 1)) >= d
            && StepTime(curve(R + k)) >= Along(g, k - m + 1, d)
    decreases k
  {
    hide StepTime;
    if m < k {
      AboveTheLine(curve, R, n, m, k - 1);
      assert ConvexAt(curve, R + k - 2);
      var d := StepTime(curve(R + m)) - StepTime(curve(R + m - 1));
      ProductStep(k - m, d);
    }
  }

  /** Slack over p certain tokens grows at most like the step time. */
  lemma SlackTimes(p: nat, n: nat, c0: real, c1: real, ck: real)
    requires p > 0 && c0 > c1 > 0.0 && ck > 0.0
    requires StepTime(ck) >= Along(StepTime(c0), n, StepTime(c1) - StepTime(c0))
    ensures Yield(Along(p as real, n, Slack(p as real, c0, c1)), ck) <= Yield(p as real, c0)
  {
    hide StepTime, Slack, Yield, Along;
    var s, q := Slack(p as real, c0, c1), p as real;
    SlackStops(p, c0, c1);
    YieldsAsTimes(q, c0, Along(q, 1, s), c1);
    LineScales(q, s, n, StepTime(c0), StepTime(c1), StepTime(ck));
    YieldsAsTimes(q, c0, Along(q, n, s), ck);
  }

  lemma YieldsAsTimes(e0: real, r0: real, e1: real, r1: real)
    requires r0 > 0.0 && r1 > 0.0
    ensures Yield(e1, r1) <= Yield(e0, r0) <==> Yield(e1, StepTime(r0)) <= Yield(e0, StepTime(r1))
  {
    hide StepTime;
    RatesAsTimes(e0, r0, e1, r1);
  }

  lemma LineScales(q: real, s: real, n: nat, g0: real, g1: real, gk: real)
    requires q > 0.0 && Yield(Along(q, 1, s), g0) <= Yield(q, g1) && gk >= Along(g0, n, g1 - g0)
    ensures Yield(Along(q, n, s), g0) <= Yield(q, gk)
  {
    var d, x := g1 - g0, n as real;
    assert s * g0 <= q * d by {
      assert (q + 1.0 * s) * g0 == q * g0 + s * g0;
    }
    ScaleMonotone(s * g0, q * d, x);
    assert (q + x * s) * g0 == q * g0 + (s * g0) * x;
    ScaleMonotone(g0 + x * d, gk, q);
    assert (g0 + x * d) * q == q * g0 + (q * d) * x;
  }

  lemma SmoothNeverRecovers(curve: StepCurve, R: nat, n: nat)
    requires Smooth(curve, R, R + n) && (n > 0 ==> R > 0)
    ensures Positive(curve, R, R + n) && NeverRecovers(curve, R, n)
  {
    hide Slack, StepTime, Along, Yield;
    forall m: nat, k: nat | 1 <= m < k <= n && CanStopAt(curve, R, m)
      ensures !Recovers(curve, R, m, k)
    {
      AboveTheLine(curve, R, n, m, k);
      SlackTimes(R + m - 1, k - m + 1, curve(R + m - 1), curve(R + m), curve(R + k));
    }
  }

  /**
    On a smooth curve early stopping returns exactly the result of the full traversal, and both
    succeed: a smooth curve never recovers.
   */
  lemma EarlyStopLosesNothing(rows: seq<seq<real>>, curve: StepCurve)
    requires AllDecay(rows) && Smooth(curve, |rows|, |rows| + |Order(rows)|)
    ensures Plan(rows, curve, true) == Plan(rows, curve, false)
    ensures Plan(rows, curve, true).Success?
  {
    hide Plan, Order, NeverRecovers, Smooth, Positive;
    if |Order(rows)| > 0 {
      ReachStep(rows, 0);
    }
    SmoothNeverRecovers(curve, |rows|, |Order(rows)|);
    EarlyStopIsFinal(rows, curve);
  }

  // ---- Curves that never fall ----

  /** Where the rate is positive and never falls along the path, every admission improves. */
  lemma RisingImproves(rows: seq<seq<real>>, curve: StepCurve, k: nat)
    requires AllDecay(rows) && 1 <= k <= |Order(rows)|
    requires 0.0 < curve(|rows| + k - 1) <= curve(|rows| + k)
    ensures Improves(Path(rows, curve), k)
  {
    hide Order, Reach, Gain, Path, Improves, AllDecay, Yield;
    PointImproves(rows, curve, k);
    ReachStep(rows, k - 1);
    ReachPositive(rows, k - 1);
    MoreYield(Reach(rows, k - 1), Reach(rows, k), curve(|rows| + k - 1), curve(|rows| + k));
  }

  lemma MoreYield(e: real, f: real, c0: real, c1: real)
    requires 0.0 <= e < f && 0.0 < c0 <= c1
    ensures Yield(f, c1) > Yield(e, c0)
  {
    StrictScale(e, f, c1);
    ScaleMonotone(c0, c1, e);
  }

  /** Then both modes schedule exactly the tokens of positive survival. */
  lemma RisingTakesAll(rows: seq<seq<real>>, curve: StepCurve, earlyStop: bool)
    requires AllDecay(rows) && Positive(curve, |rows|, |rows| + |Order(rows)|)
    requires forall k :: 1 <= k <= |Order(rows)| ==> RisesAt(curve, |rows|, k)
    ensures Plan(rows, curve, earlyStop).Success?
    ensures var s := Plan(rows, curve, earlyStop).value;
            && |s.lengths| == |rows|
            && forall i, j :: 0 <= i < |rows| && 0 <= j < |rows[i]| ==> (rows[i][j] > 0.0 <==> j < s.lengths[i])
  {
    hide Order, Improves, NegativeRate, AllDecay, Score, Path, Walk;
    PositiveRates(rows, curve);
    var path, n := Path(rows, curve), |Order(rows)|;
    forall k | 1 <= k <= n
      ensures Improves(path, k)
    {
      assert RisesAt(curve, |rows|, k);
      RisingImproves(rows, curve, k);
    }
    RisingWalk(path, curve, earlyStop);
    AllTaken(rows, curve);
  }

  /** A path that improves to its end is walked to its end. */
  lemma RisingWalk(path: seq<ScheduleResult>, curve: StepCurve, earlyStop: bool)
    requires |path| > 0 && forall k :: 1 <= k < |path| ==> Improves(path, k)
    requires forall k :: 0 <= k < |path| ==> !NegativeRate(path, curve, k)
    ensures Walk(path, curve, earlyStop) == Success(path[|path| - 1])
  {
    hide Improves, NegativeRate;
    assert Improving(path, |path| - 1);
    ImprovingIsBest(path, |path| - 1);
  }

  predicate RisesAt(curve: StepCurve, R: nat, k: nat)
    requires k >= 1
  {
    curve(R + k - 1) <= curve(R + k)
  }

  lemma AllTaken(rows: seq<seq<real>>, curve: StepCurve)
    requires AllDecay(rows)
    ensures var lengths := Path(rows, curve)[|Order(rows)|].lengths;
            && |lengths| == |rows|
            && forall i, j :: 0 <= i < |rows| && 0 <= j < |rows[i]| ==> (rows[i][j] > 0.0 <==> j < lengths[i])
  {
    hide Order, Decays, GreedyLengths;
    OrderIsGreedy(rows);
    forall i | 0 <= i < |rows|
      ensures forall j :: 0 <= j < |rows[i]| ==> (rows[i][j] > 0.0 <==> j < Point(rows, |Order(rows)|)[i])
    {
      FullPathCut(rows, Order(rows), i);
    }
  }

  // ---- The exhaustive mode, exactly ----

  /** i certain tokens are at least as fast as j certain tokens padded to k. */
  predicate OutrunsAt(curve: StepCurve, R: nat, i: nat, j: nat, k: nat) {
    Yield((R + j) as real, curve(R + k)) <= CertainThroughput(curve, R, i)
  }

  /** Padding j certain tokens to k with dead ones is never faster than some number of certain tokens up to j. */
  predicate PaddingLoses(curve: StepCurve, R: nat, j: nat, k: nat) {
    exists i :: 0 <= i <= j && OutrunsAt(curve, R, i, j, k)
  }

  /** Verifying dead tokens never pays within n draft tokens. */
  predicate DeadTokensNeverPay(curve: StepCurve, R: nat, n: nat) {
    forall j: nat, k: nat :: 0 <= j < k <= n ==> PaddingLoses(curve, R, j, k)
  }

  lemma PaddingScales(e: real, f: real, p: real, q: real, ci: real, ck: real)
    requires Yield(f, p) <= Yield(e, q) && Yield(q, ck) <= Yield(p, ci) && q > 0.0 && ck >= 0.0 && p > 0.0 && e >= 0.0
    ensures Yield(f, ck) <= Yield(e, ci)
  {
    ScaleMonotone(f * p, e * q, ck);
    ScaleMonotone(q * ck, p * ci, e);
    assert (f * p) * ck == (f * ck) * p;
    assert (e * q) * ck == (q * ck) * e;
    assert (p * ci) * e == (e * ci) * p;
    Cancel(f * ck, e * ci, p);
  }

  lemma TailsAreSlow(rows: seq<seq<real>>, shape: seq<nat>, curve: StepCurve)
    requires HasShape(rows, shape) && AllDecay(rows) && NonNegative(curve, |shape|, |shape| + Capacity(shape))
    requires DeadTokensNeverPay(curve, |shape|, Capacity(shape))
    ensures TailIsSlow(rows, curve)
  {
    hide Order, Capacity, OutrunsPadding, OutrunsAt;
    CapacityIsTokens(rows, shape, |shape|);
    assert Capacity(shape) == BatchRuns.Sum(shape, |shape|) by {
      CapacityIs(shape);
    }
    forall k | |Order(rows)| < k <= Tokens(Capacities(rows), |rows|)
      ensures PaddingIsOutrun(rows, curve, k)
    {
      assert PaddingLoses(curve, |shape|, |Order(rows)|, k);
      var i: nat :| 0 <= i <= |Order(rows)| && OutrunsAt(curve, |shape|, i, |Order(rows)|, k);
      EmptyShape(shape);
      PaddedIsOutrun(rows, curve, i, k);
    }
  }

  lemma CapacityIs(shape: seq<nat>)
    ensures Capacity(shape) == BatchRuns.Sum(shape, |shape|)
  {
  }

  lemma PaddedIsOutrun(rows: seq<seq<real>>, curve: StepCurve, i: nat, k: nat)
    requires AllDecay(rows) && |rows| > 0 && i <= |Order(rows)| && curve(|rows| + k) >= 0.0
    requires OutrunsAt(curve, |rows|, i, |Order(rows)|, k)
    ensures OutrunsPadding(rows, curve, i, k)
  {
    hide Order, Yield, Reach;
    var R, n := |rows|, |Order(rows)|;
    ReachGrowsSlowly(rows, i, n);
    ReachPositive(rows, i);
    PaddingScales(Reach(rows, i), Reach(rows, n), (R + i) as real, (R + n) as real, curve(R + i), curve(R + k));
    PointThroughput(rows, curve, i, k);
  }

  lemma PointThroughput(rows: seq<seq<real>>, curve: StepCurve, i: nat, k: nat)
    requires AllDecay(rows) && i <= |Order(rows)|
    ensures Throughput(rows, Point(rows, i), curve) == Yield(Reach(rows, i), curve(|rows| + i))
    ensures PaddedThroughput(rows, curve, k) == Yield(Reach(rows, |Order(rows)|), curve(|rows| + k))
  {
    hide Order, Expected, Tokens;
  }

  /** On certain rows of j tokens the traversal finds the best number of certain tokens, and padding can do better. */
  lemma PaddingBeats(shape: seq<nat>, curve: StepCurve, j: nat, k: nat)
    requires j < k <= Capacity(shape) && NonNegative(curve, |shape|, |shape| + Capacity(shape))
    requires !PaddingLoses(curve, |shape|, j, k)
    ensures AllDecay(StairRows(shape, j, j, 1.0)) && !IsOptimal(StairRows(shape, j, j, 1.0), curve)
  {
    hide Order, StairRows, Capacity, Reach, Yield, IsOptimal, Plan, OutrunsPadding, AllDecay;
    var rows := StairRows(shape, j, j, 1.0);
    StairReach(shape, j, j, 1.0, j);
    PositiveRates(rows, curve);
    CapacityIsTokens(rows, shape, |shape|);
    CapacityIs(shape);
    forall i: nat | i <= j
      ensures !OutrunsPadding(rows, curve, i, k)
    {
      CertainPointLoses(shape, curve, i, j, k);
    }
    ExhaustiveBeatsEverythingIff(rows, curve);
    assert !PaddingIsOutrun(rows, curve, k);
  }

  lemma CertainPointLoses(shape: seq<nat>, curve: StepCurve, i: nat, j: nat, k: nat)
    requires i <= j < k <= Capacity(shape) && !PaddingLoses(curve, |shape|, j, k)
    ensures AllDecay(StairRows(shape, j, j, 1.0)) && !OutrunsPadding(StairRows(shape, j, j, 1.0), curve, i, k)
  {
    hide Order, StairRows, Capacity, Reach, Yield, AllDecay;
    var rows := StairRows(shape, j, j, 1.0);
    StairReach(shape, j, j, 1.0, j);
    StairReach(shape, j, j, 1.0, i);
    PointThroughput(rows, curve, i, k);
    assert !OutrunsAt(curve, |shape|, i, j, k);
  }

  /**
    When the exhaustive result is optimal among all schedules, dead tokens included, on every batch of a
    shape: if and only if padding certain tokens with dead ones never beats fewer certain tokens.
   */
  lemma ExhaustiveIsOptimalIff(shape: seq<nat>, curve: StepCurve)
    requires NonNegative(curve, |shape|, |shape| + Capacity(shape))
    ensures DeadTokensNeverPay(curve, |shape|, Capacity(shape))
            <==> forall rows: seq<seq<real>> | HasShape(rows, shape) && AllDecay(rows) :: IsOptimal(rows, curve)
  {
    hide IsOptimal, AllDecay, HasShape, Capacity, Order, PaddingLoses, TailIsSlow, Plan;
    if DeadTokensNeverPay(curve, |shape|, Capacity(shape)) {
      forall rows: seq<seq<real>> | HasShape(rows, shape) && AllDecay(rows)
        ensures IsOptimal(rows, curve)
      {
        OptimalOnRows(rows, shape, curve);
      }
    } else {
      var j: nat, k: nat :| 0 <= j < k <= Capacity(shape) && !PaddingLoses(curve, |shape|, j, k);
      PaddingBeats(shape, curve, j, k);
      assert HasShape(StairRows(shape, j, j, 1.0), shape);
    }
  }

  lemma OptimalOnRows(rows: seq<seq<real>>, shape: seq<nat>, curve: StepCurve)
    requires HasShape(rows, shape) && AllDecay(rows) && NonNegative(curve, |shape|, |shape| + Capacity(shape))
    requires DeadTokensNeverPay(curve, |shape|, Capacity(shape))
    ensures IsOptimal(rows, curve)
  {
    hide IsOptimal, AllDecay, Capacity, Order, TailIsSlow, Plan, DeadTokensNeverPay;
    TailsAreSlow(rows, shape, curve);
    OrderFits(rows, shape);
    PositiveRates(rows, curve);
    ExhaustiveBeatsEverythingIff(rows, curve);
  }
}
