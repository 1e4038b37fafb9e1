/**
  The greedy path as a curve of expected tokens: each admission adds a survival no larger than the
  one before it. StairRows are survival rows whose greedy path takes the tokens row by row.
 */
module GreedyGains {
  import opened PrefixValue
  import opened GreedyOrder
  import opened PrefixScheduler
  import BatchRuns

  /** Survival of the candidate admitted after k others. */
  function Gain(rows: seq<seq<real>>, k: nat): real
    requires k < |Order(rows)|
  {
    Order(rows)[k].survival
  }

  /** Expected tokens after k admissions. */
  function Reach(rows: seq<seq<real>>, k: nat): real
    requires AllDecay(rows) && k <= |Order(rows)|
  {
    Expected(rows, Point(rows, k))
  }

  /** Tokens per second of e expected tokens at a step rate. */
  function Yield(e: real, rate: real): real {
    e * rate
  }

  /** n more tokens of survival x on top of e expected tokens. */
  function Along(e: real, n: nat, x: real): real {
    e + n as real * x
  }

  lemma AlongNext(e: real, n: nat, x: real)
    ensures Along(e, 0, x) == e
    ensures Along(e, n + 1, x) == Along(e, n, x) + x
  {
    assert (n + 1) as real * x == n as real * x + x;
  }

  lemma PathRate(rows: seq<seq<real>>, curve: StepCurve, k: nat)
    requires AllDecay(rows) && k <= |Order(rows)|
    ensures Path(rows, curve)[k].batchTokens == |rows| + k
    ensures Path(rows, curve)[k].expectedTokensPerSecond == Yield(Reach(rows, k), curve(|rows| + k))
  {
    hide Mass, TotalMass, Tokens, Expected, GreedyLengths, Order;
    assert Path(rows, curve)[k] == Score(rows, Point(rows, k), curve);
  }

  lemma ReachStep(rows: seq<seq<real>>, k: nat)
    requires AllDecay(rows) && k < |Order(rows)|
    ensures |rows| > 0 && 0.0 < Gain(rows, k) <= 1.0
    ensures Reach(rows, k + 1) == Reach(rows, k) + Gain(rows, k)
  {
    hide Mass, TotalMass, Tokens, Expected, GreedyLengths, Order;
    OrderIsGreedy(rows);
    var c := Order(rows)[k];
    assert IsCandidate(rows, c);
    assert Decays(rows[c.request]);
    assert IsProbability(rows[c.request][c.position - 1]);
    PathStep(rows, Order(rows), k);
  }

  lemma ReachZero(rows: seq<seq<real>>)
    requires AllDecay(rows)
    ensures Reach(rows, 0) == |rows| as real
  {
    ZeroSchedule(rows, Point(rows, 0), |rows|);
  }

  lemma GainsFall(rows: seq<seq<real>>, i: nat, j: nat)
    requires i <= j < |Order(rows)|
    ensures Gain(rows, j) <= Gain(rows, i)
  {
    hide Order;
    OrderIsGreedy(rows);
    if i < j {
      assert Before(Order(rows)[i], Order(rows)[j]);
    }
  }

  lemma ProductStep(n: nat, x: real)
    ensures (n + 1) as real * x == n as real * x + x
  {
  }

  /** k admissions of survival at least x, on top of one certain token per request, reach at least (R + k) x. */
  lemma {:induction false} ReachAtLeast(rows: seq<seq<real>>, k: nat, x: real)
    requires AllDecay(rows) && k <= |Order(rows)| && 0.0 <= x <= 1.0
    requires forall j :: 0 <= j < k ==> Gain(rows, j) >= x
    ensures Reach(rows, k) >= Along(0.0, |rows| + k, x)
  {
    hide Gain, Reach, Order;
    if k == 0 {
      ReachZero(rows);
      assert |rows| as real * x <= |rows| as real;
    } else {
      ReachAtLeast(rows, k - 1, x);
      ReachStep(rows, k - 1);
      ProductStep(|rows| + k - 1, x);
    }
  }

  /** From point m on every admission adds at most the gain there. */
  lemma {:induction false} ReachAtMost(rows: seq<seq<real>>, m: nat, k: nat)
    requires AllDecay(rows) && m <= k <= |Order(rows)| && m < |Order(rows)|
    ensures Reach(rows, k) <= Along(Reach(rows, m), k - m, Gain(rows, m))
    decreases k
  {
    hide Gain, Reach, Order;
    if m < k {
      ReachAtMost(rows, m, k - 1);
      ReachStep(rows, k - 1);
      GainsFall(rows, m, k - 1);
      ProductStep(k - 1 - m, Gain(rows, m));
    }
  }

  /** What is reached at a gain of x is worth at least x for each of its tokens. */
  lemma ReachCoversGain(rows: seq<seq<real>>, i: nat, j: nat)
    requires AllDecay(rows) && i <= j < |Order(rows)|
    ensures Reach(rows, i) >= Along(0.0, |rows| + i, Gain(rows, j))
  {
    hide Gain, Reach, Order;
    forall t | 0 <= t < i
      ensures Gain(rows, t) >= Gain(rows, j)
    {
      GainsFall(rows, t, j);
    }
    ReachStep(rows, j);
    ReachAtLeast(rows, i, Gain(rows, j));
  }

  lemma ReachPositive(rows: seq<seq<real>>, k: nat)
    requires AllDecay(rows) && k <= |Order(rows)|
    ensures Reach(rows, k) >= 0.0
    ensures |rows| > 0 ==> Reach(rows, k) > 0.0
  {
    hide Mass, Order, GreedyLengths;
    TotalMassNonNegative(rows, Point(rows, k), |rows|);
  }

  /** Expected tokens grow no faster along the path than the number of tokens: E(j) / E(i) <= (R + j) / (R + i). */
  lemma {:induction false} ReachGrowsSlowly(rows: seq<seq<real>>, i: nat, j: nat)
    requires AllDecay(rows) && i <= j <= |Order(rows)|
    ensures Yield(Reach(rows, j), (|rows| + i) as real) <= Yield(Reach(rows, i), (|rows| + j) as real)
    decreases j
  {
    hide Gain, Reach, Order, Yield, Along;
    if i < j {
      ReachGrowsSlowly(rows, i, j - 1);
      ReachStep(rows, j - 1);
      ReachCoversGain(rows, i, j - 1);
      GrowthStep(Reach(rows, i), Reach(rows, j - 1), Gain(rows, j - 1), |rows| + i, |rows| + j - 1);
    }
  }

  lemma GrowthStep(e: real, f: real, x: real, p: nat, q: nat)
    requires Yield(f, p as real) <= Yield(e, q as real) && e >= Along(0.0, p, x)
    ensures Yield(f + x, p as real) <= Yield(e, (q + 1) as real)
  {
    var r, s := p as real, q as real;
    assert (f + x) * r == f * r + r * x;
    assert (q + 1) as real == s + 1.0;
    assert e * (s + 1.0) == e * s + e;
  }

  // ---- Stair rows ----

  predicate HasShape(rows: seq<seq<real>>, shape: seq<nat>) {
    |rows| == |shape| && forall i :: 0 <= i < |shape| ==> |rows[i]| == shape[i]
  }

  /** Number of draft positions of a shape. */
  function Capacity(shape: seq<nat>): nat {
    BatchRuns.Sum(shape, |shape|)
  }

  /** Survival of position number t: certain below a, x below b, and dead from b on. */
  function Level(a: nat, b: nat, x: real, t: nat): real {
    if t < a then 1.0 else if t < b then x else 0.0
  }

  /** The positions of a shape, counted row by row, with their levels. */
  function StairRows(shape: seq<nat>, a: nat, b: nat, x: real): (rows: seq<seq<real>>)
    ensures HasShape(rows, shape)
    ensures forall i, j :: 0 <= i < |rows| && 0 <= j < |rows[i]| ==>
              rows[i][j] == Level(a, b, x, BatchRuns.Sum(shape, i) + j)
  {
    seq(|shape|, i requires 0 <= i < |shape| => StairRow(shape, a, b, x, i))
  }

  function StairRow(shape: seq<nat>, a: nat, b: nat, x: real, i: nat): (row: seq<real>)
    requires i < |shape|
    ensures |row| == shape[i]
    ensures forall j :: 0 <= j < |row| ==> row[j] == Level(a, b, x, BatchRuns.Sum(shape, i) + j)
  {
    seq(shape[i], j requires 0 <= j < shape[i] => Level(a, b, x, BatchRuns.Sum(shape, i) + j))
  }

  lemma StairsDecay(shape: seq<nat>, a: nat, b: nat, x: real)
    requires a <= b && 0.0 <= x <= 1.0
    ensures AllDecay(StairRows(shape, a, b, x))
  {
    hide BatchRuns.Sum;
  }

  /** Number of a token when the positions are counted row by row. */
  function Number(shape: seq<nat>, c: Candidate): int
    requires c.request < |shape|
  {
    BatchRuns.Sum(shape, c.request) + c.position - 1
  }

  /** Earlier request, or same request and earlier position, is the smaller number. */
  lemma NumberOrder(shape: seq<nat>, c: Candidate, d: Candidate)
    requires c.request < |shape| && 1 <= c.position <= shape[c.request]
    requires d.request < |shape| && 1 <= d.position <= shape[d.request]
    ensures c.request < d.request || (c.request == d.request && c.position < d.position)
            <==> Number(shape, c) < Number(shape, d)
    ensures c.request == d.request && c.position == d.position <==> Number(shape, c) == Number(shape, d)
  {
    hide BatchRuns.Sum;
    BatchRuns.SumMonotone(shape, c.request, |shape|);
    if c.request < d.request {
      BatchRuns.SumMonotone(shape, c.request, d.request);
    } else if d.request < c.request {
      BatchRuns.SumMonotone(shape, d.request, c.request);
    }
  }

  /** The greedy order of stair rows takes the positive positions in their numbering. */
  lemma {:induction false} StairOrder(shape: seq<nat>, a: nat, b: nat, x: real, k: nat)
    requires a <= b <= Capacity(shape) && 0.0 < x <= 1.0
    requires k < |Order(StairRows(shape, a, b, x))|
    ensures IsCandidate(StairRows(shape, a, b, x), Order(StairRows(shape, a, b, x))[k])
    ensures Number(shape, Order(StairRows(shape, a, b, x))[k]) == k < b
  {
    hide BatchRuns.Sum, Order, StairRows;
    var rows := StairRows(shape, a, b, x);
    var order := Order(rows);
    OrderIsGreedy(rows);
    var c := order[k];
    assert IsCandidate(rows, c);
    var f := Number(shape, c);
    assert rows[c.request][c.position - 1] == Level(a, b, x, BatchRuns.Sum(shape, c.request) + (c.position - 1));
    assert f < b;
    forall y | 0 <= y < k
      ensures Number(shape, order[y]) == y && IsCandidate(rows, order[y])
    {
      StairOrder(shape, a, b, x, y);
    }
    if f < k {
      NumberOrder(shape, order[f], c);
      assert false;
    } else if k < f {
      var d := NumberedToken(shape, a, b, x, k);
      var y :| 0 <= y < |order| && order[y] == d;
      assert y > k;
      assert Before(c, d);
      NumberOrder(shape, c, d);
      assert false;
    }
  }

  lemma NumberedToken(shape: seq<nat>, a: nat, b: nat, x: real, t: nat) returns (d: Candidate)
    requires a <= b <= Capacity(shape) && 0.0 < x <= 1.0 && t < b
    ensures IsCandidate(StairRows(shape, a, b, x), d) && Number(shape, d) == t
    ensures d.survival == Level(a, b, x, t) && d in Order(StairRows(shape, a, b, x))
  {
    hide Order, StairRows;
    var rows := StairRows(shape, a, b, x);
    var i, j := BatchRuns.Locate(shape, |shape|, t);
    d := Token(rows, i, j + 1);
    OrderIsGreedy(rows);
  }

  /** Stair rows of a certain and b positive positions have b candidates, and their gains are the levels. */
  lemma StairGains(shape: seq<nat>, a: nat, b: nat, x: real)
    requires a <= b <= Capacity(shape) && 0.0 < x <= 1.0
    ensures |Order(StairRows(shape, a, b, x))| == b
    ensures forall k :: 0 <= k < b ==> Gain(StairRows(shape, a, b, x), k) == Level(a, b, x, k)
  {
    hide BatchRuns.Sum, Order, StairRows;
    var rows := StairRows(shape, a, b, x);
    var order := Order(rows);
    forall k | 0 <= k < |order|
      ensures order[k].request < |shape| && Number(shape, order[k]) == k < b
      ensures order[k].survival == Level(a, b, x, k)
    {
      StairOrder(shape, a, b, x, k);
      var c := order[k];
      assert rows[c.request][c.position - 1] == Level(a, b, x, BatchRuns.Sum(shape, c.request) + (c.position - 1));
    }
    if |order| > 0 {
      assert Number(shape, order[|order| - 1]) < b;
    }
    if |order| < b {
      var d := NumberedToken(shape, a, b, x, |order|);
      assert false;
    }
  }

  /** Expected tokens along the path of stair rows. */
  lemma {:induction false} StairReach(shape: seq<nat>, a: nat, b: nat, x: real, k: nat)
    requires a <= b <= Capacity(shape) && 0.0 < x <= 1.0 && k <= b
    ensures AllDecay(StairRows(shape, a, b, x)) && |Order(StairRows(shape, a, b, x))| == b
    ensures Reach(StairRows(shape, a, b, x), k)
            == if k <= a then (|shape| + k) as real else Along((|shape| + a) as real, k - a, x)
  {
    hide BatchRuns.Sum, Order, StairRows, Gain, Reach, Along;
    var rows := StairRows(shape, a, b, x);
    StairsDecay(shape, a, b, x);
    StairGains(shape, a, b, x);
    if k == 0 {
      ReachZero(rows);
    } else {
      StairReach(shape, a, b, x, k - 1);
      ReachStep(rows, k - 1);
      if k > a {
        AlongNext((|shape| + a) as real, k - 1 - a, x);
      } else {
        assert Gain(rows, k - 1) == 1.0;
        assert (|shape| + k) as real == (|shape| + k - 1) as real + 1.0;
      }
    }
  }
}
