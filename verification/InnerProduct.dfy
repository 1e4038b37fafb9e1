/**
  The inner product of two rows, and what makes it one: it is symmetric, additive and homogeneous,
  and against a unit row it picks out an entry. No other function of two rows has these properties.
 */
module InnerProduct {

  /** Sum of the first n products of two rows. */
  function Dot(a: seq<real>, b: seq<real>, n: nat): real
    requires n <= |a| && n <= |b|
  {
    if n == 0 then 0.0 else Dot(a, b, n - 1) + a[n - 1] * b[n - 1]
  }

  function Plus(a: seq<real>, b: seq<real>): (c: seq<real>)
    requires |a| == |b|
    ensures |c| == |a| && forall i :: 0 <= i < |c| ==> c[i] == a[i] + b[i]
  {
    seq(|a|, i requires 0 <= i < |a| => a[i] + b[i])
  }

  function Scaled(x: real, a: seq<real>): (c: seq<real>)
    ensures |c| == |a| && forall i :: 0 <= i < |c| ==> c[i] == x * a[i]
  {
    seq(|a|, i requires 0 <= i < |a| => x * a[i])
  }

  /** 1 at k and 0 elsewhere. */
  predicate IsUnit(a: seq<real>, k: nat) {
    k < |a| && forall i :: 0 <= i < |a| ==> a[i] == if i == k then 1.0 else 0.0
  }

  lemma {:induction false} DotCommutes(a: seq<real>, b: seq<real>, n: nat)
    requires n <= |a| && n <= |b|
    ensures Dot(a, b, n) == Dot(b, a, n)
  {
    if n > 0 {
      DotCommutes(a, b, n - 1);
    }
  }

  lemma {:induction false} DotAdds(a: seq<real>, b: seq<real>, c: seq<real>, n: nat)
    requires n <= |a| && n <= |b| == |c|
    ensures Dot(a, Plus(b, c), n) == Dot(a, b, n) + Dot(a, c, n)
    ensures Dot(Plus(b, c), a, n) == Dot(b, a, n) + Dot(c, a, n)
  {
    if n > 0 {
      DotAdds(a, b, c, n - 1);
      var x, y, z := a[n - 1], b[n - 1], c[n - 1];
      assert x * (y + z) == x * y + x * z;
      assert (y + z) * x == y * x + z * x;
    }
  }

  lemma {:induction false} DotScales(a: seq<real>, x: real, b: seq<real>, n: nat)
    requires n <= |a| && n <= |b|
    ensures Dot(a, Scaled(x, b), n) == x * Dot(a, b, n)
    ensures Dot(Scaled(x, b), a, n) == x * Dot(b, a, n)
  {
    if n > 0 {
      DotScales(a, x, b, n - 1);
      var y, z := a[n - 1], b[n - 1];
      ScaledStep(x, y, z, Dot(a, b, n - 1));
      ScaledStep(x, z, y, Dot(b, a, n - 1));
    } else {
      assert x * 0.0 == 0.0;
    }
  }

  lemma ScaledStep(x: real, y: real, z: real, d: real)
    ensures y * (x * z) == x * (y * z) && (x * y) * z == x * (y * z)
    ensures x * (d + y * z) == x * d + x * (y * z)
  {
  }

  /** Against a unit row the inner product is the entry there. */
  lemma {:induction false} DotUnit(a: seq<real>, b: seq<real>, k: nat, n: nat)
    requires n <= |a| && n <= |b| && IsUnit(b, k)
    ensures Dot(a, b, n) == if k < n then a[k] else 0.0
    ensures Dot(b, a, n) == if k < n then a[k] else 0.0
  {
    if n > 0 {
      DotUnit(a, b, k, n - 1);
      UnitProduct(a[n - 1]);
    }
  }

  lemma UnitProduct(x: real)
    ensures x * 1.0 == x && 1.0 * x == x && x * 0.0 == 0.0 && 0.0 * x == 0.0
  {
  }

  lemma {:induction false} DotSplits(a: seq<real>, b: seq<real>, m: nat, n: nat)
    requires m <= n <= |a| && n <= |b|
    ensures Dot(a, b, n) == Dot(a, b, m) + Dot(a[m..n], b[m..n], n - m)
    decreases n
  {
    if m < n {
      DotSplits(a, b, m, n - 1);
      DotReadsPrefix(a[m..n], b[m..n], a[m..n - 1], b[m..n - 1], n - 1 - m);
    }
  }

  lemma {:induction false} DotReadsPrefix(a: seq<real>, b: seq<real>, c: seq<real>, d: seq<real>, n: nat)
    requires n <= |a| && n <= |b| && n <= |c| && n <= |d|
    requires forall i :: 0 <= i < n ==> a[i] == c[i] && b[i] == d[i]
    ensures Dot(a, b, n) == Dot(c, d, n)
  {
    if n > 0 {
      DotReadsPrefix(a, b, c, d, n - 1);
    }
  }
}
