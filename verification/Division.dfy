/** Facts about products, quotients and remainders of natural numbers. */
module Division {

  lemma MultiplyMonotone(a: nat, b: nat, c: nat)
    requires a <= b
    ensures a * c <= b * c
  {
  }

  lemma ScaleAtLeast(w: nat, d: nat)
    requires d >= 1
    ensures w * d >= w
  {
    assert w * d == w + w * (d - 1);
  }

  lemma ScaleAtMost(w: nat, d: int)
    requires d <= -1
    ensures w * d <= 0 - w
  {
    ScaleAtLeast(w, -d);
    assert w * -d == 0 - w * d;
  }

  /** Quotient and remainder are unique. */
  lemma DivMod(x: nat, w: nat, q: nat, r: nat)
    requires r < w && x == w * q + r
    ensures x / w == q && x % w == r
  {
    var d := x / w - q;
    assert w * (x / w) == w * d + w * q;
    if d >= 1 {
      ScaleAtLeast(w, d);
    } else if d <= -1 {
      ScaleAtMost(w, d);
    }
  }

  lemma QuotientBelow(x: nat, w: nat, n: nat)
    requires w > 0 && x < n * w
    ensures x / w < n
  {
    var q := x / w;
    assert w * q <= x;
    if q >= n {
      MultiplyMonotone(n, q, w);
    }
  }
}
