/** First-index argmax, and the two-level reductions that must agree with it. */
module FirstArgMax {

  /** Left-to-right scan that moves only to a strictly greater entry. */
  function ArgMax(s: seq<real>): (k: nat)
    requires |s| > 0
    ensures k < |s|
  {
    if |s| == 1 then 0
    else
      var n := |s| - 1;
      var k := ArgMax(s[..n]);
      if s[n] > s[k] then n else k
  }

  /** Index k holds the first maximum. */
  predicate IsFirstMax(s: seq<real>, k: nat) {
    && k < |s|
    && (forall j :: 0 <= j < |s| ==> s[j] <= s[k])
    && (forall j :: 0 <= j < k ==> s[j] < s[k])
  }

  lemma {:induction false} ArgMaxIsFirstMax(s: seq<real>)
    requires |s| > 0
    ensures IsFirstMax(s, ArgMax(s))
  {
    if |s| > 1 {
      var n := |s| - 1;
      ArgMaxIsFirstMax(s[..n]);
      assert forall j :: 0 <= j < n ==> s[..n][j] == s[j];
    }
  }

  lemma ArgMaxUnique(s: seq<real>, k: nat)
    requires IsFirstMax(s, k)
    ensures ArgMax(s) == k
  {
    ArgMaxIsFirstMax(s);
    assert s[ArgMax(s)] == s[k];
  }

  // ---- Chunks ----

  function Concat(chunks: seq<seq<real>>): seq<real> {
    if chunks == [] then [] else Concat(chunks[..|chunks| - 1]) + chunks[|chunks| - 1]
  }

  /** Offset of chunk k in the concatenation. */
  function Offset(chunks: seq<seq<real>>, k: nat): nat
    requires k <= |chunks|
  {
    if k == 0 then 0 else Offset(chunks, k - 1) + |chunks[k - 1]|
  }

  lemma {:induction false} OffsetMonotone(chunks: seq<seq<real>>, k: nat, n: nat)
    requires k <= n <= |chunks|
    ensures Offset(chunks, k) <= Offset(chunks, n)
    ensures k < n ==> Offset(chunks, k) + |chunks[k]| <= Offset(chunks, n)
    decreases n - k
  {
    if k < n {
      OffsetMonotone(chunks, k + 1, n);
    }
  }

  lemma {:induction false} OffsetOfPrefix(chunks: seq<seq<real>>, m: nat, k: nat)
    requires k <= m <= |chunks|
    ensures Offset(chunks[..m], k) == Offset(chunks, k)
  {
    if k > 0 {
      OffsetOfPrefix(chunks, m, k - 1);
    }
  }

  lemma {:induction false} ConcatAt(chunks: seq<seq<real>>, k: nat, j: nat)
    requires k < |chunks| && j < |chunks[k]|
    ensures Offset(chunks, |chunks|) == |Concat(chunks)|
    ensures Offset(chunks, k) + j < |Concat(chunks)| && Concat(chunks)[Offset(chunks, k) + j] == chunks[k][j]
  {
    ConcatLength(chunks);
    var n := |chunks| - 1;
    OffsetOfPrefix(chunks, n, k);
    OffsetOfPrefix(chunks, n, n);
    ConcatLength(chunks[..n]);
    if k < n {
      assert chunks[..n][k] == chunks[k];
      ConcatAt(chunks[..n], k, j);
    }
  }

  lemma {:induction false} ConcatLength(chunks: seq<seq<real>>)
    ensures |Concat(chunks)| == Offset(chunks, |chunks|)
  {
    if chunks != [] {
      ConcatLength(chunks[..|chunks| - 1]);
      OffsetOfPrefix(chunks, |chunks| - 1, |chunks| - 1);
    }
  }

  lemma {:induction false} Locate(chunks: seq<seq<real>>, n: nat, p: nat) returns (k: nat, j: nat)
    requires n <= |chunks| && p < Offset(chunks, n)
    ensures k < n && j < |chunks[k]| && p == Offset(chunks, k) + j
  {
    if p >= Offset(chunks, n - 1) {
      k, j := n - 1, p - Offset(chunks, n - 1);
    } else {
      k, j := Locate(chunks, n - 1, p);
    }
  }

  predicate NonEmptyChunks(chunks: seq<seq<real>>) {
    |chunks| > 0 && forall k :: 0 <= k < |chunks| ==> |chunks[k]| > 0
  }

  /** The maximum of each chunk. */
  function Maxima(chunks: seq<seq<real>>): (m: seq<real>)
    requires NonEmptyChunks(chunks)
    ensures |m| == |chunks| && forall k :: 0 <= k < |m| ==> m[k] == chunks[k][ArgMax(chunks[k])]
  {
    seq(|chunks|, k requires 0 <= k < |chunks| => chunks[k][ArgMax(chunks[k])])
  }

  /** Taking the first maximum of every chunk and then the first best chunk is taking the first maximum of the whole. */
  lemma HierarchicalArgMax(chunks: seq<seq<real>>)
    requires NonEmptyChunks(chunks)
    ensures var k := ArgMax(Maxima(chunks));
            |Concat(chunks)| > 0 && Offset(chunks, k) + ArgMax(chunks[k]) == ArgMax(Concat(chunks))
  {
    var whole, k := Concat(chunks), ArgMax(Maxima(chunks));
    var p := Offset(chunks, k) + ArgMax(chunks[k]);
    ConcatAt(chunks, k, ArgMax(chunks[k]));
    ArgMaxIsFirstMax(Maxima(chunks));
    ArgMaxIsFirstMax(chunks[k]);
    forall q | 0 <= q < |whole|
      ensures whole[q] <= whole[p] && (q < p ==> whole[q] < whole[p])
    {
      var c, j := Locate(chunks, |chunks|, q);
      ConcatAt(chunks, c, j);
      ArgMaxIsFirstMax(chunks[c]);
      assert whole[q] == chunks[c][j] <= Maxima(chunks)[c] <= Maxima(chunks)[k];
      if q < p {
        if c > k {
          OffsetMonotone(chunks, k, c);
        } else if c < k {
          assert Maxima(chunks)[c] < Maxima(chunks)[k];
        }
      }
    }
    ArgMaxUnique(whole, p);
  }

  // ---- Padding ----

  /** Entries from index n on replaced by floor. */
  function Padded(s: seq<real>, n: nat, floor: real): (p: seq<real>)
    requires n <= |s|
    ensures |p| == |s| && forall j :: 0 <= j < |p| ==> p[j] == if j < n then s[j] else floor
  {
    seq(|s|, j requires 0 <= j < |s| => if j < n then s[j] else floor)
  }

  predicate AtLeast(s: seq<real>, floor: real) {
    forall j :: 0 <= j < |s| ==> s[j] >= floor
  }

  /** Padding after the valid entries never wins. */
  lemma PaddingLoses(s: seq<real>, n: nat, floor: real)
    requires 0 < n <= |s| && AtLeast(s[..n], floor)
    ensures ArgMax(Padded(s, n, floor)) == ArgMax(s[..n])
  {
    var k, p := ArgMax(s[..n]), Padded(s, n, floor);
    ArgMaxIsFirstMax(s[..n]);
    assert s[..n][k] == p[k];
    forall j | 0 <= j < |p|
      ensures p[j] <= p[k] && (j < k ==> p[j] < p[k])
    {
      if j < n {
        assert s[..n][j] == p[j];
      }
    }
    ArgMaxUnique(p, k);
  }

  /** Chunks that hold only padding come last and never win. */
  lemma PaddedChunksLose(values: seq<real>, n: nat, floor: real)
    requires 0 < n <= |values| && AtLeast(values[..n], floor)
    requires forall k :: n <= k < |values| ==> values[k] == floor
    ensures ArgMax(values) == ArgMax(values[..n])
  {
    PaddingLoses(values, n, floor);
    assert Padded(values, n, floor) == values;
  }
}
