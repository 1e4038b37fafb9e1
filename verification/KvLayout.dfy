/**
  Views of one raw KV cache tensor with different public dimension orders over a shared physical
  order (_view_kv_cache_with_physical_order of gpu_model_runner.py).
 */
module KvLayout {
  import opened Division

  type Dim = string
  type Sizes = map<Dim, nat>
  type Index = map<Dim, nat>

  predicate DistinctDims(order: seq<Dim>) {
    forall i, j :: 0 <= i < j < |order| ==> order[i] != order[j]
  }

  /** Two orders of the same dimensions. */
  predicate SameDims(a: seq<Dim>, b: seq<Dim>) {
    && DistinctDims(a) && DistinctDims(b) && |a| == |b|
    && forall i :: 0 <= i < |a| ==> a[i] in b
  }

  predicate Covers(m: map<Dim, nat>, order: seq<Dim>) {
    forall i :: 0 <= i < |order| ==> order[i] in m
  }

  /** Number of elements of a block with these dimensions. */
  function Numel(order: seq<Dim>, sizes: Sizes): nat
    requires Covers(sizes, order)
  {
    if order == [] then 1 else sizes[order[0]] * Numel(order[1..], sizes)
  }

  predicate ValidIndex(order: seq<Dim>, sizes: Sizes, m: Index) {
    && Covers(sizes, order) && Covers(m, order)
    && forall i :: 0 <= i < |order| ==> m[order[i]] < sizes[order[i]]
  }

  /** The contribution of each dimension to the address, summed in the given order. */
  function Address(order: seq<Dim>, strides: map<Dim, nat>, m: Index): nat
    requires Covers(strides, order) && Covers(m, order)
  {
    if order == [] then 0 else strides[order[0]] * m[order[0]] + Address(order[1..], strides, m)
  }

  /** strides gives every dimension the number of elements of the dimensions after it in the physical order. */
  ghost predicate RowMajor(physical: seq<Dim>, sizes: Sizes, strides: map<Dim, nat>) {
    && Covers(sizes, physical)
    && forall k :: 0 <= k < |physical| ==> StrideAt(physical, sizes, strides, k)
  }

  ghost predicate StrideAt(physical: seq<Dim>, sizes: Sizes, strides: map<Dim, nat>, k: nat)
    requires k < |physical| && Covers(sizes, physical)
  {
    physical[k] in strides && strides[physical[k]] == Numel(physical[k + 1..], sizes)
  }

  // ---- The order of summation is irrelevant ----

  lemma {:induction false} AddressPulls(order: seq<Dim>, strides: map<Dim, nat>, m: Index, k: nat)
    requires Covers(strides, order) && Covers(m, order) && k < |order|
    ensures Covers(strides, order[..k] + order[k + 1..]) && Covers(m, order[..k] + order[k + 1..])
    ensures Address(order, strides, m)
            == strides[order[k]] * m[order[k]] + Address(order[..k] + order[k + 1..], strides, m)
  {
    var rest := order[..k] + order[k + 1..];
    assert Covers(strides, rest) && Covers(m, rest);
    if k > 0 {
      AddressPulls(order[1..], strides, m, k - 1);
      assert rest[1..] == order[1..][..k - 1] + order[1..][k..];
      assert rest[0] == order[0];
    } else {
      assert rest == order[1..];
    }
  }

  /** The address of a named index does not depend on the public order of the dimensions. */
  lemma {:induction false} AddressIgnoresOrder(a: seq<Dim>, b: seq<Dim>, strides: map<Dim, nat>, m: Index)
    requires SameDims(a, b) && Covers(strides, a) && Covers(m, a) && Covers(strides, b) && Covers(m, b)
    ensures Address(a, strides, m) == Address(b, strides, m)
    decreases |a|
  {
    if a != [] {
      var k :| 0 <= k < |b| && b[k] == a[0];
      var rest := b[..k] + b[k + 1..];
      AddressPulls(b, strides, m, k);
      forall i | 0 <= i < |a[1..]|
        ensures a[1..][i] in rest
      {
        var j :| 0 <= j < |b| && b[j] == a[i + 1];
        assert j != k;
        assert rest[if j < k then j else j - 1] == b[j];
      }
      AddressIgnoresOrder(a[1..], rest, strides, m);
    }
  }

  /** The first element has address 0. */
  lemma {:induction false} AddressOfZero(order: seq<Dim>, strides: map<Dim, nat>, m: Index)
    requires Covers(strides, order) && Covers(m, order) && forall i :: 0 <= i < |order| ==> m[order[i]] == 0
    ensures Address(order, strides, m) == 0
  {
    if order != [] {
      assert forall i :: 0 <= i < |order[1..]| ==> order[1..][i] == order[i + 1];
      AddressOfZero(order[1..], strides, m);
    }
  }

  lemma {:induction false} AddressReadsDims(order: seq<Dim>, strides: map<Dim, nat>, m: Index, n: Index)
    requires Covers(strides, order) && Covers(m, order) && Covers(n, order)
    requires forall i :: 0 <= i < |order| ==> m[order[i]] == n[order[i]]
    ensures Address(order, strides, m) == Address(order, strides, n)
  {
    if order != [] {
      assert forall i :: 0 <= i < |order[1..]| ==> order[1..][i] == order[i + 1];
      AddressReadsDims(order[1..], strides, m, n);
    }
  }

  /** One step along dimension i moves the address by the stride of that dimension. */
  lemma {:induction false} AddressMoves(order: seq<Dim>, strides: map<Dim, nat>, m: Index, i: nat)
    requires DistinctDims(order) && Covers(strides, order) && Covers(m, order) && i < |order|
    ensures Covers(m[order[i] := m[order[i]] + 1], order)
    ensures Address(order, strides, m[order[i] := m[order[i]] + 1]) == Address(order, strides, m) + strides[order[i]]
  {
    var n := m[order[i] := m[order[i]] + 1];
    assert forall k :: 0 <= k < |order[1..]| ==> order[1..][k] == order[k + 1];
    if i == 0 {
      AddressReadsDims(order[1..], strides, m, n);
      assert strides[order[0]] * n[order[0]] == strides[order[0]] * m[order[0]] + strides[order[0]];
    } else {
      AddressMoves(order[1..], strides, m, i - 1);
    }
  }

  // ---- Mixed-radix addresses ----

  function MixedRadix(order: seq<Dim>, sizes: Sizes, m: Index): nat
    requires Covers(sizes, order) && Covers(m, order)
  {
    if order == [] then 0 else Numel(order[1..], sizes) * m[order[0]] + MixedRadix(order[1..], sizes, m)
  }

  lemma {:induction false} AddressIsMixedRadix(order: seq<Dim>, sizes: Sizes, strides: map<Dim, nat>, m: Index)
    requires RowMajor(order, sizes, strides) && Covers(strides, order) && Covers(m, order)
    ensures Address(order, strides, m) == MixedRadix(order, sizes, m)
  {
    if order != [] {
      assert StrideAt(order, sizes, strides, 0);
      forall k | 0 <= k < |order[1..]|
        ensures StrideAt(order[1..], sizes, strides, k)
      {
        assert StrideAt(order, sizes, strides, k + 1);
        assert order[1..][k + 1..] == order[k + 2..];
      }
      AddressIsMixedRadix(order[1..], sizes, strides, m);
    }
  }

  /** The index at an address. */
  function Unravel(order: seq<Dim>, sizes: Sizes, a: nat): (m: Index)
    requires Covers(sizes, order) && DistinctDims(order) && a < Numel(order, sizes)
    ensures m.Keys == set d | d in order
    decreases |order|
  {
    if order == [] then map[]
    else
      var inner := Numel(order[1..], sizes);
      InnerPositive(sizes[order[0]], inner, a);
      Unravel(order[1..], sizes, a % inner)[order[0] := a / inner]
  }

  lemma InnerPositive(size: nat, inner: nat, a: nat)
    requires a < size * inner
    ensures inner > 0
  {
  }

  lemma MixedRadixStepBound(inner: nat, q: nat, size: nat, r: nat)
    requires q < size && r < inner
    ensures inner * q + r < size * inner
  {
    MultiplyMonotone(q + 1, size, inner);
    assert (q + 1) * inner == inner * q + inner;
  }

  /** Every valid index has an address below the number of elements. */
  lemma {:induction false} AddressInRange(order: seq<Dim>, sizes: Sizes, m: Index)
    requires ValidIndex(order, sizes, m)
    ensures MixedRadix(order, sizes, m) < Numel(order, sizes)
  {
    if order != [] {
      AddressInRange(order[1..], sizes, m);
      MixedRadixStepBound(Numel(order[1..], sizes), m[order[0]], sizes[order[0]], MixedRadix(order[1..], sizes, m));
    }
  }

  lemma {:induction false} MixedRadixReadsDims(order: seq<Dim>, sizes: Sizes, m: Index, n: Index)
    requires Covers(sizes, order) && Covers(m, order) && Covers(n, order)
    requires forall i :: 0 <= i < |order| ==> m[order[i]] == n[order[i]]
    ensures MixedRadix(order, sizes, m) == MixedRadix(order, sizes, n)
  {
    if order != [] {
      assert forall i :: 0 <= i < |order[1..]| ==> order[1..][i] == order[i + 1];
      MixedRadixReadsDims(order[1..], sizes, m, n);
    }
  }

  /** Surjective: every address below the number of elements belongs to a valid index. */
  lemma {:induction false} AddressHitsEverything(order: seq<Dim>, sizes: Sizes, a: nat)
    requires Covers(sizes, order) && DistinctDims(order) && a < Numel(order, sizes)
    ensures ValidIndex(order, sizes, Unravel(order, sizes, a))
    ensures MixedRadix(order, sizes, Unravel(order, sizes, a)) == a
    decreases |order|
  {
    if order != [] {
      var inner := Numel(order[1..], sizes);
      var q, r := SplitAddress(a, inner, sizes[order[0]]);
      UnravelStep(order, sizes, a, q, r);
      hide *;
      AddressHitsEverything(order[1..], sizes, r);
      Prepend(order, sizes, Unravel(order[1..], sizes, r), q);
    }
  }

  lemma SplitAddress(a: nat, inner: nat, size: nat) returns (q: nat, r: nat)
    requires a < size * inner
    ensures inner > 0 && q == a / inner && r == a % inner
    ensures q < size && r < inner && a == inner * q + r
  {
    InnerPositive(size, inner, a);
    QuotientBelow(a, inner, size);
    q, r := a / inner, a % inner;
  }

  lemma UnravelStep(order: seq<Dim>, sizes: Sizes, a: nat, q: nat, r: nat)
    requires order != [] && Covers(sizes, order) && DistinctDims(order) && a < Numel(order, sizes)
    requires Numel(order[1..], sizes) > 0 && q == a / Numel(order[1..], sizes) && r == a % Numel(order[1..], sizes)
    ensures r < Numel(order[1..], sizes) && Covers(sizes, order[1..]) && DistinctDims(order[1..])
    ensures Unravel(order, sizes, a) == Unravel(order[1..], sizes, r)[order[0] := q]
  {
  }

  lemma Prepend(order: seq<Dim>, sizes: Sizes, rest: Index, q: nat)
    requires order != [] && DistinctDims(order) && Covers(sizes, order) && ValidIndex(order[1..], sizes, rest)
    requires q < sizes[order[0]]
    ensures ValidIndex(order, sizes, rest[order[0] := q])
    ensures MixedRadix(order, sizes, rest[order[0] := q])
            == Numel(order[1..], sizes) * q + MixedRadix(order[1..], sizes, rest)
  {
    hide Numel;
    var m := rest[order[0] := q];
    assert forall i :: 0 <= i < |order[1..]| ==> order[1..][i] == order[i + 1];
    forall i | 0 <= i < |order|
      ensures order[i] in m && m[order[i]] < sizes[order[i]]
    {
      assert i > 0 ==> order[i] == order[1..][i - 1];
    }
    MixedRadixReadsDims(order[1..], sizes, m, rest);
  }

  /** Injective: two valid indices with the same address agree on every dimension. */
  lemma {:induction false} AddressIsInjective(order: seq<Dim>, sizes: Sizes, m: Index, n: Index, i: nat)
    requires ValidIndex(order, sizes, m) && ValidIndex(order, sizes, n) && i < |order|
    requires MixedRadix(order, sizes, m) == MixedRadix(order, sizes, n)
    ensures m[order[i]] == n[order[i]]
    decreases |order|
  {
    var inner := Numel(order[1..], sizes);
    assert forall k :: 0 <= k < |order[1..]| ==> order[1..][k] == order[k + 1];
    AddressInRange(order[1..], sizes, m);
    AddressInRange(order[1..], sizes, n);
    DivMod(MixedRadix(order, sizes, m), inner, m[order[0]], MixedRadix(order[1..], sizes, m));
    DivMod(MixedRadix(order, sizes, n), inner, n[order[0]], MixedRadix(order[1..], sizes, n));
    if i > 0 {
      AddressIsInjective(order[1..], sizes, m, n, i - 1);
    }
  }

  // ---- The view ----

  function SizesOf(shape: seq<nat>, public: seq<Dim>): (sizes: Sizes)
    requires |shape| == |public| && DistinctDims(public)
    ensures sizes.Keys == set d | d in public
    ensures forall i :: 0 <= i < |public| ==> sizes[public[i]] == shape[i]
  {
    if public == [] then map[]
    else
      var n := |public| - 1;
      assert public == public[..n] + [public[n]];
      SizesOf(shape[..n], public[..n])[public[n] := shape[n]]
  }

  /** Strides in public order of the strided view. */
  method ViewStrides(shape: seq<nat>, public: seq<Dim>, physical: seq<Dim>)
      returns (strides: seq<nat>, byName: map<Dim, nat>)
    requires |shape| == |public| && SameDims(physical, public)
    ensures RowMajor(physical, SizesOf(shape, public), byName)
    ensures Covers(byName, public) && Covers(byName, physical) && |strides| == |public|
    ensures forall i :: 0 <= i < |public| ==> strides[i] == byName[public[i]]
    ensures ChainedStrides(shape, public, physical, strides)
  {
    hide SizesOf, ChainedStrides;
    var sizes := SizesOf(shape, public);
    byName := map[];
    var stride := 1;
    var k := |physical|;
    while k > 0
      invariant 0 <= k <= |physical| && Covers(sizes, physical)
      invariant stride == Numel(physical[k..], sizes)
      invariant forall j :: k <= j < |physical| ==> StrideAt(physical, sizes, byName, j)
    {
      ghost var known := byName;
      k := k - 1;
      byName := byName[physical[k] := stride];
      stride := sizes[physical[k]] * stride;
      NextStride(physical, sizes, known, byName, k);
    }
    forall j | 0 <= j < |physical|
      ensures physical[j] in byName
    {
      assert StrideAt(physical, sizes, byName, j);
    }
    SameDimsBack(physical, public);
    forall i | 0 <= i < |public|
      ensures public[i] in byName
    {
      var j :| 0 <= j < |physical| && physical[j] == public[i];
      assert StrideAt(physical, sizes, byName, j);
    }
    strides := seq(|public|, i requires 0 <= i < |public| && public[i] in byName => byName[public[i]]);
    StridesChain(shape, public, physical, strides, byName);
  }

  /**
    The last physical dimension is contiguous, and the stride of every other one is the stride times the size of the
    dimension after it.
   */
  predicate ChainedStrides(shape: seq<nat>, public: seq<Dim>, physical: seq<Dim>, strides: seq<nat>) {
    && |public| == |physical| == |shape| == |strides|
    && (forall i :: 0 <= i < |public| && public[i] == physical[|physical| - 1] ==> strides[i] == 1)
    && forall i, j :: 0 <= i < |public| && 0 <= j < |public| && Precedes(physical, public[i], public[j]) ==>
         strides[i] == strides[j] * shape[j]
  }

  /** b is the dimension right after a. */
  predicate Precedes(physical: seq<Dim>, a: Dim, b: Dim) {
    exists k, n :: 0 <= k < |physical| && 0 <= n < |physical| && n == k + 1 && physical[k] == a && physical[n] == b
  }

  lemma StridesChain(shape: seq<nat>, public: seq<Dim>, physical: seq<Dim>, strides: seq<nat>, byName: map<Dim, nat>)
    requires |shape| == |public| == |strides| == |physical| && DistinctDims(public)
    requires RowMajor(physical, SizesOf(shape, public), byName) && Covers(byName, public)
    requires forall i :: 0 <= i < |public| ==> strides[i] == byName[public[i]]
    ensures ChainedStrides(shape, public, physical, strides)
  {
    hide SizesOf, RowMajor, Precedes, DistinctDims, Covers;
    forall i | 0 <= i < |public| && public[i] == physical[|physical| - 1]
      ensures strides[i] == 1
    {
      LastStride(shape, public, physical, byName);
    }
    forall i, j | 0 <= i < |public| && 0 <= j < |public| && Precedes(physical, public[i], public[j])
      ensures strides[i] == strides[j] * shape[j]
    {
      StrideFollows(shape, public, physical, byName, i, j);
    }
  }

  lemma LastStride(shape: seq<nat>, public: seq<Dim>, physical: seq<Dim>, byName: map<Dim, nat>)
    requires |shape| == |public| == |physical| > 0 && DistinctDims(public)
    requires RowMajor(physical, SizesOf(shape, public), byName)
    ensures physical[|physical| - 1] in byName && byName[physical[|physical| - 1]] == 1
  {
    hide SizesOf, RowMajor;
    StrideChain(physical, SizesOf(shape, public), byName, |physical| - 1);
  }

  lemma StrideFollows(shape: seq<nat>, public: seq<Dim>, physical: seq<Dim>, byName: map<Dim, nat>, i: nat, j: nat)
    requires |shape| == |public| == |physical| && DistinctDims(public) && i < |public| && j < |public|
    requires RowMajor(physical, SizesOf(shape, public), byName) && Covers(byName, public)
    requires Precedes(physical, public[i], public[j])
    ensures byName[public[i]] == byName[public[j]] * shape[j]
  {
    hide SizesOf, RowMajor;
    var k, n :| 0 <= k < |physical| && 0 <= n < |physical| && n == k + 1 && physical[k] == public[i]
                && physical[n] == public[j];
    StrideChain(physical, SizesOf(shape, public), byName, k);
  }

  lemma StrideChain(physical: seq<Dim>, sizes: Sizes, byName: map<Dim, nat>, k: nat)
    requires k < |physical| && RowMajor(physical, sizes, byName)
    ensures Covers(sizes, physical)
    ensures physical[k] in byName && (k + 1 < |physical| ==> physical[k + 1] in byName)
    ensures byName[physical[k]]
            == if k == |physical| - 1 then 1 else byName[physical[k + 1]] * sizes[physical[k + 1]]
  {
    assert StrideAt(physical, sizes, byName, k);
    if k < |physical| - 1 {
      assert StrideAt(physical, sizes, byName, k + 1);
      assert physical[k + 1..][1..] == physical[k + 2..];
    }
  }

  lemma NextStride(physical: seq<Dim>, sizes: Sizes, known: map<Dim, nat>, byName: map<Dim, nat>, k: nat)
    requires k < |physical| && Covers(sizes, physical) && DistinctDims(physical)
    requires forall j :: k + 1 <= j < |physical| ==> StrideAt(physical, sizes, known, j)
    requires byName == known[physical[k] := Numel(physical[k + 1..], sizes)]
    ensures Numel(physical[k..], sizes) == sizes[physical[k]] * Numel(physical[k + 1..], sizes)
    ensures forall j :: k <= j < |physical| ==> StrideAt(physical, sizes, byName, j)
  {
    assert physical[k..][1..] == physical[k + 1..];
    forall j | k <= j < |physical|
      ensures StrideAt(physical, sizes, byName, j)
    {
      assert j > k ==> StrideAt(physical, sizes, known, j);
    }
  }

  lemma RestDistinct(dims: seq<Dim>, k: nat)
    requires DistinctDims(dims) && k < |dims|
    ensures DistinctDims(dims[..k] + dims[k + 1..])
  {
    var rest := dims[..k] + dims[k + 1..];
    forall i, j | 0 <= i < j < |rest|
      ensures rest[i] != rest[j]
    {
      assert rest[i] == dims[if i < k then i else i + 1] && rest[j] == dims[if j < k then j else j + 1];
    }
  }

  lemma {:induction false} SameDimsBack(a: seq<Dim>, b: seq<Dim>)
    requires SameDims(a, b)
    ensures SameDims(b, a)
    decreases |a|
  {
    if a != [] {
      var k :| 0 <= k < |b| && b[k] == a[0];
      var rest := b[..k] + b[k + 1..];
      forall i | 0 <= i < |a[1..]|
        ensures a[1..][i] in rest
      {
        var j :| 0 <= j < |b| && b[j] == a[i + 1];
        assert j != k;
        assert rest[if j < k then j else j - 1] == b[j];
      }
      RestDistinct(b, k);
      SameDimsBack(a[1..], rest);
      forall j | 0 <= j < |b|
        ensures b[j] in a
      {
        if j != k {
          var p := if j < k then j else j - 1;
          assert rest[p] == b[j];
          assert rest[p] in a[1..];
        }
      }
    }
  }

  /** Two views with different public orders over one physical order address a named index alike. */
  lemma ViewsAgree(shape1: seq<nat>, public1: seq<Dim>, shape2: seq<nat>, public2: seq<Dim>, physical: seq<Dim>,
                   byName1: map<Dim, nat>, byName2: map<Dim, nat>, m: Index)
    requires |shape1| == |public1| && |shape2| == |public2|
    requires SameDims(physical, public1) && SameDims(physical, public2)
    requires SizesOf(shape1, public1) == SizesOf(shape2, public2)
    requires RowMajor(physical, SizesOf(shape1, public1), byName1)
             && RowMajor(physical, SizesOf(shape2, public2), byName2)
    requires Covers(byName1, public1) && Covers(byName1, physical)
    requires Covers(byName2, public2) && Covers(byName2, physical)
    requires Covers(m, public1) && Covers(m, public2)
    ensures Covers(m, physical)
    ensures Address(public1, byName1, m) == Address(public2, byName2, m)
            == MixedRadix(physical, SizesOf(shape1, public1), m)
  {
    forall i | 0 <= i < |physical|
      ensures physical[i] in m
    {
      var j :| 0 <= j < |public1| && public1[j] == physical[i];
    }
    AddressIgnoresOrder(physical, public1, byName1, m);
    AddressIgnoresOrder(physical, public2, byName2, m);
    AddressIsMixedRadix(physical, SizesOf(shape1, public1), byName1, m);
    AddressIsMixedRadix(physical, SizesOf(shape2, public2), byName2, m);
  }
}
