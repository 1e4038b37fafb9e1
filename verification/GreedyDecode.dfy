/**
  The greedy draft block (the token loop of draft, the vocab-parallel argmax helpers of
  nvidia/dspark.py, and the blockwise Markov argmax kernel of dspark_kernels.py). The model follows
  one request; the tensors are per-request rows.
 */
module GreedyDecode {
  import opened Division
  import opened FirstArgMax
  import opened InnerProduct

  // ---- Scores ----

  /** Base logits plus the low-rank Markov bias of the previous token. */
  function Scores(base: seq<real>, w2: seq<seq<real>>, embed: seq<real>): (s: seq<real>)
    requires |base| == |w2| && forall v :: 0 <= v < |w2| ==> |w2[v]| == |embed|
    ensures |s| == |base| && forall v :: 0 <= v < |s| ==> s[v] == base[v] + Dot(w2[v], embed, |embed|)
  {
    seq(|base|, v requires 0 <= v < |base| => base[v] + Dot(w2[v], embed, |embed|))
  }

  /** One tensor-parallel rank: its rows of the Markov matrix, padding rows last, and where its vocabulary starts. */
  datatype Shard = Shard(w2: seq<seq<real>>, numPad: nat, start: nat)

  predicate ShardShape(sh: Shard, base: seq<real>, rank: nat) {
    && |sh.w2| == |base| && sh.numPad <= |base|
    && forall v :: 0 <= v < |sh.w2| ==> |sh.w2[v]| == rank
  }

  /** The scores of a rank's own vocabulary, padding dropped. */
  function OwnScores(sh: Shard, base: seq<real>, embed: seq<real>): (s: seq<real>)
    requires ShardShape(sh, base, |embed|)
    ensures |s| == |base| - sh.numPad
    ensures forall v :: 0 <= v < |s| ==> s[v] == base[v] + Dot(sh.w2[v], embed, |embed|)
  {
    Scores(base, sh.w2, embed)[..|base| - sh.numPad]
  }

  /** The unpadded vocabulary scores of every rank. */
  function Chunks(shards: seq<Shard>, bases: seq<seq<real>>, embed: seq<real>): (c: seq<seq<real>>)
    requires Shapes(shards, bases, |embed|)
    ensures |c| == |shards| && forall r :: 0 <= r < |c| ==> c[r] == OwnScores(shards[r], bases[r], embed)
  {
    seq(|shards|, r requires 0 <= r < |shards| => OwnScores(shards[r], bases[r], embed))
  }

  /** Base logits plus column k of the Markov matrix, padding dropped. */
  function Column(sh: Shard, base: seq<real>, rank: nat, k: nat): (c: seq<real>)
    requires ShardShape(sh, base, rank) && k < rank
    ensures |c| == |base| - sh.numPad
    ensures forall v :: 0 <= v < |c| ==> c[v] == base[v] + sh.w2[v][k]
  {
    seq(|base| - sh.numPad, v requires 0 <= v < |base| - sh.numPad => base[v] + sh.w2[v][k])
  }

  /** The scores that a unit embedding at k gives. */
  function Columns(shards: seq<Shard>, bases: seq<seq<real>>, rank: nat, k: nat): (c: seq<seq<real>>)
    requires Shapes(shards, bases, rank) && k < rank
    ensures |c| == |shards| && forall r :: 0 <= r < |c| ==> c[r] == Column(shards[r], bases[r], rank, k)
  {
    seq(|shards|, r requires 0 <= r < |shards| => Column(shards[r], bases[r], rank, k))
  }

  predicate HasScore(scores: seq<seq<real>>, r: nat, v: nat) {
    r < |scores| && v < |scores[r]|
  }

  /** With a unit embedding at k the Markov bias of an entry is its k-th coefficient. */
  lemma UnitEmbeddingScores(shards: seq<Shard>, bases: seq<seq<real>>, embed: seq<real>, k: nat)
    requires Shapes(shards, bases, |embed|) && IsUnit(embed, k)
    ensures Chunks(shards, bases, embed) == Columns(shards, bases, |embed|, k)
  {
    hide Dot;
    var c, d := Chunks(shards, bases, embed), Columns(shards, bases, |embed|, k);
    forall r | 0 <= r < |shards|
      ensures c[r] == d[r]
    {
      forall v | 0 <= v < |c[r]|
        ensures c[r][v] == d[r][v]
      {
        DotUnit(shards[r].w2[v], embed, k, |embed|);
      }
    }
  }

  /** Scaling the embedding scales the Markov bias of every entry, and adding embeddings adds it. */
  lemma BiasIsLinear(shards: seq<Shard>, bases: seq<seq<real>>, e: seq<real>, f: seq<real>, x: real, r: nat, v: nat)
    requires Shapes(shards, bases, |e|) && |e| == |f| && r < |shards| && v < |bases[r]| - shards[r].numPad
    ensures var bias := (g: seq<real>) requires |g| == |e| => Chunks(shards, bases, g)[r][v] - bases[r][v];
            bias(Scaled(x, e)) == x * bias(e) && bias(Plus(e, f)) == bias(e) + bias(f)
  {
    hide Dot;
    DotScales(shards[r].w2[v], x, e, |e|);
    DotAdds(shards[r].w2[v], e, f, |e|);
  }

  predicate Shapes(shards: seq<Shard>, bases: seq<seq<real>>, rank: nat) {
    |shards| == |bases| > 0 && forall r :: 0 <= r < |shards| ==> ShardShape(shards[r], bases[r], rank)
  }

  /**
    The vocabulary is cut into consecutive shards: each starts where the ones before it end, and
    shards without any own entry come last.
   */
  predicate Layout(shards: seq<Shard>, bases: seq<seq<real>>, used: nat) {
    && 0 < used <= |shards| == |bases|
    && (forall r :: 0 <= r < used ==> shards[r].numPad < |bases[r]|)
    && (forall r :: used <= r < |shards| ==> shards[r].numPad == |bases[r]|)
    && (forall r :: 0 <= r < |shards| ==> |bases[r]| > 0)
  }

  predicate StartsFollow(shards: seq<Shard>, chunks: seq<seq<real>>) {
    |shards| == |chunks| && forall r :: 0 <= r < |shards| ==> shards[r].start == Offset(chunks, r)
  }

  // ---- 32-bit floats as token indices ----

  const EXACT: nat := 0x100_0000

  /** Distance between neighbouring 32-bit floats around n. */
  function Spacing(n: nat): (u: nat)
    ensures u > 0
  {
    if n < EXACT then 1 else 2 * Spacing(n / 2)
  }

  /** n rounded to the nearest multiple of the spacing, ties to an even multiple. */
  function ToFloat32(n: nat): nat {
    var u := Spacing(n);
    var q, r := n / u, n % u;
    if 2 * r < u || (2 * r == u && q % 2 == 0) then n - r else n - r + u
  }

  /**
    A token index survives the float conversion exactly when it is a multiple of the spacing, in particular
    below 2^24.
   */
  lemma FloatIndexExactIff(n: nat)
    ensures ToFloat32(n) == n <==> n % Spacing(n) == 0
    ensures n < EXACT ==> ToFloat32(n) == n
  {
  }

  /** The first index that the conversion changes. */
  lemma FloatIndexCanChange()
    ensures EXACT == 16777216 && ToFloat32(16777216) == 16777216 && ToFloat32(16777217) == 16777216
  {
    assert (EXACT + 1) / 2 == EXACT / 2;
    assert Spacing(EXACT / 2) == 1;
    assert Spacing(EXACT + 1) == 2;
    assert Spacing(EXACT) == 2;
  }

  function PowerOfTwo(e: nat): nat {
    if e == 0 then 1 else 2 * PowerOfTwo(e - 1)
  }

  /**
    The image of an index is the nearest number of at most 24 significant bits: a multiple of a power of
    two by a factor of at most 2^24, off by at most half that power, and the power is the smallest possible.
   */
  lemma {:induction false} FloatImage(n: nat) returns (e: nat)
    ensures Spacing(n) == PowerOfTwo(e)
    ensures n < PowerOfTwo(e) * 0x100_0000 && (e > 0 ==> PowerOfTwo(e) * 0x80_0000 <= n)
    ensures ToFloat32(n) % PowerOfTwo(e) == 0 && ToFloat32(n) <= PowerOfTwo(e) * 0x100_0000
    ensures 2 * (ToFloat32(n) - n) <= PowerOfTwo(e) && 2 * (n - ToFloat32(n)) <= PowerOfTwo(e)
  {
    e := SpacingIsPower(n);
    NearestMultiple(n, PowerOfTwo(e));
  }

  lemma {:induction false} SpacingIsPower(n: nat) returns (e: nat)
    ensures Spacing(n) == PowerOfTwo(e)
    ensures n < PowerOfTwo(e) * 0x100_0000 && (e > 0 ==> PowerOfTwo(e) * 0x80_0000 <= n)
  {
    if n < 0x100_0000 {
      e := 0;
    } else {
      var d := SpacingIsPower(n / 2);
      e := d + 1;
    }
  }

  lemma NearestMultiple(n: nat, u: nat)
    requires u > 0 && Spacing(n) == u && n < u * 0x100_0000
    ensures ToFloat32(n) % u == 0 && ToFloat32(n) <= u * 0x100_0000
    ensures 2 * (ToFloat32(n) - n) <= u && 2 * (n - ToFloat32(n)) <= u
  {
    var x, r := ToFloat32(n), n % u;
    assert (x == n - r && 2 * r <= u) || (x == n - r + u && 2 * r >= u);
    hide ToFloat32, Spacing;
    MultipleBelow(n, u);
  }

  lemma MultipleBelow(n: nat, u: nat)
    requires u > 0 && n < u * 0x100_0000
    ensures (n - n % u) % u == 0 && n - n % u <= u * 0x100_0000
    ensures (n - n % u + u) % u == 0 && n - n % u + u <= u * 0x100_0000
  {
    QuotientBelow(n, u, 0x100_0000);
    MultiplyMonotone(n / u + 1, 0x100_0000, u);
    MultiplesAround(n, u, n / u);
  }

  lemma MultiplesAround(n: nat, u: nat, q: nat)
    requires u > 0 && q == n / u
    ensures n - n % u == u * q && n - n % u + u == u * (q + 1)
    ensures u * q % u == 0 && u * (q + 1) % u == 0
  {
    DivMod(u * q, u, q, 0);
    DivMod(u * (q + 1), u, q + 1, 0);
  }

  predicate SurvivesGather(n: nat) {
    ToFloat32(n) == n
  }

  /** Every index of a vocabulary survives the float gather exactly up to 2^24 + 1 entries. */
  lemma GatherIsExactIff(vocab: nat)
    ensures (forall n: nat :: n < vocab ==> SurvivesGather(n)) <==> vocab <= EXACT + 1
  {
    FloatIndexCanChange();
    assert !SurvivesGather(EXACT + 1);
    forall n: nat | n < vocab && vocab <= EXACT + 1
      ensures SurvivesGather(n)
    {
      FloatIndexExactIff(n);
    }
  }

  // ---- The fused kernel ----

  const V_BLOCK: nat := 256
  const R_BLOCK: nat := 32
  const NEG_INF: real := -340282346638528859811704183484516925440.0

  /** The rank-blocked accumulation of one lane. */
  method AccumulateRank(w2: seq<real>, embed: seq<real>) returns (acc: real)
    requires |w2| == |embed| && |embed| % R_BLOCK == 0
    ensures acc == Dot(w2, embed, |embed|)
    ensures forall k :: 0 <= k < |embed| && IsUnit(embed, k) ==> acc == w2[k]
  {
    forall k | 0 <= k < |embed| && IsUnit(embed, k)
      ensures Dot(w2, embed, |embed|) == w2[k]
    {
      DotUnit(w2, embed, k, |embed|);
    }
    acc := 0.0;
    var start := 0;
    while start < |embed|
      invariant start <= |embed| && start % R_BLOCK == 0
      invariant acc == Dot(w2, embed, start)
    {
      var partial := 0.0;
      for i := 0 to R_BLOCK
        invariant partial == Dot(w2[start..start + R_BLOCK], embed[start..start + R_BLOCK], i)
      {
        partial := partial + w2[start + i] * embed[start + i];
      }
      DotSplits(w2, embed, start, start + R_BLOCK);
      acc := acc + partial;
      start := start + R_BLOCK;
    }
  }

  function CeilDiv(n: nat, d: nat): nat
    requires d > 0
  {
    (n + d - 1) / d
  }

  /** Lane v of the kernel's grid: a valid score, or the padding value. */
  function Lane(scores: seq<real>, valid: nat, v: nat): real
    requires valid <= |scores|
  {
    if v < valid then scores[v] else NEG_INF
  }

  function Block(scores: seq<real>, valid: nat, block: nat): (b: seq<real>)
    requires valid <= |scores|
    ensures |b| == V_BLOCK && forall i :: 0 <= i < V_BLOCK ==> b[i] == Lane(scores, valid, block * V_BLOCK + i)
  {
    seq(V_BLOCK, i requires 0 <= i < V_BLOCK => Lane(scores, valid, block * V_BLOCK + i))
  }

  function Blocks(scores: seq<real>, valid: nat, n: nat): (b: seq<seq<real>>)
    requires valid <= |scores|
    ensures |b| == n && forall k :: 0 <= k < n ==> b[k] == Block(scores, valid, k)
  {
    seq(n, k requires 0 <= k < n => Block(scores, valid, k))
  }

  lemma {:induction false} BlockOffsets(scores: seq<real>, valid: nat, n: nat, k: nat)
    requires valid <= |scores| && k <= n
    ensures Offset(Blocks(scores, valid, n), k) == k * V_BLOCK
  {
    if k > 0 {
      BlockOffsets(scores, valid, n, k - 1);
    }
  }

  /** The grid laid end to end is the valid scores followed by padding. */
  lemma GridIsPadded(scores: seq<real>, valid: nat, n: nat)
    requires valid <= |scores| <= n * V_BLOCK
    ensures |Concat(Blocks(scores, valid, n))| == n * V_BLOCK
    ensures forall v :: 0 <= v < n * V_BLOCK ==> Concat(Blocks(scores, valid, n))[v] == Lane(scores, valid, v)
  {
    var blocks := Blocks(scores, valid, n);
    ConcatLength(blocks);
    BlockOffsets(scores, valid, n, n);
    hide Concat, Offset;
    forall v | 0 <= v < n * V_BLOCK
      ensures Concat(blocks)[v] == Lane(scores, valid, v)
    {
      var c, i := v / V_BLOCK, v % V_BLOCK;
      BlockOffsets(scores, valid, n, c);
      ConcatAt(blocks, c, i);
    }
  }

  /** The first best lane of the first best block is the first best valid score. */
  lemma BlockwiseIsArgMax(scores: seq<real>, valid: nat)
    requires 0 < valid <= |scores| && AtLeast(scores[..valid], NEG_INF)
    ensures var blocks := Blocks(scores, valid, CeilDiv(|scores|, V_BLOCK));
            && NonEmptyChunks(blocks)
            && var k := ArgMax(Maxima(blocks)); k * V_BLOCK + ArgMax(blocks[k]) == ArgMax(scores[..valid])
                                                && Maxima(blocks)[k] == scores[ArgMax(scores[..valid])]
  {
    var n := CeilDiv(|scores|, V_BLOCK);
    var blocks := Blocks(scores, valid, n);
    var k := ArgMax(Maxima(blocks));
    HierarchicalArgMax(blocks);
    BlockOffsets(scores, valid, n, k);
    GridArgMax(scores, valid, n);
    ConcatAt(blocks, k, ArgMax(blocks[k]));
    GridIsPadded(scores, valid, n);
  }

  lemma GridArgMax(scores: seq<real>, valid: nat, n: nat)
    requires 0 < valid <= |scores| <= n * V_BLOCK && AtLeast(scores[..valid], NEG_INF)
    ensures |Concat(Blocks(scores, valid, n))| > 0
    ensures ArgMax(Concat(Blocks(scores, valid, n))) == ArgMax(scores[..valid])
  {
    GridIsPadded(scores, valid, n);
    var whole := Concat(Blocks(scores, valid, n));
    hide Concat, ArgMax, Blocks;
    assert whole[..valid] == scores[..valid];
    assert Padded(whole, valid, NEG_INF) == whole;
    PaddingLoses(whole, valid, NEG_INF);
  }

  predicate MarkovShape(base: seq<real>, embed: seq<real>, w2: seq<seq<real>>, numPad: nat) {
    |base| == |w2| > 0 && numPad <= |base| && forall v :: 0 <= v < |w2| ==> |w2[v]| == |embed|
  }

  /** value and index are the first maximum of the unpadded scores; a fully padded row reports the padding value. */
  ghost predicate IsLocalBest(base: seq<real>, embed: seq<real>, w2: seq<seq<real>>, numPad: nat, value: real,
                              index: nat)
    requires MarkovShape(base, embed, w2, numPad)
  {
    var scores, valid := Scores(base, w2, embed), |base| - numPad;
    && (valid > 0 && AtLeast(scores[..valid], NEG_INF) ==> index == ArgMax(scores[..valid]) && value == scores[index])
    && (valid == 0 ==> value == NEG_INF)
  }

  predicate IsBlockBest(scores: seq<real>, valid: nat, block: nat, value: real, index: nat)
    requires valid <= |scores|
  {
    var lanes := Block(scores, valid, block);
    value == lanes[ArgMax(lanes)] && index == block * V_BLOCK + ArgMax(lanes)
  }

  /** One program of the kernel: the best lane of one vocabulary block. */
  method MarkovBlockArgMax(base: seq<real>, embed: seq<real>, w2: seq<seq<real>>, numPad: nat, block: nat)
    returns (value: real, index: nat)
    requires MarkovShape(base, embed, w2, numPad) && |embed| % R_BLOCK == 0
    ensures IsBlockBest(Scores(base, w2, embed), |base| - numPad, block, value, index)
  {
    hide ArgMax, Dot;
    var valid := |base| - numPad;
    ghost var scores := Scores(base, w2, embed);
    var lanes: seq<real> := [];
    for i := 0 to V_BLOCK
      invariant |lanes| == i
      invariant forall j :: 0 <= j < i ==> lanes[j] == Lane(scores, valid, block * V_BLOCK + j)
    {
      var v := block * V_BLOCK + i;
      var lane := NEG_INF;
      if v < valid {
        var acc := AccumulateRank(w2[v], embed);
        lane := base[v] + acc;
      }
      lanes := lanes + [lane];
    }
    assert lanes == Block(scores, valid, block);
    value, index := lanes[ArgMax(lanes)], block * V_BLOCK + ArgMax(lanes);
  }

  /** dspark_markov_argmax: the kernel's block results and the reduction over the blocks. */
  method MarkovArgMax(base: seq<real>, embed: seq<real>, w2: seq<seq<real>>, numPad: nat)
      returns (value: real, index: nat)
    requires MarkovShape(base, embed, w2, numPad)
    ensures IsLocalBest(base, embed, w2, numPad, value, index)
  {
    hide IsBlockBest, IsLocalBest, Dot, Scores, CeilDiv, ArgMax;
    if |embed| % R_BLOCK != 0 {
      value, index := MarkovArgMaxReference(base, embed, w2, numPad);
      return;
    }
    var valid := |base| - numPad;
    ghost var scores := Scores(base, w2, embed);
    var numBlocks := CeilDiv(|base|, V_BLOCK);
    var values: seq<real> := [];
    var indices: seq<nat> := [];
    for block := 0 to numBlocks
      invariant |values| == |indices| == block
      invariant forall k :: 0 <= k < block ==> IsBlockBest(scores, valid, k, values[k], indices[k])
    {
      var value, index := MarkovBlockArgMax(base, embed, w2, numPad, block);
      values := values + [value];
      indices := indices + [index];
    }
    ReductionIsLocalBest(base, embed, w2, numPad, values, indices);
    var best := ArgMax(values);
    value, index := values[best], indices[best];
  }

  lemma ReductionIsLocalBest(base: seq<real>, embed: seq<real>, w2: seq<seq<real>>, numPad: nat, values: seq<real>,
                             indices: seq<nat>)
    requires MarkovShape(base, embed, w2, numPad)
    requires |values| == |indices| == CeilDiv(|base|, V_BLOCK)
    requires var scores, valid := Scores(base, w2, embed), |base| - numPad;
             forall k :: 0 <= k < |values| ==> IsBlockBest(scores, valid, k, values[k], indices[k])
    ensures |values| > 0
    ensures IsLocalBest(base, embed, w2, numPad, values[ArgMax(values)], indices[ArgMax(values)])
  {
    hide Dot, ArgMax;
    var scores, valid := Scores(base, w2, embed), |base| - numPad;
    var blocks := Blocks(scores, valid, |values|);
    forall k | 0 <= k < |values|
      ensures values[k] == Maxima(blocks)[k]
    {
      assert IsBlockBest(scores, valid, k, values[k], indices[k]);
    }
    assert values == Maxima(blocks);
    var best := ArgMax(values);
    assert IsBlockBest(scores, valid, best, values[best], indices[best]);
    if valid > 0 && AtLeast(scores[..valid], NEG_INF) {
      BlockwiseIsArgMax(scores, valid);
    }
  }

  /** dspark_markov_argmax_torch: mask the padding and reduce. */
  method MarkovArgMaxReference(base: seq<real>, embed: seq<real>, w2: seq<seq<real>>, numPad: nat)
    returns (value: real, index: nat)
    requires MarkovShape(base, embed, w2, numPad)
    ensures IsLocalBest(base, embed, w2, numPad, value, index)
  {
    var scores := Scores(base, w2, embed);
    var valid := |base| - numPad;
    var masked := Padded(scores, valid, NEG_INF);
    index := ArgMax(masked);
    value := masked[index];
    if valid > 0 && AtLeast(scores[..valid], NEG_INF) {
      PaddingLoses(scores, valid, NEG_INF);
    }
  }

  // ---- The reduction across ranks ----

  predicate AllAtLeast(chunks: seq<seq<real>>, floor: real) {
    forall r :: 0 <= r < |chunks| ==> AtLeast(chunks[r], floor)
  }

  /** What every rank contributes: its local best value and index. */
  ghost predicate LocalBests(shards: seq<Shard>, bases: seq<seq<real>>, embed: seq<real>, values: seq<real>,
                             indices: seq<nat>)
    requires Shapes(shards, bases, |embed|)
  {
    && |values| == |indices| == |shards|
    && forall r :: 0 <= r < |shards| ==> LocalBestAt(shards, bases, embed, values, indices, r)
  }

  ghost predicate LocalBestAt(shards: seq<Shard>, bases: seq<seq<real>>, embed: seq<real>, values: seq<real>,
                              indices: seq<nat>, r: nat)
    requires Shapes(shards, bases, |embed|) && |values| == |indices| == |shards| && r < |shards|
  {
    |bases[r]| > 0 && IsLocalBest(bases[r], embed, shards[r].w2, shards[r].numPad, values[r], indices[r])
  }

  lemma {:induction false} ConcatEmptyTail(chunks: seq<seq<real>>, used: nat)
    requires used <= |chunks| && forall r :: used <= r < |chunks| ==> chunks[r] == []
    ensures Concat(chunks) == Concat(chunks[..used])
    decreases |chunks|
  {
    if used < |chunks| {
      var n := |chunks| - 1;
      ConcatEmptyTail(chunks[..n], used);
      assert chunks[..n][..used] == chunks[..used];
    } else {
      assert chunks[..used] == chunks;
    }
  }

  /** The first best rank's local winner, shifted by the rank's start, is the first maximum of the whole vocabulary. */
  lemma RankReduction(shards: seq<Shard>, bases: seq<seq<real>>, embed: seq<real>, used: nat, values: seq<real>,
                      indices: seq<nat>)
    requires Shapes(shards, bases, |embed|) && Layout(shards, bases, used)
    requires StartsFollow(shards, Chunks(shards, bases, embed)) && AllAtLeast(Chunks(shards, bases, embed), NEG_INF)
    requires LocalBests(shards, bases, embed, values, indices)
    ensures |values| > 0 && |Concat(Chunks(shards, bases, embed))| > 0
    ensures shards[ArgMax(values)].start + indices[ArgMax(values)] == ArgMax(Concat(Chunks(shards, bases, embed)))
  {
    hide ArgMax, Concat, Scores, Dot, IsLocalBest, Shapes, Layout, Offset;
    var chunks := Chunks(shards, bases, embed);
    forall r | 0 <= r < |shards|
      ensures RankFact(chunks, values, indices, used, r)
    {
      RankContributes(shards, bases, embed, used, values, indices, r);
    }
    assert 0 < used <= |shards| == |bases| by { LayoutUsed(shards, bases, used); }
    RankFactsReduce(chunks, values, indices, used);
    assert shards[ArgMax(values)].start == Offset(chunks, ArgMax(values));
  }

  lemma LayoutUsed(shards: seq<Shard>, bases: seq<seq<real>>, used: nat)
    requires Layout(shards, bases, used)
    ensures 0 < used <= |shards| == |bases|
  {
  }

  /**
    A used rank reports the first maximum of its chunk; an unused one has an empty chunk and reports the padding
    value.
   */
  predicate RankFact(chunks: seq<seq<real>>, values: seq<real>, indices: seq<nat>, used: nat, r: nat)
    requires |chunks| == |values| == |indices| && r < |chunks|
  {
    if r < used then
      && |chunks[r]| > 0 && indices[r] == ArgMax(chunks[r]) && values[r] == chunks[r][indices[r]]
      && values[r] >= NEG_INF
    else chunks[r] == [] && values[r] == NEG_INF
  }

  lemma RankContributes(shards: seq<Shard>, bases: seq<seq<real>>, embed: seq<real>, used: nat, values: seq<real>,
                        indices: seq<nat>, r: nat)
    requires Shapes(shards, bases, |embed|) && Layout(shards, bases, used) && r < |shards|
    requires AllAtLeast(Chunks(shards, bases, embed), NEG_INF)
    requires LocalBests(shards, bases, embed, values, indices)
    ensures RankFact(Chunks(shards, bases, embed), values, indices, used, r)
  {
    hide ArgMax, Dot;
    var chunk := Chunks(shards, bases, embed)[r];
    assert LocalBestAt(shards, bases, embed, values, indices, r);
    assert AtLeast(chunk, NEG_INF);
  }

  lemma RankFactsReduce(chunks: seq<seq<real>>, values: seq<real>, indices: seq<nat>, used: nat)
    requires 0 < used <= |chunks| == |values| == |indices|
    requires forall r :: 0 <= r < |chunks| ==> RankFact(chunks, values, indices, used, r)
    ensures |Concat(chunks)| > 0
    ensures Offset(chunks, ArgMax(values)) + indices[ArgMax(values)] == ArgMax(Concat(chunks))
  {
    hide ArgMax, Concat, Offset;
    var own := chunks[..used];
    forall r | 0 <= r < |chunks|
      ensures r < used ==> |chunks[r]| > 0 && indices[r] == ArgMax(chunks[r])
      ensures r < used ==> values[r] == chunks[r][ArgMax(chunks[r])] && values[r] >= NEG_INF
      ensures r >= used ==> chunks[r] == [] && values[r] == NEG_INF
    {
      assert RankFact(chunks, values, indices, used, r);
    }
    ConcatEmptyTail(chunks, used);
    HierarchicalArgMax(own);
    assert values[..used] == Maxima(own);
    PaddedChunksLose(values, used, NEG_INF);
    OffsetOfPrefix(chunks, used, ArgMax(values));
  }

  /** _vocab_parallel_argmax_from_local: one rank answers directly, several ranks gather value and index as floats. */
  method ReduceRanks(values: seq<real>, globals: seq<nat>) returns (token: nat)
    requires |values| == |globals| > 0
    ensures token == if |values| == 1 then globals[0] else ToFloat32(globals[ArgMax(values)])
  {
    if |values| == 1 {
      return globals[0];
    }
    var gathered := seq(|globals|, r requires 0 <= r < |globals| => ToFloat32(globals[r]));
    token := gathered[ArgMax(values)];
  }

  // ---- The draft block ----

  /** base[pos][rank] are the local base logits; embedOf gives the Markov embedding of a token. */
  datatype Model = Model(shards: seq<Shard>, bases: seq<seq<seq<real>>>, embedOf: nat -> seq<real>, rank: nat)

  /** Shapes and layout of the model; no real score lies below the masking floor. */
  ghost predicate GoodModel(m: Model, used: nat) {
    && (forall t: nat :: |m.embedOf(t)| == m.rank)
    && forall pos :: 0 <= pos < |m.bases| ==> GoodPosition(m, used, pos)
  }

  ghost predicate GoodPosition(m: Model, used: nat, pos: nat)
    requires pos < |m.bases|
  {
    && Shapes(m.shards, m.bases[pos], m.rank) && Layout(m.shards, m.bases[pos], used)
    && forall t: nat :: |m.embedOf(t)| == m.rank ==> GoodScores(m, pos, t)
  }

  ghost predicate GoodScores(m: Model, pos: nat, t: nat)
    requires pos < |m.bases| && Shapes(m.shards, m.bases[pos], m.rank) && |m.embedOf(t)| == m.rank
  {
    var chunks := Chunks(m.shards, m.bases[pos], m.embedOf(t));
    && StartsFollow(m.shards, chunks) && AllAtLeast(chunks, NEG_INF)
    && 0 < |Concat(chunks)|
  }

  /** One rank needs no gather; the indices of several ranks are gathered as floats. */
  ghost predicate GatherFits(m: Model, pos: nat, t: nat)
    requires pos < |m.bases| && Shapes(m.shards, m.bases[pos], m.rank) && |m.embedOf(t)| == m.rank
  {
    |m.shards| == 1 || |Concat(Chunks(m.shards, m.bases[pos], m.embedOf(t)))| <= EXACT + 1
  }

  ghost predicate VocabularyFits(m: Model, used: nat)
    requires GoodModel(m, used)
  {
    forall pos: nat, t: nat :: pos < |m.bases| ==> GoodPosition(m, used, pos) && GatherFits(m, pos, t)
  }

  /** How the reduction over the ranks reports a token. */
  function Reported(m: Model, token: nat): nat {
    if |m.shards| == 1 then token else ToFloat32(token)
  }

  /** The greedy token after t at a position: first maximum of base plus Markov scores over the whole vocabulary. */
  ghost function NextToken(m: Model, used: nat, pos: nat, t: nat): nat
    requires GoodModel(m, used) && pos < |m.bases|
  {
    assert GoodPosition(m, used, pos) && GoodScores(m, pos, t);
    ArgMax(Concat(Chunks(m.shards, m.bases[pos], m.embedOf(t))))
  }

  /** The left-to-right greedy block after t0, t0 included. */
  ghost function GreedyBlock(m: Model, used: nat, t0: nat, n: nat): (block: seq<nat>)
    requires GoodModel(m, used) && n <= |m.bases|
    ensures |block| == n + 1
  {
    if n == 0 then [t0]
    else
      var block := GreedyBlock(m, used, t0, n - 1);
      block + [NextToken(m, used, n - 1, block[n - 1])]
  }

  /** The block that the ranks report: every token as the reduction gives it, when there is one. */
  ghost function ReportedBlock(m: Model, used: nat, t0: nat, n: nat, reduced: bool): (block: seq<nat>)
    requires GoodModel(m, used) && n <= |m.bases|
    ensures |block| == n + 1
  {
    if n == 0 then [t0]
    else
      var block := ReportedBlock(m, used, t0, n - 1, reduced);
      var token := NextToken(m, used, n - 1, block[n - 1]);
      block + [if reduced then Reported(m, token) else token]
  }

  /** Both paths decode the greedy block, the reduced one if there is one rank or the vocabulary fits. */
  lemma {:induction false} ReportedBlockIsGreedy(m: Model, used: nat, t0: nat, n: nat, reduced: bool)
    requires GoodModel(m, used) && n <= |m.bases| && (reduced ==> VocabularyFits(m, used))
    ensures ReportedBlock(m, used, t0, n, reduced) == GreedyBlock(m, used, t0, n)
  {
    hide GoodModel, NextToken, VocabularyFits, Reported;
    if n > 0 {
      ReportedBlockIsGreedy(m, used, t0, n - 1, reduced);
      if reduced {
        FittingTokenIsExact(m, used, n - 1, GreedyBlock(m, used, t0, n - 1)[n - 1]);
      }
    }
  }

  /**
    token is the first best entry of the vocabulary: the score of its rank and row is matched by no other
    entry of a smaller index and exceeded by none.
   */
  ghost predicate IsFirstBest(shards: seq<Shard>, scores: seq<seq<real>>, token: nat)
    requires |shards| == |scores|
  {
    exists r: nat, v: nat ::
      && HasScore(scores, r, v) && token == shards[r].start + v
      && forall r': nat, v': nat :: HasScore(scores, r', v') ==>
           && scores[r'][v'] <= scores[r][v]
           && (scores[r'][v'] == scores[r][v] ==> token <= shards[r'].start + v')
  }

  lemma FirstMaxIsFirstBest(shards: seq<Shard>, scores: seq<seq<real>>)
    requires StartsFollow(shards, scores) && |Concat(scores)| > 0
    ensures IsFirstBest(shards, scores, ArgMax(Concat(scores)))
  {
    hide Concat, ArgMax, Offset;
    var whole := Concat(scores);
    var token := ArgMax(whole);
    ArgMaxIsFirstMax(whole);
    ConcatLength(scores);
    var r, v := Locate(scores, |scores|, token);
    ConcatAt(scores, r, v);
    assert HasScore(scores, r, v) && token == shards[r].start + v;
    forall r': nat, v': nat | HasScore(scores, r', v')
      ensures scores[r'][v'] <= scores[r][v]
      ensures scores[r'][v'] == scores[r][v] ==> token <= shards[r'].start + v'
    {
      ConcatAt(scores, r', v');
    }
  }

  /** The path reports the first best entry of the scores, over several ranks as a 32-bit float. */
  ghost predicate Reports(m: Model, reduced: bool, scores: seq<seq<real>>, token: nat)
    requires |m.shards| == |scores|
  {
    exists best: nat ::
      IsFirstBest(m.shards, scores, best) && token == if reduced && |m.shards| > 1 then ToFloat32(best) else best
  }

  /** token follows t at a position: it is decoded from the scores of t's embedding. */
  ghost predicate Follows(m: Model, used: nat, pos: nat, reduced: bool, t: nat, token: nat)
    requires GoodModel(m, used) && pos < |m.bases|
  {
    PositionIsGood(m, used, pos, t);
    Reports(m, reduced, Chunks(m.shards, m.bases[pos], m.embedOf(t)), token)
  }

  /** The same over a unit embedding at k, from the logits and the k-th coefficients alone. */
  ghost predicate FollowsColumn(m: Model, used: nat, pos: nat, reduced: bool, k: nat, token: nat)
    requires GoodModel(m, used) && pos < |m.bases| && k < m.rank
  {
    assert GoodPosition(m, used, pos);
    Reports(m, reduced, Columns(m.shards, m.bases[pos], m.rank, k), token)
  }

  lemma FollowsUnit(m: Model, used: nat, pos: nat, reduced: bool, t: nat, token: nat, k: nat)
    requires GoodModel(m, used) && pos < |m.bases| && IsUnit(m.embedOf(t), k)
    requires Follows(m, used, pos, reduced, t, token)
    ensures k < m.rank && FollowsColumn(m, used, pos, reduced, k, token)
  {
    hide Reports;
    PositionIsGood(m, used, pos, t);
    UnitEmbeddingScores(m.shards, m.bases[pos], m.embedOf(t), k);
  }

  lemma NextTokenFollows(m: Model, used: nat, pos: nat, t: nat, reduced: bool)
    requires GoodModel(m, used) && pos < |m.bases|
    ensures var token := NextToken(m, used, pos, t);
            Follows(m, used, pos, reduced, t, if reduced then Reported(m, token) else token)
  {
    hide GoodModel, Concat, ArgMax, ToFloat32, Chunks;
    PositionIsGood(m, used, pos, t);
    FirstMaxIsFirstBest(m.shards, Chunks(m.shards, m.bases[pos], m.embedOf(t)));
  }

  /** One position on the full-vocabulary path. */
  method FullStep(m: Model, pos: nat, t: nat, ghost used: nat) returns (token: nat)
    requires GoodModel(m, used) && pos < |m.bases|
    ensures token == NextToken(m, used, pos, t)
  {
    assert GoodPosition(m, used, pos) && GoodScores(m, pos, t);
    var logits := Concat(Chunks(m.shards, m.bases[pos], m.embedOf(t)));
    token := ArgMax(logits);
  }

  /**
    One position on the vocabulary-parallel paths: local best of every rank, with or without the fused kernel,
    then the reduction.
   */
  method LocalStep(m: Model, pos: nat, t: nat, fused: bool, ghost used: nat) returns (token: nat)
    requires GoodModel(m, used) && pos < |m.bases|
    ensures token == Reported(m, NextToken(m, used, pos, t))
    ensures VocabularyFits(m, used) ==> token == NextToken(m, used, pos, t)
  {
    hide ArgMax, Concat, GoodModel, GoodPosition, GoodScores, NextToken, StartsFollow, AllAtLeast, LocalBests, Layout,
         Chunks, Shapes, ToFloat32, VocabularyFits;
    PositionIsGood(m, used, pos, t);
    var values, indices := LocalCandidates(m.shards, m.bases[pos], m.embedOf(t), fused, used);
    token := ReduceCandidates(m, pos, t, values, indices, used);
    if VocabularyFits(m, used) {
      FittingTokenIsExact(m, used, pos, t);
    }
  }

  /** Every entry of the reported block is decoded from the entry before it. */
  lemma {:induction false} BlockFollows(m: Model, used: nat, t0: nat, n: nat, reduced: bool, j: nat)
    requires GoodModel(m, used) && j < n <= |m.bases|
    ensures var block := ReportedBlock(m, used, t0, n, reduced);
            Follows(m, used, j, reduced, block[j], block[j + 1])
  {
    hide GoodModel, NextToken, Reported, Follows;
    if j < n - 1 {
      BlockFollows(m, used, t0, n - 1, reduced, j);
    } else {
      NextTokenFollows(m, used, j, ReportedBlock(m, used, t0, j, reduced)[j], reduced);
    }
  }

  lemma {:induction false} BlockStarts(m: Model, used: nat, t0: nat, n: nat, reduced: bool)
    requires GoodModel(m, used) && n <= |m.bases|
    ensures ReportedBlock(m, used, t0, n, reduced)[0] == t0
  {
    hide GoodModel, NextToken, Reported;
    if n > 0 {
      BlockStarts(m, used, t0, n - 1, reduced);
    }
  }

  lemma PositionIsGood(m: Model, used: nat, pos: nat, t: nat)
    requires GoodModel(m, used) && pos < |m.bases|
    ensures Shapes(m.shards, m.bases[pos], |m.embedOf(t)|) && Layout(m.shards, m.bases[pos], used)
    ensures var chunks := Chunks(m.shards, m.bases[pos], m.embedOf(t));
            && StartsFollow(m.shards, chunks) && AllAtLeast(chunks, NEG_INF)
            && |Concat(chunks)| > 0 && NextToken(m, used, pos, t) == ArgMax(Concat(chunks))
  {
    assert GoodPosition(m, used, pos) && GoodScores(m, pos, t);
  }

  /** The local winners, shifted by their ranks' starts, and the reduction over the ranks. */
  method ReduceCandidates(m: Model, pos: nat, t: nat, values: seq<real>, indices: seq<nat>, ghost used: nat)
      returns (token: nat)
    requires GoodModel(m, used) && pos < |m.bases| && Shapes(m.shards, m.bases[pos], |m.embedOf(t)|)
    requires LocalBests(m.shards, m.bases[pos], m.embedOf(t), values, indices)
    ensures token == Reported(m, NextToken(m, used, pos, t))
  {
    hide ArgMax, Concat, GoodModel, GoodPosition, GoodScores, NextToken, StartsFollow, AllAtLeast, Layout, Chunks,
         ToFloat32;
    PositionIsGood(m, used, pos, t);
    RankReduction(m.shards, m.bases[pos], m.embedOf(t), used, values, indices);
    var globals := seq(|indices|, r requires 0 <= r < |indices| => m.shards[r].start + indices[r]);
    OnlyRank(values);
    token := ReduceRanks(values, globals);
  }

  lemma FittingTokenIsExact(m: Model, used: nat, pos: nat, t: nat)
    requires GoodModel(m, used) && pos < |m.bases| && VocabularyFits(m, used)
    ensures Reported(m, NextToken(m, used, pos, t)) == NextToken(m, used, pos, t)
  {
    hide ToFloat32;
    assert GoodPosition(m, used, pos) && GoodScores(m, pos, t) && GatherFits(m, pos, t);
    GatherIsExactIff(EXACT + 1);
    assert |m.shards| > 1 ==> SurvivesGather(NextToken(m, used, pos, t));
  }

  lemma OnlyRank(values: seq<real>)
    requires |values| > 0
    ensures |values| == 1 ==> ArgMax(values) == 0
  {
  }

  /** The local best of every rank. */
  method LocalCandidates(shards: seq<Shard>, bases: seq<seq<real>>, embed: seq<real>, fused: bool, ghost used: nat)
    returns (values: seq<real>, indices: seq<nat>)
    requires Shapes(shards, bases, |embed|) && Layout(shards, bases, used)
    ensures LocalBests(shards, bases, embed, values, indices)
  {
    values, indices := [], [];
    for r := 0 to |shards|
      invariant |values| == |indices| == r
      invariant forall k :: 0 <= k < r ==>
                  IsLocalBest(bases[k], embed, shards[k].w2, shards[k].numPad, values[k], indices[k])
    {
      hide IsLocalBest;
      var value, index;
      if fused {
        value, index := MarkovArgMax(bases[r], embed, shards[r].w2, shards[r].numPad);
      } else {
        value, index := MarkovArgMaxReference(bases[r], embed, shards[r].w2, shards[r].numPad);
      }
      values := values + [value];
      indices := indices + [index];
    }
  }

  /**
    The token loop of draft. Every combination of flags takes one of the two paths. The full-vocabulary
    path decodes the greedy block, and so does the other one if there is one rank or the indices fit.
   */
  method Draft(m: Model, t0: nat, returnLogits: bool, returnConfidence: bool, localArgmax: bool, fusedMarkov: bool,
               ghost used: nat)
    returns (ids: array<nat>)
    requires GoodModel(m, used)
    ensures fresh(ids) && ids.Length == |m.bases| + 1 && ids[0] == t0
    ensures forall j: nat :: j < |m.bases| ==> Follows(m, used, j, !returnLogits && localArgmax, ids[j], ids[j + 1])
    ensures forall j: nat, k: nat :: j < |m.bases| && k < m.rank && IsUnit(m.embedOf(ids[j]), k) ==>
              FollowsColumn(m, used, j, !returnLogits && localArgmax, k, ids[j + 1])
    ensures ids[..] == ReportedBlock(m, used, t0, |m.bases|, !returnLogits && localArgmax)
    ensures (!returnLogits && localArgmax ==> VocabularyFits(m, used)) ==>
              ids[..] == GreedyBlock(m, used, t0, |m.bases|)
  {
    hide GoodModel, NextToken, VocabularyFits, Reported, Follows, FollowsColumn, IsUnit;
    var blockSize := |m.bases|;
    ghost var reduced := !returnLogits && localArgmax;
    ids := new nat[blockSize + 1];
    ids[0] := t0;
    if !returnLogits && localArgmax {
      for pos := 0 to blockSize
        invariant ids[..pos + 1] == ReportedBlock(m, used, t0, pos, reduced)
      {
        var token := LocalStep(m, pos, ids[pos], !returnConfidence && fusedMarkov, used);
        ids[pos + 1] := token;
        assert ids[..pos + 1 + 1] == ids[..pos + 1] + [token];
      }
    } else {
      for pos := 0 to blockSize
        invariant ids[..pos + 1] == ReportedBlock(m, used, t0, pos, reduced)
      {
        var token := FullStep(m, pos, ids[pos], used);
        ids[pos + 1] := token;
        assert ids[..pos + 1 + 1] == ids[..pos + 1] + [token];
      }
    }
    assert ids[..] == ids[..blockSize + 1];
    BlockStarts(m, used, t0, blockSize, reduced);
    forall j: nat | j < blockSize
      ensures Follows(m, used, j, reduced, ids[j], ids[j + 1])
    {
      BlockFollows(m, used, t0, blockSize, reduced, j);
    }
    forall j: nat, k: nat | j < blockSize && k < m.rank && IsUnit(m.embedOf(ids[j]), k)
      ensures FollowsColumn(m, used, j, reduced, k, ids[j + 1])
    {
      FollowsUnit(m, used, j, reduced, ids[j], ids[j + 1], k);
    }
    if reduced ==> VocabularyFits(m, used) {
      ReportedBlockIsGreedy(m, used, t0, blockSize, reduced);
    }
  }
}
