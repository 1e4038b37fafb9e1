/**
  The block-scaled einsum bhr,hdr->bhd (ops/fp8_einsum.py): weights [groups, out_rank, hidden] and
  activations [tokens, groups, hidden] with one scale for each block of 128 hidden columns, and, for
  the weights, one scale row for each block of 128 output rows. Stored numbers are reals.
 */
module BlockScaledEinsum {
  import opened Wrappers
  import opened Division
  import opened InnerProduct

  const BLOCK_TOKENS := 16
  const BLOCK_OUT := 128
  const BLOCK_HIDDEN := 128

  type Row = seq<real>

  /** Operands of one launch: a[token][group], b[group][output row]. */
  datatype Operands = Operands(a: seq<seq<Row>>, aScale: seq<seq<Row>>, b: seq<seq<Row>>, bScale: seq<seq<Row>>)

  function Blocks(n: nat, size: nat): (k: nat)
    requires size > 0
  {
    (n + size - 1) / size
  }

  predicate Shaped(t: seq<seq<Row>>, n: nat, m: nat, width: nat) {
    |t| == n && forall i :: 0 <= i < n ==> |t[i]| == m && forall j :: 0 <= j < m ==> |t[i][j]| == width
  }

  predicate WellShaped(x: Operands, tokens: nat, groups: nat, rank: nat, hidden: nat) {
    && Shaped(x.a, tokens, groups, hidden)
    && Shaped(x.aScale, tokens, groups, Blocks(hidden, BLOCK_HIDDEN))
    && Shaped(x.b, groups, rank, hidden)
    && Shaped(x.bScale, groups, Blocks(rank, BLOCK_OUT), Blocks(hidden, BLOCK_HIDDEN))
  }

  // ---- Dequantised operands ----

  function Dequantise(x: Row, scale: Row): (r: Row)
    requires Blocks(|x|, BLOCK_HIDDEN) <= |scale|
    ensures |r| == |x|
  {
    seq(|x|, h requires 0 <= h < |x| => x[h] * scale[h / BLOCK_HIDDEN])
  }

  /** Every entry times the scale of its block of 128 columns. */
  lemma DequantisedAt(x: Row, scale: Row, h: nat)
    requires Blocks(|x|, 128) <= |scale| && h < |x|
    ensures h / 128 < |scale| && Dequantise(x, scale)[h] == x[h] * scale[h / 128]
  {
  }

  /** The rows and scales of output (t, g, o) exist and fit each other. */
  predicate HasEntry(x: Operands, t: nat, g: nat, o: nat) {
    && t < |x.a| && t < |x.aScale| && g < |x.a[t]| && g < |x.aScale[t]|
    && g < |x.b| && g < |x.bScale| && o < |x.b[g]| && o / BLOCK_OUT < |x.bScale[g]|
    && |x.a[t][g]| == |x.b[g][o]|
    && Blocks(|x.a[t][g]|, BLOCK_HIDDEN) <= |x.aScale[t][g]|
    && Blocks(|x.a[t][g]|, BLOCK_HIDDEN) <= |x.bScale[g][o / BLOCK_OUT]|
  }

  /** What output (t, g, o) is meant to be: dequantise, then multiply. */
  function Value(x: Operands, t: nat, g: nat, o: nat): real
    requires HasEntry(x, t, g, o)
  {
    Dot(Dequantise(x.a[t][g], x.aScale[t][g]), Dequantise(x.b[g][o], x.bScale[g][o / BLOCK_OUT]), |x.a[t][g]|)
  }

  // ---- Scaled partial sums ----

  /** tl.load with a mask on the hidden column and 0 elsewhere. */
  function Load(x: Row, h: nat): real {
    if h < |x| then x[h] else 0.0
  }

  function Times(u: real, v: real): real {
    u * v
  }

  /** Unscaled inner product of n columns from start. */
  function RawDot(x: Row, y: Row, start: nat, n: nat): real {
    if n == 0 then 0.0 else RawDot(x, y, start, n - 1) + Times(Load(x, start + n - 1), Load(y, start + n - 1))
  }

  function Term(raw: real, xScale: real, yScale: real): real {
    raw * xScale * yScale
  }

  /** Accumulator of one output after k hidden blocks. */
  function Accumulated(x: Row, xScale: Row, y: Row, yScale: Row, k: nat): real
    requires k <= |xScale| && k <= |yScale|
  {
    if k == 0 then 0.0
    else Accumulated(x, xScale, y, yScale, k - 1)
         + Term(RawDot(x, y, (k - 1) * BLOCK_HIDDEN, BLOCK_HIDDEN), xScale[k - 1], yScale[k - 1])
  }

  lemma TermAdds(raw: real, u: real, v: real, p: real, q: real)
    ensures Term(raw + Times(u, v), p, q) == Term(raw, p, q) + Times(Times(u, p), Times(v, q))
  {
    assert u * v * p * q == (u * p) * (v * q);
    var w := u * v;
    assert (raw + w) * p == raw * p + w * p;
    assert (raw * p + w * p) * q == raw * p * q + w * p * q;
  }

  lemma TermOfZero(p: real, q: real)
    ensures Term(0.0, p, q) == 0.0
  {
  }

  function Min(m: nat, n: nat): nat {
    if m < n then m else n
  }

  /** The first n columns of hidden block k add exactly their dequantised products. */
  lemma {:induction false} BlockAdds(x: Row, xScale: Row, y: Row, yScale: Row, k: nat, n: nat)
    requires |x| == |y| && k < |xScale| && k < |yScale| && n <= BLOCK_HIDDEN
    requires Blocks(|x|, BLOCK_HIDDEN) <= |xScale| && Blocks(|x|, BLOCK_HIDDEN) <= |yScale|
    ensures var start := k * BLOCK_HIDDEN;
            var dx, dy := Dequantise(x, xScale), Dequantise(y, yScale);
            Dot(dx, dy, Min(start, |x|)) + Term(RawDot(x, y, start, n), xScale[k], yScale[k])
                == Dot(dx, dy, Min(start + n, |x|))
  {
    hide Term, Times, Blocks, Dequantise, Load;
    var start := k * BLOCK_HIDDEN;
    if n > 0 {
      BlockAdds(x, xScale, y, yScale, k, n - 1);
      var h := start + n - 1;
      TermAdds(RawDot(x, y, start, n - 1), Load(x, h), Load(y, h), xScale[k], yScale[k]);
      ColumnAdds(x, xScale, y, yScale, k, h);
    } else {
      TermOfZero(xScale[k], yScale[k]);
    }
  }

  /** One more column of the dequantised inner product; a column past the end adds nothing. */
  lemma ColumnAdds(x: Row, xScale: Row, y: Row, yScale: Row, k: nat, h: nat)
    requires |x| == |y| && k < |xScale| && k < |yScale| && k * BLOCK_HIDDEN <= h < (k + 1) * BLOCK_HIDDEN
    requires Blocks(|x|, BLOCK_HIDDEN) <= |xScale| && Blocks(|x|, BLOCK_HIDDEN) <= |yScale|
    ensures var dx, dy := Dequantise(x, xScale), Dequantise(y, yScale);
            Dot(dx, dy, Min(h + 1, |x|))
                == Dot(dx, dy, Min(h, |x|)) + Times(Times(Load(x, h), xScale[k]), Times(Load(y, h), yScale[k]))
  {
    var dx, dy := Dequantise(x, xScale), Dequantise(y, yScale);
    if h < |x| {
      assert h / BLOCK_HIDDEN == k;
      assert dx[h] == Load(x, h) * xScale[k] && dy[h] == Load(y, h) * yScale[k];
    } else {
      assert Load(x, h) == 0.0 && Load(y, h) == 0.0;
      assert Load(x, h) * xScale[k] == 0.0;
    }
  }

  /** Scaling each block's partial sum is dequantising first, for every hidden size and not only multiples of 128. */
  lemma {:induction false} AccumulatedIsDequantised(x: Row, xScale: Row, y: Row, yScale: Row, k: nat)
    requires |x| == |y| && k <= |xScale| && k <= |yScale|
    requires Blocks(|x|, BLOCK_HIDDEN) <= |xScale| && Blocks(|x|, BLOCK_HIDDEN) <= |yScale|
    ensures Accumulated(x, xScale, y, yScale, k)
            == Dot(Dequantise(x, xScale), Dequantise(y, yScale), Min(k * BLOCK_HIDDEN, |x|))
  {
    if k > 0 {
      AccumulatedIsDequantised(x, xScale, y, yScale, k - 1);
      BlockAdds(x, xScale, y, yScale, k - 1, BLOCK_HIDDEN);
    }
  }

  // ---- The kernel ----

  predicate InTile(t: nat, o: nat, tokenBlock: nat, outBlock: nat) {
    t / BLOCK_TOKENS == tokenBlock && o / BLOCK_OUT == outBlock
  }

  /** Masked loads: rows and scales outside the tensors read as zero. */
  function LoadRow(t: seq<seq<Row>>, i: nat, j: nat): Row {
    if i < |t| && j < |t[i]| then t[i][j] else []
  }

  function LoadScale(t: seq<seq<Row>>, i: nat, j: nat, k: nat): real {
    if i < |t| && j < |t[i]| then Load(t[i][j], k) else 0.0
  }

  /** The accumulator cell of output (t, g, o) after k hidden blocks; masked cells may hold anything. */
  predicate Holds(x: Operands, v: real, t: nat, g: nat, o: nat, k: nat) {
    t < |x.a| && t < |x.aScale| && g < |x.a[t]| && g < |x.aScale[t]| && g < |x.b| && g < |x.bScale|
    && o < |x.b[g]| && o / BLOCK_OUT < |x.bScale[g]| && k <= |x.aScale[t][g]| && k <= |x.bScale[g][o / BLOCK_OUT]| ==>
      v == Accumulated(x.a[t][g], x.aScale[t][g], x.b[g][o], x.bScale[g][o / BLOCK_OUT], k)
  }

  lemma HoldsNext(x: Operands, v: real, t: nat, g: nat, o: nat, k: nat)
    requires Holds(x, v, t, g, o, k)
    ensures var raw := RawDot(LoadRow(x.a, t, g), LoadRow(x.b, g, o), k * BLOCK_HIDDEN, BLOCK_HIDDEN);
            Holds(x, v + Term(raw, LoadScale(x.aScale, t, g, k), LoadScale(x.bScale, g, o / BLOCK_OUT, k)), t, g, o,
                k + 1)
  {
    hide Term, RawDot;
  }

  /** One hidden block of one program: add its scaled products to the whole tile. */
  method AddBlock(x: Operands, accum: array2<real>, tokenBlock: nat, outBlock: nat, g: nat, k: nat)
    requires accum.Length0 == BLOCK_TOKENS && accum.Length1 == BLOCK_OUT
    requires forall i, j :: 0 <= i < BLOCK_TOKENS && 0 <= j < BLOCK_OUT ==>
               Holds(x, accum[i, j], tokenBlock * BLOCK_TOKENS + i, g, outBlock * BLOCK_OUT + j, k)
    modifies accum
    ensures forall i, j :: 0 <= i < BLOCK_TOKENS && 0 <= j < BLOCK_OUT ==>
              Holds(x, accum[i, j], tokenBlock * BLOCK_TOKENS + i, g, outBlock * BLOCK_OUT + j, k + 1)
  {
    hide Holds, Term, RawDot, LoadRow, LoadScale;
    for i := 0 to BLOCK_TOKENS
      invariant forall i', j :: 0 <= i' < i && 0 <= j < BLOCK_OUT ==>
                  Holds(x, accum[i', j], tokenBlock * BLOCK_TOKENS + i', g, outBlock * BLOCK_OUT + j, k + 1)
      invariant forall i', j :: i <= i' < BLOCK_TOKENS && 0 <= j < BLOCK_OUT ==> accum[i', j] == old(accum[i', j])
    {
      var t := tokenBlock * BLOCK_TOKENS + i;
      for j := 0 to BLOCK_OUT
        invariant forall i', j' :: 0 <= i' < i && 0 <= j' < BLOCK_OUT ==>
                    Holds(x, accum[i', j'], tokenBlock * BLOCK_TOKENS + i', g, outBlock * BLOCK_OUT + j', k + 1)
        invariant forall j' :: 0 <= j' < j ==> Holds(x, accum[i, j'], t, g, outBlock * BLOCK_OUT + j', k + 1)
        invariant forall j' :: j <= j' < BLOCK_OUT ==> accum[i, j'] == old(accum[i, j'])
        invariant forall i', j' :: i < i' < BLOCK_TOKENS && 0 <= j' < BLOCK_OUT ==> accum[i', j'] == old(accum[i', j'])
      {
        var o := outBlock * BLOCK_OUT + j;
        var raw := RawDot(LoadRow(x.a, t, g), LoadRow(x.b, g, o), k * BLOCK_HIDDEN, BLOCK_HIDDEN);
        HoldsNext(x, accum[i, j], t, g, o, k);
        accum[i, j] := accum[i, j] + Term(raw, LoadScale(x.aScale, t, g, k), LoadScale(x.bScale, g, o / BLOCK_OUT, k));
      }
    }
  }

  /** One program of the launch grid: fills its tile of the output and nothing else. */
  method Program(x: Operands, out: array3<real>, tokens: nat, groups: nat, rank: nat, hidden: nat,
                 tokenBlock: nat, outBlock: nat, g: nat)
    requires WellShaped(x, tokens, groups, rank, hidden) && g < groups
    requires out.Length0 == tokens && out.Length1 == groups && out.Length2 == rank
    modifies out
    ensures forall t, o :: 0 <= t < tokens && 0 <= o < rank && InTile(t, o, tokenBlock, outBlock) ==>
              out[t, g, o] == Value(x, t, g, o)
    ensures forall t, g', o ::
              && 0 <= t < tokens && 0 <= g' < groups && 0 <= o < rank
              && !(g' == g && InTile(t, o, tokenBlock, outBlock)) ==>
                out[t, g', o] == old(out[t, g', o])
  {
    var accum := new real[BLOCK_TOKENS, BLOCK_OUT]((_, _) => 0.0);
    var n := Blocks(hidden, BLOCK_HIDDEN);
    for k := 0 to n
      modifies accum
      invariant forall i, j :: 0 <= i < BLOCK_TOKENS && 0 <= j < BLOCK_OUT ==>
                  Holds(x, accum[i, j], tokenBlock * BLOCK_TOKENS + i, g, outBlock * BLOCK_OUT + j, k)
    {
      AddBlock(x, accum, tokenBlock, outBlock, g, k);
    }
    forall t, o | 0 <= t < tokens && 0 <= o < rank && InTile(t, o, tokenBlock, outBlock)
      ensures accum[t - tokenBlock * BLOCK_TOKENS, o - outBlock * BLOCK_OUT] == Value(x, t, g, o)
    {
      CellIsValue(x, accum[t - tokenBlock * BLOCK_TOKENS, o - outBlock * BLOCK_OUT], tokens, groups, rank, hidden, t,
          g, o);
    }
    forall t, o | 0 <= t < tokens && 0 <= o < rank && InTile(t, o, tokenBlock, outBlock) {
      out[t, g, o] := accum[t - tokenBlock * BLOCK_TOKENS, o - outBlock * BLOCK_OUT];
    }
  }

  lemma CellIsValue(x: Operands, v: real, tokens: nat, groups: nat, rank: nat, hidden: nat, t: nat, g: nat, o: nat)
    requires WellShaped(x, tokens, groups, rank, hidden) && t < tokens && g < groups && o < rank
    requires Holds(x, v, t, g, o, Blocks(hidden, BLOCK_HIDDEN))
    ensures o / BLOCK_OUT < Blocks(rank, BLOCK_OUT)
    ensures v == Value(x, t, g, o)
  {
    assert o / BLOCK_OUT < Blocks(rank, BLOCK_OUT);
    AccumulatedIsDequantised(x.a[t][g], x.aScale[t][g], x.b[g][o], x.bScale[g][o / BLOCK_OUT],
        Blocks(hidden, BLOCK_HIDDEN));
  }

  // ---- The launch ----

  /**
    Done: every output of groups before g, and in group g every output row block before outBlock or token block
    before tokenBlock.
   */
  predicate Visited(t: nat, g': nat, o: nat, g: nat, outBlock: nat, tokenBlock: nat) {
    g' < g || (g' == g && (o / BLOCK_OUT < outBlock || (o / BLOCK_OUT == outBlock && t / BLOCK_TOKENS < tokenBlock)))
  }

  /** The kernel over its whole grid equals dequantise-then-multiply at every output. */
  method Launch(x: Operands, out: array3<real>, tokens: nat, groups: nat, rank: nat, hidden: nat)
    requires WellShaped(x, tokens, groups, rank, hidden)
    requires out.Length0 == tokens && out.Length1 == groups && out.Length2 == rank
    modifies out
    ensures forall t, g, o :: 0 <= t < tokens && 0 <= g < groups && 0 <= o < rank ==> out[t, g, o] == Value(x, t, g, o)
  {
    hide Value, Blocks;
    var tokenBlocks, outBlocks := Blocks(tokens, BLOCK_TOKENS), Blocks(rank, BLOCK_OUT);
    BlocksCover(tokens, BLOCK_TOKENS);
    BlocksCover(rank, BLOCK_OUT);
    for g := 0 to groups
      invariant forall t, g', o :: 0 <= t < tokens && 0 <= g' < g && 0 <= o < rank ==>
                  out[t, g', o] == Value(x, t, g', o)
    {
      for outBlock := 0 to outBlocks
        invariant forall t, g', o ::
                    0 <= t < tokens && 0 <= g' < groups && 0 <= o < rank && Visited(t, g', o, g, outBlock, 0) ==>
                      out[t, g', o] == Value(x, t, g', o)
      {
        for tokenBlock := 0 to tokenBlocks
          invariant forall t, g', o ::
                      && 0 <= t < tokens && 0 <= g' < groups && 0 <= o < rank
                      && Visited(t, g', o, g, outBlock, tokenBlock) ==>
                        out[t, g', o] == Value(x, t, g', o)
        {
          Program(x, out, tokens, groups, rank, hidden, tokenBlock, outBlock, g);
        }
      }
    }
  }

  lemma BlocksCover(n: nat, size: nat)
    requires size > 0
    ensures forall i :: 0 <= i < n ==> i / size < Blocks(n, size)
  {
    forall i | 0 <= i < n
      ensures i / size < Blocks(n, size)
    {
      var k := Blocks(n, size);
      assert k * size + (n + size - 1) % size == n + size - 1;
      QuotientBelow(i, size, k);
    }
  }

  // ---- Weights of all ranks, narrowed to the groups of one rank ----

  datatype EinsumError =
    | RowsNotDivisible
    | NoWeightGroups
    | GroupsMismatch
    | ScaleRowsNotDivisible
    | ScaleGroupsMismatch
    | ViewMismatch
    | ShapeAssertion

  datatype Matrix = Matrix(rows: seq<Row>, width: nat)

  predicate IsMatrix(m: Matrix) {
    forall i :: 0 <= i < |m.rows| ==> |m.rows[i]| == m.width
  }

  datatype Scales = Flat(matrix: Matrix) | Grouped(groups: seq<seq<Row>>)

  datatype Narrowed = Narrowed(b: seq<seq<Row>>, bScale: seq<seq<Row>>)

  /** m.view(n, rank, width) */
  function View(rows: seq<Row>, n: nat, rank: nat): (r: seq<seq<Row>>)
    requires |rows| == n * rank
    ensures |r| == n && forall g :: 0 <= g < n ==> |r[g]| == rank
  {
    seq(n, g requires 0 <= g < n => GroupFits(rows, n, rank, g); Group(rows, rank, g))
  }

  predicate HasGroup(rows: seq<Row>, rank: nat, g: nat) {
    g * rank + rank <= |rows|
  }

  /** Rows of group g: g * rank up to (g + 1) * rank. */
  function Group(rows: seq<Row>, rank: nat, g: nat): (r: seq<Row>)
    requires HasGroup(rows, rank, g)
    ensures |r| == rank
  {
    rows[g * rank..g * rank + rank]
  }

  lemma GroupFits(rows: seq<Row>, n: nat, rank: nat, g: nat)
    requires |rows| == n * rank && g < n
    ensures HasGroup(rows, rank, g)
  {
    MultiplyMonotone(g + 1, n, rank);
    assert (g + 1) * rank == g * rank + rank;
  }

  /** First weight group of a tensor-parallel rank. */
  function GroupStart(bGroups: nat, groups: nat, tpRank: nat): (start: nat)
    requires groups > 0 && bGroups > 0 && bGroups % groups == 0
    ensures start + groups <= bGroups
  {
    var parts := bGroups / groups;
    assert parts * groups == bGroups;
    MultiplyMonotone(tpRank % parts + 1, parts, groups);
    (tpRank % parts) * groups
  }

  /** First global group of a rank, for weights that divide into groups. */
  function FirstGroup(w: Matrix, groups: nat, rank: nat, tpRank: nat): nat
    requires groups > 0 && rank > 0
  {
    var bGroups := |w.rows| / rank;
    if bGroups > 0 && bGroups % groups == 0 then GroupStart(bGroups, groups, tpRank) else 0
  }

  /** The weights of a rank: view the rows as groups, then narrow to the groups of the rank. */
  function NarrowWeights(w: Matrix, groups: nat, rank: nat, hidden: nat, tpRank: nat)
        : (r: Result<seq<seq<Row>>, EinsumError>)
    requires groups > 0 && rank > 0
    ensures r.Success? ==> FirstGroup(w, groups, rank, tpRank) + groups <= |w.rows| / rank
  {
    if |w.rows| % rank != 0 then Failure(RowsNotDivisible)
    else
      var bGroups := |w.rows| / rank;
      assert bGroups * rank == |w.rows|;
      if bGroups % groups != 0 then Failure(GroupsMismatch)
      else if bGroups == 0 then Failure(NoWeightGroups)
      else if w.width != hidden then Failure(ViewMismatch)
      else
        var start := FirstGroup(w, groups, rank, tpRank);
        Success(View(w.rows, bGroups, rank)[start..start + groups])
  }

  /** Flat scales viewed as groups, and narrowed like the weights when they cover all weight groups. */
  function NarrowScales(w: Matrix, m: Matrix, groups: nat, rank: nat, hidden: nat, tpRank: nat, scaleMn: nat,
                        scaleK: nat)
      : Result<seq<seq<Row>>, EinsumError>
    requires groups > 0 && rank > 0 && scaleMn > 0 && scaleK > 0
    requires FirstGroup(w, groups, rank, tpRank) + groups <= |w.rows| / rank
  {
    var outBlocks := Blocks(rank, scaleMn);
    BlocksCover(rank, scaleMn);
    assert 0 / scaleMn < outBlocks;
    if |m.rows| % outBlocks != 0 then Failure(ScaleRowsNotDivisible)
    else
      var scaleGroups, bGroups := |m.rows| / outBlocks, |w.rows| / rank;
      assert scaleGroups * outBlocks == |m.rows|;
      if scaleGroups != groups && scaleGroups != bGroups then Failure(ScaleGroupsMismatch)
      else if m.width != Blocks(hidden, scaleK) then Failure(ViewMismatch)
      else
        var t, start := View(m.rows, scaleGroups, outBlocks), FirstGroup(w, groups, rank, tpRank);
        Success(if scaleGroups == bGroups then t[start..start + groups] else t)
  }

  /** The views and narrowings before either kernel is called; s.width counts packed scale columns. */
  function NarrowForRank(w: Matrix, s: Scales, groups: nat, rank: nat, hidden: nat, tpRank: nat, scaleMn: nat,
                         scaleK: nat)
      : Result<Narrowed, EinsumError>
    requires groups > 0 && rank > 0 && scaleMn > 0 && scaleK > 0
  {
    var weights := NarrowWeights(w, groups, rank, hidden, tpRank);
    if weights.Failure? then Failure(weights.error)
    else
      var b := weights.value;
      var bGroups, start := |w.rows| / rank, FirstGroup(w, groups, rank, tpRank);
      match s
      case Grouped(t) => Success(Narrowed(b, if |t| == bGroups then t[start..start + groups] else t))
      case Flat(m) =>
        var scales := NarrowScales(w, m, groups, rank, hidden, tpRank, scaleMn, scaleK);
        if scales.Failure? then Failure(scales.error) else Success(Narrowed(b, scales.value))
  }

  /** The weight rows are those of parts ranks, and the scale rows those of one rank or of all of them. */
  predicate Divides(weightRows: nat, scaleRows: nat, groups: nat, rank: nat, blocks: nat, parts: nat) {
    && parts > 0
    && weightRows == parts * groups * rank
    && (scaleRows == groups * blocks || scaleRows == parts * groups * blocks)
  }

  lemma QuotientsDivide(weightRows: nat, scaleRows: nat, groups: nat, rank: nat, blocks: nat)
    requires groups > 0 && rank > 0 && blocks > 0
    requires weightRows % rank == 0 && (weightRows / rank) % groups == 0 && weightRows / rank > 0
             && scaleRows % blocks == 0
    requires scaleRows / blocks == groups || scaleRows / blocks == weightRows / rank
    ensures Divides(weightRows, scaleRows, groups, rank, blocks, weightRows / rank / groups)
  {
    var bGroups := weightRows / rank;
    assert bGroups == bGroups / groups * groups;
    assert weightRows == bGroups * rank;
    assert scaleRows == (scaleRows / blocks) * blocks;
  }

  lemma DividesQuotients(weightRows: nat, scaleRows: nat, groups: nat, rank: nat, blocks: nat, parts: nat)
    requires groups > 0 && rank > 0 && blocks > 0 && Divides(weightRows, scaleRows, groups, rank, blocks, parts)
    ensures weightRows % rank == 0 && (weightRows / rank) % groups == 0 && weightRows / rank > 0
            && scaleRows % blocks == 0
    ensures scaleRows / blocks == groups || scaleRows / blocks == weightRows / rank
  {
    var bGroups := parts * groups;
    MultiplyMonotone(1, parts, groups);
    DivMod(weightRows, rank, bGroups, 0);
    DivMod(bGroups, groups, parts, 0);
    if scaleRows == groups * blocks {
      DivMod(scaleRows, blocks, groups, 0);
    } else {
      DivMod(scaleRows, blocks, bGroups, 0);
    }
  }

  /** With flat scales the narrowing succeeds exactly when the shapes divide and the columns match. */
  lemma NarrowSucceedsIff(w: Matrix, m: Matrix, groups: nat, rank: nat, hidden: nat, tpRank: nat, scaleMn: nat,
                          scaleK: nat)
    requires groups > 0 && rank > 0 && scaleMn > 0 && scaleK > 0
    ensures NarrowForRank(w, Flat(m), groups, rank, hidden, tpRank, scaleMn, scaleK).Success? <==>
              && w.width == hidden && m.width == Blocks(hidden, scaleK)
              && exists parts: nat :: Divides(|w.rows|, |m.rows|, groups, rank, Blocks(rank, scaleMn), parts)
  {
    BlocksCover(rank, scaleMn);
    var blocks := Blocks(rank, scaleMn);
    assert 0 / scaleMn < blocks;
    hide Blocks;
    if NarrowForRank(w, Flat(m), groups, rank, hidden, tpRank, scaleMn, scaleK).Success? {
      hide Divides;
      QuotientsDivide(|w.rows|, |m.rows|, groups, rank, blocks);
    }
    if parts: nat :| Divides(|w.rows|, |m.rows|, groups, rank, blocks, parts) {
      hide Divides;
      DividesQuotients(|w.rows|, |m.rows|, groups, rank, blocks, parts);
    }
  }

  /** There is one scale row for every block of 'size' rows of every weight group. */
  predicate HasAllScales(w: Matrix, m: Matrix, rank: nat, size: nat)
    requires rank > 0 && size > 0
  {
    |m.rows| == |w.rows| / rank * Blocks(rank, size)
  }

  /** Local group g is global group FirstGroup + g, and so are its scales when all groups have scales. */
  lemma NarrowedRows(w: Matrix, m: Matrix, groups: nat, rank: nat, hidden: nat, tpRank: nat, scaleMn: nat,
                     scaleK: nat, g: nat)
    requires groups > 0 && rank > 0 && scaleMn > 0 && scaleK > 0 && g < groups
    requires NarrowForRank(w, Flat(m), groups, rank, hidden, tpRank, scaleMn, scaleK).Success?
    ensures w.width == hidden && m.width == Blocks(hidden, scaleK)
    ensures var n := NarrowForRank(w, Flat(m), groups, rank, hidden, tpRank, scaleMn, scaleK).value;
            var q, blocks := FirstGroup(w, groups, rank, tpRank) + g, Blocks(rank, scaleMn);
            && |n.b| == groups && |n.bScale| == groups
            && HasGroup(w.rows, rank, q) && n.b[g] == Group(w.rows, rank, q)
            && var source := if HasAllScales(w, m, rank, scaleMn) then q else g;
            HasGroup(m.rows, blocks, source) && n.bScale[g] == Group(m.rows, blocks, source)
  {
    NarrowedWeights(w, groups, rank, hidden, tpRank, g);
    hide Group, HasGroup, Blocks, HasAllScales, FirstGroup;
    assert NarrowWeights(w, groups, rank, hidden, tpRank).Success?;
    assert NarrowScales(w, m, groups, rank, hidden, tpRank, scaleMn, scaleK).Success?;
    NarrowedScales(w, m, groups, rank, hidden, tpRank, scaleMn, scaleK, g);
  }

  lemma NarrowedScales(w: Matrix, m: Matrix, groups: nat, rank: nat, hidden: nat, tpRank: nat, scaleMn: nat,
                       scaleK: nat, g: nat)
    requires groups > 0 && rank > 0 && scaleMn > 0 && scaleK > 0 && g < groups
    requires FirstGroup(w, groups, rank, tpRank) + groups <= |w.rows| / rank
    requires NarrowScales(w, m, groups, rank, hidden, tpRank, scaleMn, scaleK).Success?
    ensures var t, blocks :=
            NarrowScales(w, m, groups, rank, hidden, tpRank, scaleMn, scaleK).value, Blocks(rank, scaleMn);
            var source := if HasAllScales(w, m, rank, scaleMn) then FirstGroup(w, groups, rank, tpRank) + g else g;
            |t| == groups && HasGroup(m.rows, blocks, source) && t[g] == Group(m.rows, blocks, source)
  {
    BlocksCover(rank, scaleMn);
    var blocks, bGroups, start := Blocks(rank, scaleMn), |w.rows| / rank, FirstGroup(w, groups, rank, tpRank);
    assert 0 / scaleMn < blocks;
    var scaleGroups := |m.rows| / blocks;
    assert scaleGroups * blocks == |m.rows|;
    if |m.rows| == bGroups * blocks {
      DivMod(|m.rows|, blocks, bGroups, 0);
    }
    hide Group, HasGroup, Blocks, FirstGroup;
    GroupFits(m.rows, scaleGroups, blocks, if scaleGroups == bGroups then start + g else g);
    if scaleGroups == bGroups {
      ViewedGroup(m.rows, scaleGroups, blocks, start, groups, g);
    }
  }

  lemma NarrowedWeights(w: Matrix, groups: nat, rank: nat, hidden: nat, tpRank: nat, g: nat)
    requires groups > 0 && rank > 0 && g < groups && NarrowWeights(w, groups, rank, hidden, tpRank).Success?
    ensures var q := FirstGroup(w, groups, rank, tpRank) + g;
            var b := NarrowWeights(w, groups, rank, hidden, tpRank).value;
            |b| == groups && HasGroup(w.rows, rank, q) && b[g] == Group(w.rows, rank, q)
  {
    var bGroups, start := |w.rows| / rank, FirstGroup(w, groups, rank, tpRank);
    hide FirstGroup;
    assert bGroups * rank == |w.rows|;
    GroupFits(w.rows, bGroups, rank, start + g);
    ViewedGroup(w.rows, bGroups, rank, start, groups, g);
  }

  /** Three-dimensional scales of all weight groups are narrowed with the weights; others pass unchanged. */
  lemma NarrowedGroups(w: Matrix, t: seq<seq<Row>>, groups: nat, rank: nat, hidden: nat, tpRank: nat, scaleMn: nat,
                       scaleK: nat, g: nat)
    requires groups > 0 && rank > 0 && scaleMn > 0 && scaleK > 0 && g < groups
    requires NarrowForRank(w, Grouped(t), groups, rank, hidden, tpRank, scaleMn, scaleK).Success?
    ensures var n := NarrowForRank(w, Grouped(t), groups, rank, hidden, tpRank, scaleMn, scaleK).value;
            var q := FirstGroup(w, groups, rank, tpRank) + g;
            && |n.b| == groups && HasGroup(w.rows, rank, q) && n.b[g] == Group(w.rows, rank, q)
            && if |t| == |w.rows| / rank then |n.bScale| == groups && q < |t| && n.bScale[g] == t[q] else n.bScale == t
  {
    NarrowedWeights(w, groups, rank, hidden, tpRank, g);
  }

  lemma ViewedGroup(rows: seq<Row>, n: nat, rank: nat, start: nat, groups: nat, g: nat)
    requires |rows| == n * rank && start + groups <= n && g < groups && HasGroup(rows, rank, start + g)
    ensures |View(rows, n, rank)[start..start + groups]| == groups
    ensures View(rows, n, rank)[start..start + groups][g] == Group(rows, rank, start + g)
  {
    hide Group, HasGroup;
  }

  /** Over the ranks, every weight group is used by exactly the ranks congruent to its block of groups. */
  lemma GroupsPartition(bGroups: nat, groups: nat, tpRank: nat, q: nat)
    requires groups > 0 && bGroups > 0 && bGroups % groups == 0 && q < bGroups
    ensures var start := GroupStart(bGroups, groups, tpRank);
            var parts := bGroups / groups;
            parts > 0 && q / groups < parts && (start <= q < start + groups <==> tpRank % parts == q / groups)
  {
    var start, parts := GroupStart(bGroups, groups, tpRank), bGroups / groups;
    assert parts * groups == bGroups;
    QuotientBelow(q, groups, parts);
    if start <= q < start + groups {
      DivMod(q, groups, tpRank % parts, q - start);
    }
    assert q == (q / groups) * groups + q % groups;
  }

  /** The scale row read for output row o of a group is the one of its own 128-row block of the whole matrix. */
  lemma ScaleOfOwnBlock(q: nat, rank: nat, o: nat, size: nat)
    requires size > 0 && rank % size == 0 && o < rank
    ensures q * Blocks(rank, size) + o / size == (q * rank + o) / size
  {
    var k := rank / size;
    assert rank == k * size;
    DivMod(rank + size - 1, size, k, size - 1);
    var b, r := o / size, o % size;
    assert q * rank == q * k * size;
    assert q * rank + o == size * (q * k + b) + r;
    DivMod(q * rank + o, size, q * k + b, r);
  }

  /**
    Whenever the narrowing succeeds, a rank starts at its own block of groups: row o of local group g is row
    ((tpRank % parts) * groups + g) * rank + o of the weights.
   */
  lemma NarrowedOwner(w: Matrix, s: Scales, groups: nat, rank: nat, hidden: nat, tpRank: nat, scaleMn: nat,
                      scaleK: nat, g: nat, o: nat)
    requires groups > 0 && rank > 0 && scaleMn > 0 && scaleK > 0 && g < groups && o < rank
    requires NarrowForRank(w, s, groups, rank, hidden, tpRank, scaleMn, scaleK).Success?
    ensures |w.rows| / rank / groups > 0
    ensures var n := NarrowForRank(w, s, groups, rank, hidden, tpRank, scaleMn, scaleK).value;
            var q := (tpRank % (|w.rows| / rank / groups)) * groups + g;
            |n.b| == groups && |n.b[g]| == rank && q * rank + o < |w.rows| && n.b[g][o] == w.rows[q * rank + o]
  {
    assert NarrowWeights(w, groups, rank, hidden, tpRank).Success?;
    NarrowedWeights(w, groups, rank, hidden, tpRank, g);
    FirstGroupIs(w, groups, rank, hidden, tpRank);
    RowOfGroup(w.rows, rank, FirstGroup(w, groups, rank, tpRank) + g, o);
  }

  lemma FirstGroupIs(w: Matrix, groups: nat, rank: nat, hidden: nat, tpRank: nat)
    requires groups > 0 && rank > 0 && NarrowWeights(w, groups, rank, hidden, tpRank).Success?
    ensures |w.rows| / rank / groups > 0
    ensures FirstGroup(w, groups, rank, tpRank) == (tpRank % (|w.rows| / rank / groups)) * groups
  {
    var bGroups := |w.rows| / rank;
    assert bGroups == bGroups / groups * groups;
  }

  // ---- The whole call ----

  /** Entry (t, g, o) of the unsharded einsum, for global group q. */
  function Unsharded(a: seq<seq<Row>>, aScale: seq<seq<Row>>, w: Matrix, m: Matrix, rank: nat, hidden: nat, t: nat,
                     g: nat, q: nat, o: nat): real
    requires t < |a| && t < |aScale| && g < |a[t]| && g < |aScale[t]|
    requires |a[t][g]| == hidden && |aScale[t][g]| == Blocks(hidden, BLOCK_HIDDEN)
    requires IsMatrix(w) && IsMatrix(m) && w.width == hidden && m.width == Blocks(hidden, BLOCK_HIDDEN)
    requires q * rank + o < |w.rows| && (q * rank + o) / BLOCK_OUT < |m.rows|
  {
    var row := q * rank + o;
    Dot(Dequantise(a[t][g], aScale[t][g]), Dequantise(w.rows[row], m.rows[row / BLOCK_OUT]), hidden)
  }

  predicate HasScaleRow(w: Matrix, m: Matrix, rank: nat, q: nat, o: nat) {
    q * rank + o < |w.rows| && (q * rank + o) / BLOCK_OUT < |m.rows|
  }

  lemma RowOfGroup(rows: seq<Row>, rank: nat, q: nat, o: nat)
    requires HasGroup(rows, rank, q) && o < rank
    ensures q * rank + o < |rows| && Group(rows, rank, q)[o] == rows[q * rank + o]
  {
  }

  /** The narrowed operands have the shapes the kernel asserts and reads. */
  lemma NarrowedShape(w: Matrix, m: Matrix, groups: nat, rank: nat, hidden: nat, tpRank: nat)
    requires groups > 0 && rank > 0 && IsMatrix(w) && IsMatrix(m)
    requires NarrowForRank(w, Flat(m), groups, rank, hidden, tpRank, BLOCK_OUT, BLOCK_HIDDEN).Success?
    ensures var n := NarrowForRank(w, Flat(m), groups, rank, hidden, tpRank, BLOCK_OUT, BLOCK_HIDDEN).value;
            && Shaped(n.b, groups, rank, hidden)
            && Shaped(n.bScale, groups, Blocks(rank, BLOCK_OUT), Blocks(hidden, BLOCK_HIDDEN))
  {
    NarrowedRows(w, m, groups, rank, hidden, tpRank, BLOCK_OUT, BLOCK_HIDDEN, 0);
    var n := NarrowForRank(w, Flat(m), groups, rank, hidden, tpRank, BLOCK_OUT, BLOCK_HIDDEN).value;
    var blocks := Blocks(rank, BLOCK_OUT);
    hide NarrowForRank, Blocks, FirstGroup;
    forall g | 0 <= g < groups
      ensures |n.b[g]| == rank && |n.bScale[g]| == blocks
      ensures forall j :: 0 <= j < rank ==> |n.b[g][j]| == hidden
      ensures forall j :: 0 <= j < blocks ==> |n.bScale[g][j]| == Blocks(hidden, BLOCK_HIDDEN)
    {
      NarrowedRows(w, m, groups, rank, hidden, tpRank, BLOCK_OUT, BLOCK_HIDDEN, g);
      var q := FirstGroup(w, groups, rank, tpRank) + g;
      WidthOfGroup(w, rank, q);
      WidthOfGroup(m, blocks, if HasAllScales(w, m, rank, BLOCK_OUT) then q else g);
    }
  }

  lemma WidthOfGroup(m: Matrix, rank: nat, q: nat)
    requires IsMatrix(m) && HasGroup(m.rows, rank, q)
    ensures forall j :: 0 <= j < rank ==> |Group(m.rows, rank, q)[j]| == m.width
  {
  }

  /** Local row (g, o) and its scales are those of row o of global group q. */
  predicate Paired(n: Narrowed, w: Matrix, m: Matrix, rank: nat, g: nat, q: nat, o: nat) {
    && HasScaleRow(w, m, rank, q, o)
    && g < |n.b| && o < |n.b[g]| && n.b[g][o] == w.rows[q * rank + o]
    && g < |n.bScale| && o / BLOCK_OUT < |n.bScale[g]|
       && n.bScale[g][o / BLOCK_OUT] == m.rows[(q * rank + o) / BLOCK_OUT]
  }

  /** Each narrowed weight row is paired with the scale row of its own block of the unsharded scales. */
  lemma NarrowedPair(w: Matrix, m: Matrix, groups: nat, rank: nat, hidden: nat, tpRank: nat, g: nat, o: nat)
    requires groups > 0 && rank > 0 && rank % BLOCK_OUT == 0 && g < groups && o < rank
    requires NarrowForRank(w, Flat(m), groups, rank, hidden, tpRank, BLOCK_OUT, BLOCK_HIDDEN).Success?
    requires HasAllScales(w, m, rank, BLOCK_OUT)
    ensures Paired(NarrowForRank(w, Flat(m), groups, rank, hidden, tpRank, BLOCK_OUT, BLOCK_HIDDEN).value, w, m, rank,
                   g, FirstGroup(w, groups, rank, tpRank) + g, o)
  {
    NarrowedRows(w, m, groups, rank, hidden, tpRank, BLOCK_OUT, BLOCK_HIDDEN, g);
    hide NarrowForRank, HasAllScales, FirstGroup;
    var blocks := Blocks(rank, BLOCK_OUT);
    var q := FirstGroup(w, groups, rank, tpRank) + g;
    ScaleOfOwnBlock(q, rank, o, BLOCK_OUT);
    BlocksCover(rank, BLOCK_OUT);
    hide Group, Blocks, HasGroup;
    RowOfGroup(w.rows, rank, q, o);
    RowOfGroup(m.rows, blocks, q, o / BLOCK_OUT);
  }

  /** A shard computes the unsharded einsum for the groups it owns. */
  lemma ShardIsUnsharded(a: seq<seq<Row>>, aScale: seq<seq<Row>>, w: Matrix, m: Matrix, groups: nat, rank: nat,
                         hidden: nat,
                         tpRank: nat, t: nat, g: nat, o: nat)
    requires groups > 0 && rank > 0 && rank % BLOCK_OUT == 0 && IsMatrix(w) && IsMatrix(m) && g < groups && o < rank
    requires Shaped(a, |a|, groups, hidden) && Shaped(aScale, |a|, groups, Blocks(hidden, BLOCK_HIDDEN)) && t < |a|
    requires NarrowForRank(w, Flat(m), groups, rank, hidden, tpRank, BLOCK_OUT, BLOCK_HIDDEN).Success?
    requires HasAllScales(w, m, rank, BLOCK_OUT)
    ensures var n := NarrowForRank(w, Flat(m), groups, rank, hidden, tpRank, BLOCK_OUT, BLOCK_HIDDEN).value;
            var q := FirstGroup(w, groups, rank, tpRank) + g;
            && w.width == hidden && m.width == Blocks(hidden, BLOCK_HIDDEN)
            && WellShaped(Operands(a, aScale, n.b, n.bScale), |a|, groups, rank, hidden)
            && HasScaleRow(w, m, rank, q, o)
            && o / BLOCK_OUT < |n.bScale[g]|
            && Value(Operands(a, aScale, n.b, n.bScale), t, g, o)
               == Unsharded(a, aScale, w, m, rank, hidden, t, g, q, o)
  {
    assert w.width == hidden && m.width == Blocks(hidden, BLOCK_HIDDEN);
    hide NarrowForRank;
    NarrowedShape(w, m, groups, rank, hidden, tpRank);
    NarrowedPair(w, m, groups, rank, hidden, tpRank, g, o);
  }

  /** v is entry (t, g, o) of the shard: the unsharded entry of global group FirstGroup + g. */
  predicate IsShardEntry(v: real, a: seq<seq<Row>>, aScale: seq<seq<Row>>, w: Matrix, m: Matrix, groups: nat,
                         rank: nat, hidden: nat,
                         tpRank: nat, t: nat, g: nat, o: nat)
    requires groups > 0 && rank > 0 && IsMatrix(w) && IsMatrix(m) && t < |a| && g < groups
    requires Shaped(a, |a|, groups, hidden) && Shaped(aScale, |a|, groups, Blocks(hidden, BLOCK_HIDDEN))
  {
    var q := FirstGroup(w, groups, rank, tpRank) + g;
    && w.width == hidden && m.width == Blocks(hidden, BLOCK_HIDDEN)
    && HasScaleRow(w, m, rank, q, o)
    && v == Unsharded(a, aScale, w, m, rank, hidden, t, g, q, o)
  }

  /** v is entry (t, g, o) of dequantise-then-multiply on the narrowed operands, whoever's scales were passed. */
  predicate IsLocalEntry(v: real, a: seq<seq<Row>>, aScale: seq<seq<Row>>, w: Matrix, m: Matrix, groups: nat,
                         rank: nat, hidden: nat,
                         tpRank: nat, t: nat, g: nat, o: nat)
    requires groups > 0 && rank > 0
  {
    var narrowed := NarrowForRank(w, Flat(m), groups, rank, hidden, tpRank, BLOCK_OUT, BLOCK_HIDDEN);
    && narrowed.Success?
    && var x := Operands(a, aScale, narrowed.value.b, narrowed.value.bScale);
    WellShaped(x, |a|, groups, rank, hidden) && t < |a| && g < groups && o < rank && IsValue(v, x, t, g, o)
  }

  /** v is the inner product of row x, scaled by xs for each 128 columns, with row y, scaled by ys. */
  predicate IsScaledProduct(v: real, x: Row, xs: Row, y: Row, ys: Row) {
    && |x| == |y| && Blocks(|x|, 128) <= |xs| && Blocks(|x|, 128) <= |ys|
    && v == Dot(Dequantise(x, xs), Dequantise(y, ys), |x|)
  }

  /** For a row with a single 1 in column h the product is the one entry of y there, with both scales. */
  lemma UnitRowProduct(v: real, x: Row, xs: Row, y: Row, ys: Row, h: nat)
    requires IsScaledProduct(v, x, xs, y, ys) && IsUnit(x, h)
    ensures h / 128 < |xs| && h / 128 < |ys| && v == xs[h / 128] * (y[h] * ys[h / 128])
  {
    hide Dot, Blocks, Dequantise;
    DequantisedAt(x, xs, h);
    DequantisedAt(y, ys, h);
    var dx, dy, scale := Dequantise(x, xs), Dequantise(y, ys), xs[h / 128];
    assert dx == Scaled(scale, x) by {
      forall i | 0 <= i < |x|
        ensures dx[i] == Scaled(scale, x)[i]
      {
        DequantisedAt(x, xs, i);
        UnitScale(x[i], xs[i / 128], scale, i == h);
      }
    }
    DotScales(dy, scale, x, |x|);
    DotUnit(dy, x, h, |x|);
  }

  lemma UnitScale(x: real, s: real, scale: real, here: bool)
    requires x == (if here then 1.0 else 0.0) && (here ==> s == scale)
    ensures x * s == scale * x
  {
  }

  /**
    Entry (t, g, o) of tensor-parallel rank tpRank, from the whole weights: global group q is number g of the
    rank's own block of groups, its weight row is q * rank + o, and the scale row is that of the row's 128-row
    block, in scales of all groups or in scales of the rank's groups only.
   */
  predicate IsRankEntry(v: real, a: seq<seq<Row>>, aScale: seq<seq<Row>>, w: Matrix, m: Matrix, groups: nat,
                        rank: nat, tpRank: nat, t: nat, g: nat, o: nat) {
    && t < |a| && t < |aScale| && g < |a[t]| && g < |aScale[t]|
    && groups > 0 && rank > 0 && |w.rows| / rank / groups > 0
    && var q := (tpRank % (|w.rows| / rank / groups)) * groups + g;
    var scaleRow := if |m.rows| == |w.rows| / rank * (rank / 128) then (q * rank + o) / 128
                    else g * (rank / 128) + o / 128;
    && q * rank + o < |w.rows| && scaleRow < |m.rows|
    && IsScaledProduct(v, a[t][g], aScale[t][g], w.rows[q * rank + o], m.rows[scaleRow])
  }

  lemma RankEntry(v: real, a: seq<seq<Row>>, aScale: seq<seq<Row>>, w: Matrix, m: Matrix, groups: nat, rank: nat,
                  hidden: nat, tpRank: nat, t: nat, g: nat, o: nat)
    requires groups > 0 && rank > 0 && rank % 128 == 0 && t < |a| && g < groups && o < rank
    requires IsLocalEntry(v, a, aScale, w, m, groups, rank, hidden, tpRank, t, g, o)
    ensures IsRankEntry(v, a, aScale, w, m, groups, rank, tpRank, t, g, o)
  {
    hide Dot, Dequantise, Shaped, HasAllScales;
    var n := NarrowForRank(w, Flat(m), groups, rank, hidden, tpRank, 128, 128).value;
    NarrowedOwner(w, Flat(m), groups, rank, hidden, tpRank, 128, 128, g, o);
    NarrowedScaleRow(w, m, groups, rank, hidden, tpRank, g, o);
  }

  lemma NarrowedScaleRow(w: Matrix, m: Matrix, groups: nat, rank: nat, hidden: nat, tpRank: nat, g: nat, o: nat)
    requires groups > 0 && rank > 0 && rank % 128 == 0 && g < groups && o < rank
    requires NarrowForRank(w, Flat(m), groups, rank, hidden, tpRank, 128, 128).Success?
    ensures |w.rows| / rank / groups > 0
    ensures var n := NarrowForRank(w, Flat(m), groups, rank, hidden, tpRank, 128, 128).value;
            var q := (tpRank % (|w.rows| / rank / groups)) * groups + g;
            var scaleRow := if |m.rows| == |w.rows| / rank * (rank / 128) then (q * rank + o) / 128
                            else g * (rank / 128) + o / 128;
            && |n.bScale| == groups && o / 128 < |n.bScale[g]| && 0 <= scaleRow < |m.rows|
            && n.bScale[g][o / 128] == m.rows[scaleRow]
  {
    assert NarrowWeights(w, groups, rank, hidden, tpRank).Success?;
    FirstGroupIs(w, groups, rank, hidden, tpRank);
    NarrowedRows(w, m, groups, rank, hidden, tpRank, 128, 128, g);
    var q := FirstGroup(w, groups, rank, tpRank) + g;
    var source := if HasAllScales(w, m, rank, 128) then q else g;
    BlocksOfMultiple(rank);
    ScaleOfOwnBlock(q, rank, o, 128);
    RowOfGroup(m.rows, rank / 128, source, o / 128);
  }

  lemma BlocksOfMultiple(rank: nat)
    requires rank % 128 == 0
    ensures Blocks(rank, 128) == rank / 128
  {
  }

  predicate IsValue(v: real, x: Operands, t: nat, g: nat, o: nat) {
    && HasEntry(x, t, g, o)
    && v == Value(x, t, g, o)
  }

  lemma WellShapedHasEntry(x: Operands, tokens: nat, groups: nat, rank: nat, hidden: nat, t: nat, g: nat, o: nat)
    requires WellShaped(x, tokens, groups, rank, hidden) && t < tokens && g < groups && o < rank
    ensures HasEntry(x, t, g, o)
  {
    BlocksCover(rank, BLOCK_OUT);
  }

  /** The shapes the kernel wrapper asserts. */
  predicate LaunchAllowed(tokens: nat, aGroups: nat, hidden: nat, outTokens: nat, groups: nat, rank: nat) {
    aGroups == groups && outTokens == tokens && hidden % BLOCK_HIDDEN == 0 && rank % BLOCK_OUT == 0
  }

  lemma CallSucceedsIff(w: Matrix, m: Matrix, tokens: nat, aGroups: nat, hidden: nat, outTokens: nat, groups: nat,
                        rank: nat, tpRank: nat)
    requires groups > 0 && rank > 0
    ensures && NarrowForRank(w, Flat(m), groups, rank, hidden, tpRank, BLOCK_OUT, BLOCK_HIDDEN).Success?
            && LaunchAllowed(tokens, aGroups, hidden, outTokens, groups, rank)
            <==>
              && aGroups == groups && tokens == outTokens && hidden % 128 == 0 && rank % 128 == 0
              && w.width == hidden && m.width == hidden / 128
              && exists parts: nat :: Divides(|w.rows|, |m.rows|, groups, rank, rank / 128, parts)
  {
    hide NarrowForRank, Divides;
    NarrowSucceedsIff(w, m, groups, rank, hidden, tpRank, 128, 128);
    if rank % 128 == 0 {
      BlocksOfMultiple(rank);
    }
    if hidden % 128 == 0 {
      BlocksOfMultiple(hidden);
    }
  }

  lemma LocalEntry(v: real, a: seq<seq<Row>>, aScale: seq<seq<Row>>, w: Matrix, m: Matrix, groups: nat, rank: nat,
                   hidden: nat, tpRank: nat, t: nat, g: nat, o: nat)
    requires groups > 0 && rank > 0 && t < |a| && g < groups && o < rank
    requires NarrowForRank(w, Flat(m), groups, rank, hidden, tpRank, BLOCK_OUT, BLOCK_HIDDEN).Success?
    requires var n := NarrowForRank(w, Flat(m), groups, rank, hidden, tpRank, BLOCK_OUT, BLOCK_HIDDEN).value;
             var x := Operands(a, aScale, n.b, n.bScale);
             WellShaped(x, |a|, groups, rank, hidden) && HasEntry(x, t, g, o) && v == Value(x, t, g, o)
    ensures IsLocalEntry(v, a, aScale, w, m, groups, rank, hidden, tpRank, t, g, o)
  {
    hide NarrowForRank, Value;
  }

  lemma ShardEntry(v: real, a: seq<seq<Row>>, aScale: seq<seq<Row>>, w: Matrix, m: Matrix, groups: nat, rank: nat,
                   hidden: nat, tpRank: nat, t: nat, g: nat, o: nat)
    requires groups > 0 && rank > 0 && rank % BLOCK_OUT == 0 && IsMatrix(w) && IsMatrix(m) && t < |a| && g < groups
    requires Shaped(a, |a|, groups, hidden) && Shaped(aScale, |a|, groups, Blocks(hidden, BLOCK_HIDDEN)) && o < rank
    requires HasAllScales(w, m, rank, BLOCK_OUT)
    requires IsLocalEntry(v, a, aScale, w, m, groups, rank, hidden, tpRank, t, g, o)
    ensures IsShardEntry(v, a, aScale, w, m, groups, rank, hidden, tpRank, t, g, o)
  {
    hide NarrowForRank, FirstGroup, Blocks, Dot, Dequantise, HasAllScales, Unsharded;
    ShardIsUnsharded(a, aScale, w, m, groups, rank, hidden, tpRank, t, g, o);
  }

  /** The call with flat weights and scales on the route to this kernel, recipe (1, 128, 128). */
  method Einsum(a: seq<seq<Row>>, aScale: seq<seq<Row>>, aGroups: nat, hidden: nat, w: Matrix, m: Matrix,
                out: array3<real>, tpRank: nat)
      returns (error: Option<EinsumError>)
    requires out.Length1 > 0 && out.Length2 > 0 && IsMatrix(w) && IsMatrix(m)
    requires Shaped(a, |a|, aGroups, hidden) && Shaped(aScale, |a|, aGroups, Blocks(hidden, BLOCK_HIDDEN))
    modifies out
    ensures error.None? <==>
              && aGroups == out.Length1 && |a| == out.Length0 && hidden % 128 == 0 && out.Length2 % 128 == 0
              && w.width == hidden && m.width == hidden / 128
              && exists parts: nat :: Divides(|w.rows|, |m.rows|, out.Length1, out.Length2, out.Length2 / 128, parts)
    ensures error.None? ==>
              forall t, g, o :: 0 <= t < |a| && 0 <= g < out.Length1 && 0 <= o < out.Length2 && t < out.Length0 ==>
                IsRankEntry(out[t, g, o], a, aScale, w, m, out.Length1, out.Length2, tpRank, t, g, o)
    ensures var groups, rank := out.Length1, out.Length2;
            error.None? <==>
                && NarrowForRank(w, Flat(m), groups, rank, hidden, tpRank, BLOCK_OUT, BLOCK_HIDDEN).Success?
                             && LaunchAllowed(|a|, aGroups, hidden, out.Length0, groups, rank)
    ensures error.Some? ==>
              var n := NarrowForRank(w, Flat(m), out.Length1, out.Length2, hidden, tpRank, BLOCK_OUT, BLOCK_HIDDEN);
              error.value == if n.Failure? then n.error else ShapeAssertion
    ensures error.Some? ==> forall t, g, o :: 0 <= t < out.Length0 && 0 <= g < out.Length1 && 0 <= o < out.Length2 ==>
              out[t, g, o] == old(out[t, g, o])
    ensures error.None? ==>
              forall t, g, o :: 0 <= t < |a| && 0 <= g < out.Length1 && 0 <= o < out.Length2 && t < out.Length0 ==>
                IsLocalEntry(out[t, g, o], a, aScale, w, m, out.Length1, out.Length2, hidden, tpRank, t, g, o)
    ensures error.None? && HasAllScales(w, m, out.Length2, BLOCK_OUT) ==>
              aGroups == out.Length1 && out.Length0 == |a| &&
              forall t, g, o :: 0 <= t < |a| && 0 <= g < out.Length1 && 0 <= o < out.Length2 ==>
                IsShardEntry(out[t, g, o], a, aScale, w, m, out.Length1, out.Length2, hidden, tpRank, t, g, o)
  {
    var groups, rank := out.Length1, out.Length2;
    hide NarrowForRank, Blocks, HasAllScales, FirstGroup, Dot, Dequantise, HasScaleRow, Divides, IsRankEntry,
         IsLocalEntry, IsShardEntry;
    CallSucceedsIff(w, m, |a|, aGroups, hidden, out.Length0, groups, rank, tpRank);
    var narrowed := NarrowForRank(w, Flat(m), groups, rank, hidden, tpRank, BLOCK_OUT, BLOCK_HIDDEN);
    if narrowed.Failure? {
      return Some(narrowed.error);
    }
    if !LaunchAllowed(|a|, aGroups, hidden, out.Length0, groups, rank) {
      return Some(ShapeAssertion);
    }
    var n := narrowed.value;
    NarrowedShape(w, m, groups, rank, hidden, tpRank);
    var x := Operands(a, aScale, n.b, n.bScale);
    Launch(x, out, |a|, groups, rank, hidden);
    forall t, g, o | 0 <= t < |a| && 0 <= g < groups && 0 <= o < rank
      ensures IsLocalEntry(out[t, g, o], a, aScale, w, m, groups, rank, hidden, tpRank, t, g, o)
    {
      LocalEntry(out[t, g, o], a, aScale, w, m, groups, rank, hidden, tpRank, t, g, o);
    }
    forall t, g, o | 0 <= t < |a| && 0 <= g < groups && 0 <= o < rank
      ensures IsRankEntry(out[t, g, o], a, aScale, w, m, groups, rank, tpRank, t, g, o)
    {
      RankEntry(out[t, g, o], a, aScale, w, m, groups, rank, hidden, tpRank, t, g, o);
    }
    if HasAllScales(w, m, rank, BLOCK_OUT) {
      forall t, g, o | 0 <= t < |a| && 0 <= g < groups && 0 <= o < rank
        ensures IsShardEntry(out[t, g, o], a, aScale, w, m, groups, rank, hidden, tpRank, t, g, o)
      {
        ShardEntry(out[t, g, o], a, aScale, w, m, groups, rank, hidden, tpRank, t, g, o);
      }
    }
    return None;
  }
}
