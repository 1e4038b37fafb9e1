/**
  Preparing the target context of a step (prepare_context of dspark_proposer.py): trimming rejected
  rows, detecting ragged batches, and picking the draft anchor of every request.
 */
module ContextPreparation {
  import opened Wrappers
  import opened Division
  import opened DraftWindow
  import opened MainKvCache

  datatype ContextError = OffsetMismatch | NothingLeft(request: nat) | NonUniformTrim | NotDivisible | NoRows

  datatype Context<H> =
    | Rectangle(xs: seq<seq<H>>, positions: seq<seq<nat>>, lastXs: seq<H>, lastPositions: seq<nat>,
        mask: Option<seq<nat>>)
    | Ragged(flatXs: seq<H>, flatPositions: seq<nat>, starts: seq<nat>, lastXs: seq<H>, lastPositions: seq<nat>,
             mask: Option<seq<nat>>)

  datatype Flat<H> = Flat(xs: seq<H>, positions: seq<nat>)

  /** Row offsets of the batch as the attention metadata carries them; padding rows may follow the last one. */
  predicate RowOffsets(starts: seq<nat>, total: nat) {
    && |starts| >= 1 && starts[0] == 0 && starts[|starts| - 1] <= total
    && forall i, j :: 0 <= i <= j < |starts| ==> starts[i] <= starts[j]
  }

  function Lengths(starts: seq<nat>, batchSize: nat): (lengths: seq<nat>)
    requires |starts| == batchSize + 1 && forall i, j :: 0 <= i <= j < |starts| ==> starts[i] <= starts[j]
    ensures |lengths| == batchSize
    ensures forall b :: 0 <= b < batchSize ==> lengths[b] == starts[b + 1] - starts[b]
  {
    seq(batchSize, b requires 0 <= b < batchSize => starts[b + 1] - starts[b])
  }

  predicate AllEqual(lengths: seq<nat>) {
    forall i, j :: 0 <= i < |lengths| && 0 <= j < |lengths| ==> lengths[i] == lengths[j]
  }

  // ---- _trim_rejected_target_context ----

  predicate NeedsTrim(starts: Option<seq<nat>>, rejected: Option<seq<nat>>) {
    rejected.Some? && starts.Some? && exists b :: 0 <= b < |rejected.value| && rejected.value[b] != 0
  }

  function AcceptedLength(starts: seq<nat>, rejected: seq<nat>, b: nat): int
    requires b + 1 < |starts| && b < |rejected|
  {
    starts[b + 1] as int - rejected[b] - starts[b]
  }

  function AcceptedTotal(starts: seq<nat>, rejected: seq<nat>, n: nat): int
    requires n < |starts| && n <= |rejected|
  {
    if n == 0 then 0 else AcceptedTotal(starts, rejected, n - 1) + AcceptedLength(starts, rejected, n - 1)
  }

  /** The accepted rows of the first n requests, one after the other. */
  function AcceptedRows<X>(rows: seq<X>, starts: seq<nat>, rejected: seq<nat>, n: nat): (accepted: seq<X>)
    requires RowOffsets(starts, |rows|) && |starts| == |rejected| + 1 && n <= |rejected|
    requires forall b :: 0 <= b < n ==> AcceptedLength(starts, rejected, b) > 0
    ensures |accepted| == AcceptedTotal(starts, rejected, n)
  {
    if n == 0 then []
    else
      assert AcceptedLength(starts, rejected, n - 1) > 0;
      assert starts[n - 1] <= starts[n] <= starts[|starts| - 1];
      AcceptedRows(rows, starts, rejected, n - 1) + rows[starts[n - 1]..starts[n] - rejected[n - 1]]
  }

  lemma AcceptedNone<X>(rows: seq<X>, starts: seq<nat>, rejected: seq<nat>)
    requires RowOffsets(starts, |rows|) && |starts| == |rejected| + 1
    ensures AcceptedRows(rows, starts, rejected, 0) == []
  {
  }

  lemma AcceptedNext<X>(rows: seq<X>, starts: seq<nat>, rejected: seq<nat>, n: nat)
    requires RowOffsets(starts, |rows|) && |starts| == |rejected| + 1 && n < |rejected|
    requires forall b :: 0 <= b <= n ==> AcceptedLength(starts, rejected, b) > 0
    ensures starts[n] <= starts[n + 1] - rejected[n] <= |rows|
    ensures AcceptedRows(rows, starts, rejected, n + 1)
            == AcceptedRows(rows, starts, rejected, n) + rows[starts[n]..starts[n + 1] - rejected[n]]
  {
    assert AcceptedLength(starts, rejected, n) > 0;
    assert starts[n + 1] <= starts[|starts| - 1];
  }

  lemma UniformIs(starts: seq<nat>, rejected: seq<nat>)
    requires |starts| == |rejected| + 1
    ensures UniformAccepted(starts, rejected) <==>
              forall b :: 0 <= b < |rejected| ==>
                AcceptedLength(starts, rejected, b) > 0
                && AcceptedLength(starts, rejected, b) == AcceptedLength(starts, rejected, 0)
  {
  }

  /** The exception for offsets that match the batch: the first request left empty, else unequal lengths. */
  predicate IsTrimError(starts: seq<nat>, rejected: seq<nat>, error: ContextError)
    requires |starts| == |rejected| + 1
  {
    match error
    case NothingLeft(b) =>
      && b < |rejected| && AcceptedLength(starts, rejected, b) <= 0
      && forall i :: 0 <= i < b ==> AcceptedLength(starts, rejected, i) > 0
    case NonUniformTrim =>
      && (forall i :: 0 <= i < |rejected| ==> AcceptedLength(starts, rejected, i) > 0)
      && !UniformAccepted(starts, rejected)
    case _ => false
  }

  /** Request b keeps starts[b + 1] - starts[b] - rejected[b] rows. */
  predicate Keeps(starts: seq<nat>, rejected: seq<nat>, b: nat, n: int)
    requires |starts| == |rejected| + 1 && b < |rejected|
  {
    starts[b + 1] == starts[b] + rejected[b] + n
  }

  predicate KeepsRow(starts: seq<nat>, rejected: seq<nat>, b: nat)
    requires |starts| == |rejected| + 1 && b < |rejected|
  {
    starts[b] + rejected[b] < starts[b + 1]
  }

  /**
    What trimming does when something was rejected: offsets for another batch raise, then the first request that
    keeps no row, then requests that keep different numbers; otherwise each request keeps its first rows.
   */
  ghost predicate TrimsTo<H>(xs: seq<H>, positions: seq<nat>, starts: seq<nat>, rejected: seq<nat>,
                             r: Result<Flat<H>, ContextError>) {
    match r
    case Failure(OffsetMismatch) => |starts| != |rejected| + 1
    case Failure(NothingLeft(b)) =>
      && |starts| == |rejected| + 1 && b < |rejected| && !KeepsRow(starts, rejected, b)
      && forall i :: 0 <= i < b ==> KeepsRow(starts, rejected, i)
    case Failure(NonUniformTrim) =>
      && |starts| == |rejected| + 1
      && (forall i :: 0 <= i < |rejected| ==> KeepsRow(starts, rejected, i))
      && exists i, m, n ::
           0 <= i < |rejected| && m != n && Keeps(starts, rejected, 0, m) && Keeps(starts, rejected, i, n)
    case Failure(_) => false
    case Success(flat) =>
      && |starts| == |rejected| + 1 && rejected != [] && KeepsRow(starts, rejected, 0)
      && KeepsEqually(xs, positions, starts, rejected, flat, starts[1] - starts[0] - rejected[0])
  }

  predicate KeepsEqually<H(==)>(xs: seq<H>, positions: seq<nat>, starts: seq<nat>, rejected: seq<nat>, flat: Flat<H>,
                                len: nat)
    requires |starts| == |rejected| + 1
  {
    && (forall b :: 0 <= b < |rejected| ==> Keeps(starts, rejected, b, len))
    && |flat.xs| == |flat.positions| == |rejected| * len
    && forall b :: 0 <= b < |rejected| ==>
         KeptRows(xs, flat.xs, starts, len, b) && KeptRows(positions, flat.positions, starts, len, b)
  }

  /** The rows of request b among the kept ones are its first len rows. */
  predicate KeptRows<X(==)>(rows: seq<X>, kept: seq<X>, starts: seq<nat>, len: nat, b: nat)
    requires b < |starts|
  {
    && 0 <= b * len <= (b + 1) * len <= |kept| && starts[b] + len <= |rows|
    && kept[b * len..(b + 1) * len] == rows[starts[b]..starts[b] + len]
  }

  /** Every request keeps len rows, and some. */
  predicate AllAccept(starts: seq<nat>, rejected: seq<nat>, len: nat)
    requires |starts| == |rejected| + 1
  {
    len > 0 && forall i :: 0 <= i < |rejected| ==> AcceptedLength(starts, rejected, i) == len
  }

  /** Offset of request b when every request has len rows. */
  function Place(b: nat, len: nat): (p: nat) {
    b * len
  }

  lemma PlaceNext(b: nat, len: nat)
    ensures Place(b + 1, len) == Place(b, len) + len
  {
  }

  lemma {:induction false} TotalOfUniform(starts: seq<nat>, rejected: seq<nat>, len: nat, n: nat)
    requires n < |starts| && n <= |rejected|
    requires forall i :: 0 <= i < n ==> AcceptedLength(starts, rejected, i) == len
    ensures AcceptedTotal(starts, rejected, n) == Place(n, len)
  {
    hide Place;
    if n > 0 {
      TotalOfUniform(starts, rejected, len, n - 1);
      assert AcceptedLength(starts, rejected, n - 1) == len;
      PlaceNext(n - 1, len);
    } else {
      NoPlace(len);
    }
  }

  lemma NoPlace(len: nat)
    ensures Place(0, len) == 0
  {
  }

  /**
    The trimmed rows of uniform accepted lengths hold exactly the accepted part of every request, one after
    another.
   */
  lemma {:induction false} TrimmedRows<X>(rows: seq<X>, starts: seq<nat>, rejected: seq<nat>, len: nat, n: nat, b: nat)
    requires RowOffsets(starts, |rows|) && |starts| == |rejected| + 1 && b < n <= |rejected|
    requires AllAccept(starts, rejected, len)
    requires forall i :: 0 <= i < |rejected| ==> AcceptedLength(starts, rejected, i) > 0
    ensures |AcceptedRows(rows, starts, rejected, n)| == Place(n, len) && Place(b, len) + len <= Place(n, len)
    ensures starts[b + 1] == starts[b] + rejected[b] + len && starts[b] + len <= |rows|
    ensures AcceptedRows(rows, starts, rejected, n)[Place(b, len)..Place(b, len) + len]
            == rows[starts[b]..starts[b] + len]
    decreases n
  {
    hide Place, AcceptedRows, AcceptedTotal, RowOffsets;
    LengthIs(rows, starts, rejected, len, b);
    LengthIs(rows, starts, rejected, len, n - 1);
    AcceptedNext(rows, starts, rejected, n - 1);
    TotalOfUniform(starts, rejected, len, n);
    TotalOfUniform(starts, rejected, len, n - 1);
    PlaceNext(n - 1, len);
    var whole, before := AcceptedRows(rows, starts, rejected, n), AcceptedRows(rows, starts, rejected, n - 1);
    var p := Place(b, len);
    if b < n - 1 {
      TrimmedRows(rows, starts, rejected, len, n - 1, b);
      assert whole[p..p + len] == before[p..p + len];
    } else {
      assert whole[p..p + len] == rows[starts[b]..starts[b] + len];
    }
  }

  lemma LengthIs<X>(rows: seq<X>, starts: seq<nat>, rejected: seq<nat>, len: nat, b: nat)
    requires RowOffsets(starts, |rows|) && |starts| == |rejected| + 1 && b < |rejected|
    requires AcceptedLength(starts, rejected, b) == len
    ensures starts[b + 1] == starts[b] + rejected[b] + len && starts[b] + len <= |rows|
  {
    assert starts[b + 1] <= starts[|starts| - 1];
  }

  /** Seen through the view. */
  lemma TrimmedView<X>(rows: seq<X>, starts: seq<nat>, rejected: seq<nat>, len: nat, n: nat, b: nat)
    requires RowOffsets(starts, |rows|) && |starts| == |rejected| + 1 && b < n <= |rejected|
    requires AllAccept(starts, rejected, len)
    requires forall i :: 0 <= i < |rejected| ==> AcceptedLength(starts, rejected, i) > 0
    ensures |AcceptedRows(rows, starts, rejected, n)| == n * len
    ensures starts[b] <= starts[b + 1] - rejected[b] <= |rows|
    ensures (b + 1) * len <= n * len && b * len <= (b + 1) * len
    ensures AcceptedRows(rows, starts, rejected, n)[b * len..(b + 1) * len]
            == rows[starts[b]..starts[b + 1] - rejected[b]]
  {
    hide AcceptedRows, AcceptedTotal, RowOffsets, Place, AllAccept, AcceptedLength;
    TrimmedRows(rows, starts, rejected, len, n, b);
    PlacesAre(b, n, len);
  }

  lemma PlacesAre(b: nat, n: nat, len: nat)
    ensures Place(b, len) == b * len && Place(n, len) == n * len && Place(b, len) + len == (b + 1) * len
    ensures b < n ==> b * len <= (b + 1) * len <= n * len
  {
    if b < n {
      MultiplyMonotone(b + 1, n, len);
    }
  }

  lemma TrimMeans<H>(xs: seq<H>, positions: seq<nat>, starts: seq<nat>, rejected: seq<nat>,
                     r: Result<Flat<H>, ContextError>)
    requires |xs| == |positions| && RowOffsets(starts, |xs|) && |starts| == |rejected| + 1 && rejected != []
    requires if UniformAccepted(starts, rejected) then
               (forall b :: 0 <= b < |rejected| ==> AcceptedLength(starts, rejected, b) > 0)
               && r == Success(Flat(AcceptedRows(xs, starts, rejected, |rejected|),
                                    AcceptedRows(positions, starts, rejected, |rejected|)))
             else r.Failure? && IsTrimError(starts, rejected, r.error)
    ensures TrimsTo(xs, positions, starts, rejected, r)
  {
    hide AcceptedRows, KeepsEqually, IsTrimError, Keeps, RowOffsets;
    if UniformAccepted(starts, rejected) {
      assert AllAccept(starts, rejected, AcceptedLength(starts, rejected, 0));
      TrimKeeps(xs, positions, starts, rejected, AcceptedLength(starts, rejected, 0));
    } else {
      TrimRaises(xs, positions, starts, rejected, r.error);
    }
  }

  lemma TrimKeeps<H>(xs: seq<H>, positions: seq<nat>, starts: seq<nat>, rejected: seq<nat>, len: nat)
    requires |xs| == |positions| && RowOffsets(starts, |xs|) && |starts| == |rejected| + 1 && rejected != []
    requires AllAccept(starts, rejected, len)
    requires forall i :: 0 <= i < |rejected| ==> AcceptedLength(starts, rejected, i) > 0
    ensures starts[1] == starts[0] + rejected[0] + len
    ensures KeepsEqually(xs, positions, starts, rejected,
                         Flat(AcceptedRows(xs, starts, rejected, |rejected|),
                              AcceptedRows(positions, starts, rejected, |rejected|)), len)
  {
    hide AcceptedRows, KeptRows, RowOffsets, Keeps, AllAccept;
    RowsKept(xs, starts, rejected, len, 0);
    RowsKept(positions, starts, rejected, len, 0);
    KeepsFirstRows(starts, rejected, len);
    forall b | 0 <= b < |rejected|
      ensures Keeps(starts, rejected, b, len)
      ensures KeptRows(xs, AcceptedRows(xs, starts, rejected, |rejected|), starts, len, b)
      ensures KeptRows(positions, AcceptedRows(positions, starts, rejected, |rejected|), starts, len, b)
    {
      RowsKept(xs, starts, rejected, len, b);
      RowsKept(positions, starts, rejected, len, b);
    }
  }

  lemma KeepsFirstRows(starts: seq<nat>, rejected: seq<nat>, len: nat)
    requires |starts| == |rejected| + 1 && rejected != [] && Keeps(starts, rejected, 0, len)
    ensures starts[1] == starts[0] + rejected[0] + len
  {
  }

  lemma RowsKept<X>(rows: seq<X>, starts: seq<nat>, rejected: seq<nat>, len: nat, b: nat)
    requires RowOffsets(starts, |rows|) && |starts| == |rejected| + 1 && b < |rejected|
    requires AllAccept(starts, rejected, len)
    requires forall i :: 0 <= i < |rejected| ==> AcceptedLength(starts, rejected, i) > 0
    ensures KeptRows(rows, AcceptedRows(rows, starts, rejected, |rejected|), starts, len, b)
    ensures |AcceptedRows(rows, starts, rejected, |rejected|)| == |rejected| * len
    ensures Keeps(starts, rejected, b, len)
  {
    hide AcceptedRows, AcceptedTotal, RowOffsets, AcceptedLength, Place, AllAccept;
    TrimmedRows(rows, starts, rejected, len, |rejected|, b);
    PlacesAre(b, |rejected|, len);
  }

  lemma TrimRaises<H>(xs: seq<H>, positions: seq<nat>, starts: seq<nat>, rejected: seq<nat>, error: ContextError)
    requires |starts| == |rejected| + 1 && rejected != [] && IsTrimError(starts, rejected, error)
    ensures TrimsTo<H>(xs, positions, starts, rejected, Failure(error))
  {
    forall i | 0 <= i < |rejected|
      ensures KeepsRow(starts, rejected, i) <==> AcceptedLength(starts, rejected, i) > 0
    {
    }
    if error.NonUniformTrim? {
      var i :| 0 <= i < |rejected| && AcceptedLength(starts, rejected, i) != AcceptedLength(starts, rejected, 0);
      assert Keeps(starts, rejected, 0, AcceptedLength(starts, rejected, 0));
      assert Keeps(starts, rejected, i, AcceptedLength(starts, rejected, i));
    }
  }

  method TrimRejectedTargetContext<H>(xs: seq<H>, positions: seq<nat>, starts: Option<seq<nat>>,
                                      rejected: Option<seq<nat>>)
    returns (r: Result<Flat<H>, ContextError>)
    requires |xs| == |positions| && (starts.Some? ==> RowOffsets(starts.value, |xs|))
    ensures !NeedsTrim(starts, rejected) ==> r == Success(Flat(xs, positions))
    ensures NeedsTrim(starts, rejected) && |starts.value| != |rejected.value| + 1 ==> r == Failure(OffsetMismatch)
    ensures NeedsTrim(starts, rejected) && |starts.value| == |rejected.value| + 1 ==>
              var s, rej := starts.value, rejected.value;
              && (r.Success? <==> UniformAccepted(s, rej))
              && (r.Failure? ==> IsTrimError(s, rej, r.error))
              && (r.Success? ==>
                   && (forall b :: 0 <= b < |rej| ==> AcceptedLength(s, rej, b) > 0)
                   && r.value == Flat(AcceptedRows(xs, s, rej, |rej|), AcceptedRows(positions, s, rej, |rej|)))
    ensures if starts.Some? && rejected.Some? && exists b :: 0 <= b < |rejected.value| && rejected.value[b] > 0 then
              TrimsTo(xs, positions, starts.value, rejected.value, r)
            else r == Success(Flat(xs, positions))
  {
    hide AcceptedRows, UniformAccepted, TrimsTo, IsTrimError, AcceptedLength;
    if rejected.None? || starts.None? {
      return Success(Flat(xs, positions));
    }
    if forall b :: 0 <= b < |rejected.value| ==> rejected.value[b] == 0 {
      return Success(Flat(xs, positions));
    }
    var s, rej := starts.value, rejected.value;
    if |s| != |rej| + 1 {
      OffsetsMismatch(xs, positions, s, rej);
      return Failure(OffsetMismatch);
    }
    UniformIs(s, rej);
    r := TrimUniform(xs, positions, s, rej);
    TrimMeans(xs, positions, s, rej, r);
  }

  lemma OffsetsMismatch<H>(xs: seq<H>, positions: seq<nat>, starts: seq<nat>, rejected: seq<nat>)
    requires |starts| != |rejected| + 1
    ensures TrimsTo<H>(xs, positions, starts, rejected, Failure(OffsetMismatch))
  {
  }

  /** Accepted rows of matching offsets. */
  method TrimUniform<H>(xs: seq<H>, positions: seq<nat>, starts: seq<nat>, rejected: seq<nat>)
    returns (r: Result<Flat<H>, ContextError>)
    requires |xs| == |positions| && RowOffsets(starts, |xs|) && |starts| == |rejected| + 1
    ensures if UniformAccepted(starts, rejected) then
              (forall b :: 0 <= b < |rejected| ==> AcceptedLength(starts, rejected, b) > 0)
              && r == Success(Flat(AcceptedRows(xs, starts, rejected, |rejected|),
                                   AcceptedRows(positions, starts, rejected, |rejected|)))
            else r.Failure? && IsTrimError(starts, rejected, r.error)
  {
    hide AcceptedRows, UniformAccepted;
    UniformIs(starts, rejected);
    var kept, effective := CollectAccepted(xs, positions, starts, rejected);
    if kept.Failure? {
      return kept;
    }
    if exists i :: 0 <= i < |effective| && effective[i] != effective[0] {
      return Failure(NonUniformTrim);
    }
    return kept;
  }

  /** The loop over the requests: accepted rows and their number, unless a request keeps none. */
  method CollectAccepted<H>(xs: seq<H>, positions: seq<nat>, starts: seq<nat>, rejected: seq<nat>)
    returns (r: Result<Flat<H>, ContextError>, effective: seq<nat>)
    requires |xs| == |positions| && RowOffsets(starts, |xs|) && |starts| == |rejected| + 1
    ensures r.Failure? ==> r.error.NothingLeft? && IsTrimError(starts, rejected, r.error)
    ensures r.Success? ==>
              && (forall b :: 0 <= b < |rejected| ==> AcceptedLength(starts, rejected, b) > 0)
              && r.value == Flat(AcceptedRows(xs, starts, rejected, |rejected|),
                 AcceptedRows(positions, starts, rejected, |rejected|))
              && |effective| == |rejected|
              && forall b :: 0 <= b < |rejected| ==> effective[b] == AcceptedLength(starts, rejected, b)
  {
    hide AcceptedRows;
    AcceptedNone(xs, starts, rejected);
    AcceptedNone(positions, starts, rejected);
    var chunks: seq<H> := [];
    var positionChunks: seq<nat> := [];
    effective := [];
    for b := 0 to |rejected|
      invariant forall i :: 0 <= i < b ==> AcceptedLength(starts, rejected, i) > 0
      invariant chunks == AcceptedRows(xs, starts, rejected, b)
                && positionChunks == AcceptedRows(positions, starts, rejected, b)
      invariant |effective| == b && forall i :: 0 <= i < b ==> effective[i] == AcceptedLength(starts, rejected, i)
    {
      var start: int, end: int := starts[b], starts[b + 1] as int - rejected[b];
      if end <= start {
        r := Failure(NothingLeft(b));
        return;
      }
      AcceptedNext(xs, starts, rejected, b);
      AcceptedNext(positions, starts, rejected, b);
      chunks := chunks + xs[start..end];
      positionChunks := positionChunks + positions[start..end];
      effective := effective + [end - start];
    }
    r := Success(Flat(chunks, positionChunks));
  }

  /** Every request keeps at least one row, and all keep the same number. */
  predicate UniformAccepted(starts: seq<nat>, rejected: seq<nat>)
    requires |starts| == |rejected| + 1
  {
    forall b :: 0 <= b < |rejected| ==>
      AcceptedLength(starts, rejected, b) > 0
          && AcceptedLength(starts, rejected, b) == AcceptedLength(starts, rejected, 0)
  }

  // ---- prepare_context ----

  /** Ragged handling applies when the offsets cover exactly the rows and some lengths differ. */
  predicate IsRagged(starts: Option<seq<nat>>, batchSize: nat, total: nat)
    requires starts.Some? ==> RowOffsets(starts.value, total)
  {
    && starts.Some? && |starts.value| == batchSize + 1
    && starts.value[batchSize] == total
    && !AllEqual(Lengths(starts.value, batchSize))
  }

  function Clamp0(x: int): nat {
    if x < 0 then 0 else x
  }

  /** Index of the last accepted row of a segment of len rows. */
  function AnchorOffset(len: nat, rejected: Option<nat>): (a: nat)
    ensures rejected.None? && len > 0 ==> a == len - 1
    ensures rejected.Some? && rejected.value < len ==> a == len - 1 - rejected.value
    ensures len == 0 || (rejected.Some? && rejected.value >= len) ==> a == 0
  {
    Clamp0(Clamp0(len - 1) - if rejected.Some? then rejected.value else 0)
  }

  function RaggedAnchor(starts: seq<nat>, rejected: Option<seq<nat>>, b: nat, total: nat): (a: nat)
    requires total > 0 && b + 1 < |starts| && starts[b] <= starts[b + 1] && (rejected.Some? ==> b < |rejected.value|)
    ensures a < total
    ensures starts[b] < starts[b + 1] <= total ==>
              a == starts[b] + AnchorOffset(starts[b + 1] - starts[b], RejectedAt(rejected, b))
    ensures starts[b] >= total ==> a == total - 1
  {
    var a := starts[b] + AnchorOffset(starts[b + 1] - starts[b], RejectedAt(rejected, b));
    if a > total - 1 then total - 1 else a
  }

  /** What prepare_context returns for these inputs. */
  ghost predicate Prepared<H>(xs: seq<H>, positions: seq<nat>, starts: Option<seq<nat>>, batchSize: nat,
                              rejected: Option<seq<nat>>, maskOn: bool, r: Result<Context<H>, ContextError>)
    requires |xs| == |positions| && batchSize > 0 && (starts.Some? ==> RowOffsets(starts.value, |xs|))
    requires rejected.Some? ==> |rejected.value| == batchSize
  {
    if maskOn then
      if IsRagged(starts, batchSize, |xs|) then
        && r.Success? && r.value.Ragged?
        && r.value.flatXs == xs && r.value.flatPositions == positions && r.value.starts == starts.value
        && r.value.mask == rejected && |r.value.lastXs| == |r.value.lastPositions| == batchSize
        && |xs| > 0
        && forall b :: 0 <= b < batchSize ==>
             var a := RaggedAnchor(starts.value, rejected, b, |xs|);
             r.value.lastXs[b] == xs[a] && r.value.lastPositions[b] == positions[a]
      else r == RectangleOf(Flat(xs, positions), batchSize, rejected)
    else if !NeedsTrim(starts, rejected) then r == RectangleOf(Flat(xs, positions), batchSize, None)
    else if |starts.value| != batchSize + 1 then r == Failure(OffsetMismatch)
    else if !UniformAccepted(starts.value, rejected.value) then
      r.Failure? && IsTrimError(starts.value, rejected.value, r.error)
    else
      && (forall b :: 0 <= b < batchSize ==> AcceptedLength(starts.value, rejected.value, b) > 0)
      && r == RectangleOf(Flat(AcceptedRows(xs, starts.value, rejected.value, batchSize),
                               AcceptedRows(positions, starts.value, rejected.value, batchSize)), batchSize, None)
  }

  predicate SomeLengthsDiffer(starts: seq<nat>) {
    exists i, j :: 0 <= i < |starts| - 1 && 0 <= j < |starts| - 1 && !SameLength(starts, i, j)
  }

  predicate SameLength(starts: seq<nat>, i: nat, j: nat)
    requires i < |starts| - 1 && j < |starts| - 1
  {
    starts[i + 1] + starts[j] == starts[j + 1] + starts[i]
  }

  lemma LengthsDiffer(starts: seq<nat>, batchSize: nat)
    requires |starts| == batchSize + 1 && forall i, j :: 0 <= i <= j < |starts| ==> starts[i] <= starts[j]
    ensures AllEqual(Lengths(starts, batchSize)) <==> !SomeLengthsDiffer(starts)
  {
    var lengths := Lengths(starts, batchSize);
    if i, j :| 0 <= i < batchSize && 0 <= j < batchSize && lengths[i] != lengths[j] {
      assert !SameLength(starts, i, j);
    }
    if i, j :| 0 <= i < |starts| - 1 && 0 <= j < |starts| - 1 && !SameLength(starts, i, j) {
      assert lengths[i] != lengths[j];
    }
  }

  /** When the rectangular view raises, and what it holds otherwise. */
  lemma RectangleMeans<H>(flat: Flat<H>, batchSize: nat, mask: Option<seq<nat>>)
    requires |flat.xs| == |flat.positions| && batchSize > 0 && (mask.Some? ==> |mask.value| == batchSize)
    ensures var r := RectangleOf(flat, batchSize, mask);
            && (r == Failure(NoRows) <==> |flat.xs| == 0)
            && (r == Failure(NotDivisible) <==> !exists len :: |flat.xs| == batchSize * len)
            && forall len: nat :: |flat.xs| == batchSize * len && len > 0 ==>
                 r.Success? && RectangleParts(r.value, flat, batchSize, mask, len)
  {
    hide RectangleParts;
    var n := |flat.xs|;
    assert n == batchSize * (n / batchSize) + n % batchSize;
    if len: int :| n == batchSize * len {
      Multiple(n, batchSize, len);
    }
    forall len: nat | n == batchSize * len && len > 0
      ensures var r := RectangleOf(flat, batchSize, mask);
              r.Success? && RectangleParts(r.value, flat, batchSize, mask, len)
    {
      RectangleHasParts(flat, batchSize, mask, len);
    }
  }

  lemma Multiple(n: nat, w: nat, len: int)
    requires w > 0 && n == w * len
    ensures n % w == 0
  {
    assert len >= 0;
    DivMod(n, w, len, 0);
  }

  method PrepareContext<H>(xs: seq<H>, positions: seq<nat>, starts: Option<seq<nat>>, batchSize: nat,
                           rejected: Option<seq<nat>>, maskOn: bool)
    returns (r: Result<Context<H>, ContextError>)
    requires |xs| == |positions| && batchSize > 0 && (starts.Some? ==> RowOffsets(starts.value, |xs|))
    requires rejected.Some? ==> |rejected.value| == batchSize
    ensures Prepared(xs, positions, starts, batchSize, rejected, maskOn, r)
    ensures r.Success? && r.value.Ragged?
            <==> maskOn && starts.Some? && |starts.value| == batchSize + 1 && starts.value[batchSize] == |xs|
                 && SomeLengthsDiffer(starts.value)
  {
    hide AcceptedRows, UniformAccepted, IsTrimError, TrimsTo, SomeLengthsDiffer, RectAnchor, AllEqual, Lengths,
         RaggedAnchor, View;
    if starts.Some? && |starts.value| == batchSize + 1 && starts.value[batchSize] == |xs| {
      LengthsDiffer(starts.value, batchSize);
    }
    var flat := Flat(xs, positions);
    var mask: Option<seq<nat>> := None;
    if maskOn {
      mask := rejected;
      if IsRagged(starts, batchSize, |xs|) {
        r := PrepareContextRagged(flat, starts.value, batchSize, mask);
        return;
      }
    } else {
      var trimmed := TrimRejectedTargetContext(xs, positions, starts, rejected);
      if trimmed.Failure? {
        return Failure(trimmed.error);
      }
      flat := trimmed.value;
    }
    r := ViewByRequest(flat, batchSize, mask);
  }

  /** Unequal lengths need a row. */
  lemma RaggedHasRows(starts: seq<nat>, batchSize: nat, total: nat)
    requires |starts| == batchSize + 1 && RowOffsets(starts, total) && IsRagged(Some(starts), batchSize, total)
    ensures total > 0
    ensures forall b :: 0 <= b < batchSize ==> starts[b] <= starts[b + 1]
  {
    var lengths := Lengths(starts, batchSize);
    var i, j :| 0 <= i < batchSize && 0 <= j < batchSize && lengths[i] != lengths[j];
    assert starts[i + 1] <= starts[batchSize] && starts[j + 1] <= starts[batchSize];
  }

  method PrepareContextRagged<H>(flat: Flat<H>, starts: seq<nat>, batchSize: nat, mask: Option<seq<nat>>)
    returns (r: Result<Context<H>, ContextError>)
    requires |flat.xs| == |flat.positions| && |starts| == batchSize + 1 && batchSize > 0
    requires RowOffsets(starts, |flat.xs|) && IsRagged(Some(starts), batchSize, |flat.xs|)
    requires mask.Some? ==> |mask.value| == batchSize
    ensures r.Success? && r.value.Ragged?
    ensures r.value.flatXs == flat.xs && r.value.flatPositions == flat.positions && r.value.starts == starts
    ensures r.value.mask == mask && |r.value.lastXs| == |r.value.lastPositions| == batchSize
    ensures |flat.xs| > 0
    ensures forall b :: 0 <= b < batchSize ==>
              var a := RaggedAnchor(starts, mask, b, |flat.xs|);
              r.value.lastXs[b] == flat.xs[a] && r.value.lastPositions[b] == flat.positions[a]
  {
    hide RaggedAnchor, RowOffsets, IsRagged, Lengths;
    var total := |flat.xs|;
    RaggedHasRows(starts, batchSize, total);
    var lastXs := seq(batchSize, b requires 0 <= b < batchSize => flat.xs[RaggedAnchor(starts, mask, b, total)]);
    var lastPositions :=
        seq(batchSize, b requires 0 <= b < batchSize => flat.positions[RaggedAnchor(starts, mask, b, total)]);
    return Success(Ragged(flat.xs, flat.positions, starts, lastXs, lastPositions, mask));
  }

  /** The rectangular view: rows are divided evenly, whatever the offsets say. */
  function RectangleOf<H>(flat: Flat<H>, batchSize: nat, mask: Option<seq<nat>>): Result<Context<H>, ContextError>
    requires |flat.xs| == |flat.positions| && batchSize > 0 && (mask.Some? ==> |mask.value| == batchSize)
  {
    if |flat.xs| % batchSize != 0 then Failure(NotDivisible)
    else if |flat.xs| == 0 then Failure(NoRows)
    else
      var len := |flat.xs| / batchSize;
      Success(Rectangle(
        seq(batchSize, b requires 0 <= b < batchSize => View(flat.xs, len, b)),
        seq(batchSize, b requires 0 <= b < batchSize => View(flat.positions, len, b)),
        seq(batchSize, b requires 0 <= b < batchSize => flat.xs[RectAnchor(|flat.xs|, batchSize, mask, b)]),
        seq(batchSize, b requires 0 <= b < batchSize => flat.positions[RectAnchor(|flat.xs|, batchSize, mask, b)]),
        mask))
  }

  /** Flat index of the anchor row that the gather picks inside view row b. */
  function RectAnchor(total: nat, batchSize: nat, mask: Option<seq<nat>>, b: nat): (a: nat)
    requires batchSize > 0 && total > 0 && total % batchSize == 0 && b < batchSize
    requires mask.Some? ==> |mask.value| == batchSize
    ensures a < total
  {
    var len := total / batchSize;
    RowFits(total, batchSize, b);
    b * len + AnchorOffset(len, RejectedAt(mask, b))
  }

  lemma RowFits(total: nat, batchSize: nat, b: nat)
    requires batchSize > 0 && total > 0 && total % batchSize == 0 && b < batchSize
    ensures total / batchSize > 0
    ensures b * (total / batchSize) + total / batchSize <= total
  {
    var len := total / batchSize;
    assert total == batchSize * len;
    MultiplyMonotone(b + 1, batchSize, len);
    assert (b + 1) * len == b * len + len;
  }

  method ViewByRequest<H>(flat: Flat<H>, batchSize: nat, mask: Option<seq<nat>>)
      returns (r: Result<Context<H>, ContextError>)
    requires |flat.xs| == |flat.positions| && batchSize > 0 && (mask.Some? ==> |mask.value| == batchSize)
    ensures r == RectangleOf(flat, batchSize, mask)
  {
    var total := |flat.xs|;
    if total % batchSize != 0 {
      return Failure(NotDivisible);
    }
    if total == 0 {
      return Failure(NoRows);
    }
    var len := total / batchSize;
    var lastXs: seq<H> := [];
    var lastPositions: seq<nat> := [];
    for b := 0 to batchSize
      invariant lastXs == seq(b, i requires 0 <= i < b => flat.xs[RectAnchor(total, batchSize, mask, i)])
      invariant lastPositions == seq(b, i requires 0 <= i < b => flat.positions[RectAnchor(total, batchSize, mask, i)])
    {
      var a := RectAnchor(total, batchSize, mask, b);
      lastXs := lastXs + [flat.xs[a]];
      lastPositions := lastPositions + [flat.positions[a]];
    }
    return Success(Rectangle(seq(batchSize, b requires 0 <= b < batchSize => View(flat.xs, len, b)),
           seq(batchSize, b requires 0 <= b < batchSize => View(flat.positions, len, b)),
                             lastXs, lastPositions, mask));
  }

  // ---- Every request gets its own accepted rows ----

  /** The segments that prefill_main stores for a context. */
  function SegmentsOf<H>(ctx: Context<H>, batchSize: nat): (segs: seq<Segment<H>>)
    requires WellShaped(ctx, batchSize)
    ensures |segs| == batchSize && AllValid(segs)
  {
    match ctx
    case Rectangle(xs, positions, _, _, mask) => RectSegments(xs, positions, mask)
    case Ragged(flatXs, flatPositions, starts, _, _, mask) => FlatSegments(flatXs, flatPositions, starts, mask)
  }

  function Width<X>(rows: seq<seq<X>>): nat {
    if rows == [] then 0 else |rows[0]|
  }

  predicate WellShaped<H>(ctx: Context<H>, batchSize: nat) {
    && (ctx.mask.Some? ==> |ctx.mask.value| == batchSize)
    && |ctx.lastXs| == |ctx.lastPositions| == batchSize
    && match ctx
       case Rectangle(xs, positions, _, _, _) =>
         |xs| == |positions| == batchSize && Rectangular(xs, Width(xs)) && Rectangular(positions, Width(xs))
       case Ragged(flatXs, flatPositions, starts, _, _, _) =>
         |flatXs| == |flatPositions| && |starts| == batchSize + 1 && Offsets(starts, |flatXs|)
  }

  lemma RectangleIsShaped<H>(flat: Flat<H>, batchSize: nat, mask: Option<seq<nat>>)
    requires |flat.xs| == |flat.positions| && batchSize > 0 && (mask.Some? ==> |mask.value| == batchSize)
    requires RectangleOf(flat, batchSize, mask).Success?
    ensures WellShaped(RectangleOf(flat, batchSize, mask).value, batchSize)
  {
    hide RectAnchor;
    var ctx := RectangleOf(flat, batchSize, mask).value;
    forall b | 0 <= b < batchSize
      ensures |ctx.xs[b]| == |flat.xs| / batchSize && |ctx.positions[b]| == |flat.xs| / batchSize
    {
      RowFits(|flat.xs|, batchSize, b);
      assert (b + 1) * (|flat.xs| / batchSize) == b * (|flat.xs| / batchSize) + |flat.xs| / batchSize;
    }
  }

  /** Every prepared context has the shape the store needs. */
  lemma PreparedIsShaped<H>(xs: seq<H>, positions: seq<nat>, starts: seq<nat>, batchSize: nat,
                            rejected: Option<seq<nat>>,
                            maskOn: bool, ctx: Context<H>)
    requires |xs| == |positions| && batchSize > 0 && RowOffsets(starts, |xs|)
    requires rejected.Some? ==> |rejected.value| == batchSize
    requires Prepared(xs, positions, Some(starts), batchSize, rejected, maskOn, Success(ctx))
    ensures WellShaped(ctx, batchSize)
  {
    hide RectangleOf, AllEqual, AcceptedRows, UniformAccepted, RaggedAnchor;
    if maskOn {
      if !IsRagged(Some(starts), batchSize, |xs|) {
        RectangleIsShaped(Flat(xs, positions), batchSize, rejected);
      }
    } else if !NeedsTrim(Some(starts), rejected) {
      RectangleIsShaped(Flat(xs, positions), batchSize, None);
    } else {
      RectangleIsShaped(Flat(AcceptedRows(xs, starts, rejected.value, batchSize),
                             AcceptedRows(positions, starts, rejected.value, batchSize)), batchSize, None);
    }
  }

  /** Consistent metadata: the offsets cut the rows into non-empty segments, and every request keeps a row. */
  predicate Consistent(starts: seq<nat>, total: nat, batchSize: nat, rejected: Option<seq<nat>>) {
    && |starts| == batchSize + 1 && batchSize > 0
    && Offsets(starts, total)
    && (rejected.Some? ==> |rejected.value| == batchSize)
    && forall b :: 0 <= b < batchSize ==>
         starts[b] < starts[b + 1] && (rejected.Some? ==> rejected.value[b] < starts[b + 1] - starts[b])
  }

  /** The context gives a request its own rows, masked or trimmed, and its last accepted row as anchor. */
  ghost predicate IsOwn<H>(seg: Segment<H>, lastX: H, lastPosition: nat, own: Segment<H>) {
    && seg.Valid() && own.Valid()
    && (seg == own || seg == Trim(own))
    && |Trim(own).xs| > 0
    && lastX == Trim(own).xs[|Trim(own).xs| - 1]
    && lastPosition == Trim(own).positions[|Trim(own).xs| - 1]
  }

  ghost predicate AllOwn<H>(ctx: Context<H>, batchSize: nat, own: seq<Segment<H>>) {
    && WellShaped(ctx, batchSize) && |own| == batchSize
    && forall b :: 0 <= b < batchSize ==>
         IsOwn(SegmentsOf(ctx, batchSize)[b], ctx.lastXs[b], ctx.lastPositions[b], own[b])
  }

  /** Ragged batches under the mask: the flat layout cuts at the offsets and the anchor is the last accepted row. */
  lemma RaggedIsOwn<H>(xs: seq<H>, positions: seq<nat>, starts: seq<nat>, batchSize: nat, rejected: Option<seq<nat>>,
                       ctx: Context<H>)
    requires |xs| == |positions| && Consistent(starts, |xs|, batchSize, rejected)
    requires IsRagged(Some(starts), batchSize, |xs|)
    requires Prepared(xs, positions, Some(starts), batchSize, rejected, true, Success(ctx))
    ensures AllOwn(ctx, batchSize, FlatSegments(xs, positions, starts, rejected))
  {
    var own := FlatSegments(xs, positions, starts, rejected);
    forall b | 0 <= b < batchSize
      ensures IsOwn(own[b], ctx.lastXs[b], ctx.lastPositions[b], own[b])
    {
      assert starts[b + 1] <= starts[batchSize];
      var a := RaggedAnchor(starts, rejected, b, |xs|);
      AnchorIsLast(xs, positions, starts, rejected, b, a);
    }
  }

  lemma AnchorIsLast<H>(xs: seq<H>, positions: seq<nat>, starts: seq<nat>, rejected: Option<seq<nat>>, b: nat, a: nat)
    requires |xs| == |positions| && |starts| > 0 && Consistent(starts, |xs|, |starts| - 1, rejected)
    requires b + 1 < |starts| && a < |xs|
    requires a == starts[b] + AnchorOffset(starts[b + 1] - starts[b], RejectedAt(rejected, b))
    ensures var t := Trim(FlatSegments(xs, positions, starts, rejected)[b]);
            |t.xs| > 0 && xs[a] == t.xs[|t.xs| - 1] && positions[a] == t.positions[|t.xs| - 1]
  {
    assert starts[b] < starts[b + 1] <= starts[|starts| - 1];
  }

  /** The parts of a rectangular context with rows of len entries. */
  ghost predicate RectangleParts<H>(ctx: Context<H>, flat: Flat<H>, batchSize: nat, mask: Option<seq<nat>>, len: nat)
    requires |flat.xs| == |flat.positions| && (mask.Some? ==> |mask.value| == batchSize)
  {
    && ctx.Rectangle? && WellShaped(ctx, batchSize) && ctx.mask == mask
    && (forall b :: 0 <= b < batchSize ==> ctx.xs[b] == View(flat.xs, len, b))
    && (forall b :: 0 <= b < batchSize ==> ctx.positions[b] == View(flat.positions, len, b))
    && forall b :: 0 <= b < batchSize ==>
         var a := b * len + AnchorOffset(len, RejectedAt(mask, b));
         a < |flat.xs| && ctx.lastXs[b] == flat.xs[a] && ctx.lastPositions[b] == flat.positions[a]
  }

  lemma RectangleHasParts<H>(flat: Flat<H>, batchSize: nat, mask: Option<seq<nat>>, len: nat)
    requires |flat.xs| == |flat.positions| == batchSize * len && batchSize > 0 && len > 0
    requires mask.Some? ==> |mask.value| == batchSize
    ensures RectangleOf(flat, batchSize, mask).Success?
    ensures RectangleParts(RectangleOf(flat, batchSize, mask).value, flat, batchSize, mask, len)
  {
    DivIs(|flat.xs|, batchSize, len);
    var ctx := RectangleOf(flat, batchSize, mask).value;
    forall b | 0 <= b < batchSize
      ensures |ctx.xs[b]| == len && |ctx.positions[b]| == len
    {
      MultiplyMonotone(b + 1, batchSize, len);
      assert (b + 1) * len == b * len + len;
    }
    forall b | 0 <= b < batchSize
      ensures var a := b * len + AnchorOffset(len, RejectedAt(mask, b));
              a < |flat.xs| && ctx.lastXs[b] == flat.xs[a] && ctx.lastPositions[b] == flat.positions[a]
    {
      assert RectAnchor(|flat.xs|, batchSize, mask, b) == b * len + AnchorOffset(len, RejectedAt(mask, b));
    }
  }

  lemma DivIs(total: nat, w: nat, len: nat)
    requires w > 0 && len > 0 && total == w * len
    ensures total > 0 && total % w == 0 && total / w == len
  {
    DivMod(total, w, len, 0);
    ScaleAtLeast(w, len);
  }

  /** The rectangular view of a uniform batch is the flat layout, request by request. */
  lemma RectangleIsOwn<H>(xs: seq<H>, positions: seq<nat>, starts: seq<nat>, batchSize: nat, mask: Option<seq<nat>>,
                          rejected: Option<seq<nat>>)
    requires |xs| == |positions| && Consistent(starts, |xs|, batchSize, rejected)
    requires AllEqual(Lengths(starts, batchSize))
    requires mask == rejected
             || (mask.None? && rejected.Some? && forall b :: 0 <= b < batchSize ==> rejected.value[b] == 0)
    ensures RectangleOf(Flat(xs, positions), batchSize, mask).Success?
    ensures AllOwn(RectangleOf(Flat(xs, positions), batchSize, mask).value, batchSize,
                   FlatSegments(xs, positions, starts, rejected))
  {
    var len := starts[1] - starts[0];
    UniformTotal(starts, |xs|, batchSize);
    RectangleHasParts(Flat(xs, positions), batchSize, mask, len);
    var ctx := RectangleOf(Flat(xs, positions), batchSize, mask).value;
    hide RectangleOf, RectangleParts, IsOwn;
    assert WellShaped(ctx, batchSize);
    forall b | 0 <= b < batchSize
      ensures IsOwn(SegmentsOf(ctx, batchSize)[b], ctx.lastXs[b], ctx.lastPositions[b],
                    FlatSegments(xs, positions, starts, rejected)[b])
    {
      UniformOffset(starts, |xs|, len, b);
      UniformOffset(starts, |xs|, len, b + 1);
      RectangleRowIsOwn(ctx, xs, positions, starts, batchSize, mask, rejected, len, b);
    }
  }

  lemma RectangleRowIsOwn<H>(ctx: Context<H>, xs: seq<H>, positions: seq<nat>, starts: seq<nat>, batchSize: nat,
                             mask: Option<seq<nat>>, rejected: Option<seq<nat>>, len: nat, b: nat)
    requires |xs| == |positions| && Consistent(starts, |xs|, batchSize, rejected) && b < batchSize
    requires mask == rejected
             || (mask.None? && rejected.Some? && forall i :: 0 <= i < batchSize ==> rejected.value[i] == 0)
    requires RectangleParts(ctx, Flat(xs, positions), batchSize, mask, len)
    requires starts[b] == b * len && starts[b + 1] == (b + 1) * len && starts[b + 1] - starts[b] == len
    ensures IsOwn(SegmentsOf(ctx, batchSize)[b], ctx.lastXs[b], ctx.lastPositions[b],
                  FlatSegments(xs, positions, starts, rejected)[b])
  {
    var p := b * len;
    assert starts[b + 1] <= starts[batchSize];
    assert View(xs, len, b) == xs[p..p + len] && View(positions, len, b) == positions[p..p + len];
    var a := p + AnchorOffset(len, RejectedAt(mask, b));
    assert SegmentsOf(ctx, batchSize)[b] == Segment(xs[p..p + len], positions[p..p + len], RejectedAt(mask, b));
    assert ctx.lastXs[b] == xs[a] && ctx.lastPositions[b] == positions[a];
    hide RectangleParts, SegmentsOf, View, AnchorOffset, WellShaped;
    assert p == starts[b] && p + len == starts[b + 1];
    OwnRow(xs, positions, starts, batchSize, mask, rejected, b, a);
  }

  /**
    A segment cut at a request's offsets, with its own anchor, under the mask or under no mask when nothing is
    rejected.
   */
  lemma OwnRow<H>(xs: seq<H>, positions: seq<nat>, starts: seq<nat>, batchSize: nat, mask: Option<seq<nat>>,
                  rejected: Option<seq<nat>>, b: nat, a: nat)
    requires |xs| == |positions| && Consistent(starts, |xs|, batchSize, rejected) && b < batchSize
    requires mask == rejected
             || (mask.None? && rejected.Some? && forall i :: 0 <= i < batchSize ==> rejected.value[i] == 0)
    requires starts[b] <= starts[b + 1] <= |xs| && a < |xs|
    requires a == starts[b] + AnchorOffset(starts[b + 1] - starts[b], RejectedAt(mask, b))
    ensures IsOwn(Segment(xs[starts[b]..starts[b + 1]], positions[starts[b]..starts[b + 1]], RejectedAt(mask, b)),
                  xs[a], positions[a], FlatSegments(xs, positions, starts, rejected)[b])
  {
    AnchorIsLast(xs, positions, starts, rejected, b, a);
  }

  lemma UniformTotal(starts: seq<nat>, total: nat, batchSize: nat)
    requires |starts| == batchSize + 1 && batchSize > 0 && Offsets(starts, total)
             && AllEqual(Lengths(starts, batchSize))
    requires starts[0] < starts[1]
    ensures total == batchSize * (starts[1] - starts[0])
    ensures forall b :: 0 <= b < batchSize ==> starts[b + 1] - starts[b] == starts[1] - starts[0]
  {
    var len := starts[1] - starts[0];
    forall b | 0 <= b < batchSize
      ensures starts[b + 1] - starts[b] == len
    {
      assert Lengths(starts, batchSize)[b] == Lengths(starts, batchSize)[0];
    }
    UniformOffset(starts, total, len, batchSize);
  }

  /** Trimming and viewing leaves every request with its own accepted rows. */
  lemma TrimmedIsOwn<H>(xs: seq<H>, positions: seq<nat>, starts: seq<nat>, rejected: seq<nat>, batchSize: nat)
    requires |xs| == |positions| && Consistent(starts, |xs|, batchSize, Some(rejected))
             && UniformAccepted(starts, rejected)
    ensures forall b :: 0 <= b < batchSize ==> AcceptedLength(starts, rejected, b) > 0
    ensures var flat := Flat(AcceptedRows(xs, starts, rejected, batchSize),
            AcceptedRows(positions, starts, rejected, batchSize));
            && RectangleOf(flat, batchSize, None).Success?
            && AllOwn(RectangleOf(flat, batchSize, None).value, batchSize,
               FlatSegments(xs, positions, starts, Some(rejected)))
  {
    var len := AcceptedLength(starts, rejected, 0);
    var flat := Flat(AcceptedRows(xs, starts, rejected, batchSize),
        AcceptedRows(positions, starts, rejected, batchSize));
    assert AllAccept(starts, rejected, len);
    TrimmedView(xs, starts, rejected, len, batchSize, 0);
    RectangleHasParts(flat, batchSize, None, len);
    var ctx := RectangleOf(flat, batchSize, None).value;
    hide RectangleOf, RectangleParts, IsOwn, AcceptedRows;
    assert WellShaped(ctx, batchSize);
    forall b | 0 <= b < batchSize
      ensures IsOwn(SegmentsOf(ctx, batchSize)[b], ctx.lastXs[b], ctx.lastPositions[b],
                    FlatSegments(xs, positions, starts, Some(rejected))[b])
    {
      TrimmedView(xs, starts, rejected, len, batchSize, b);
      TrimmedView(positions, starts, rejected, len, batchSize, b);
      TrimmedRowIsOwn(ctx, flat, xs, positions, starts, rejected, batchSize, len, b);
    }
  }

  lemma TrimmedRowIsOwn<H>(ctx: Context<H>, flat: Flat<H>, xs: seq<H>, positions: seq<nat>, starts: seq<nat>,
                           rejected: seq<nat>, batchSize: nat, len: nat, b: nat)
    requires |xs| == |positions| && Consistent(starts, |xs|, batchSize, Some(rejected)) && b < batchSize
    requires |flat.xs| == |flat.positions| && RectangleParts(ctx, flat, batchSize, None, len)
    requires len == AcceptedLength(starts, rejected, b) > 0
    requires b * len <= (b + 1) * len <= |flat.xs|
    requires starts[b] <= starts[b + 1] - rejected[b] <= |xs|
    requires flat.xs[b * len..(b + 1) * len] == xs[starts[b]..starts[b + 1] - rejected[b]]
    requires flat.positions[b * len..(b + 1) * len] == positions[starts[b]..starts[b + 1] - rejected[b]]
    ensures IsOwn(SegmentsOf(ctx, batchSize)[b], ctx.lastXs[b], ctx.lastPositions[b],
                  FlatSegments(xs, positions, starts, Some(rejected))[b])
  {
    hide RectangleParts, SegmentsOf, View, WellShaped;
    var p := b * len;
    assert (b + 1) * len == p + len;
    var seg := Segment(flat.xs[p..p + len], flat.positions[p..p + len], None);
    ViewedRow(ctx, flat, batchSize, len, b, p);
    LastOfSlice(flat.xs, p, len);
    LastOfSlice(flat.positions, p, len);
    TrimmedSegment(xs, positions, starts, rejected, batchSize, b);
    var own := FlatSegments(xs, positions, starts, Some(rejected))[b];
    assert Trim(own) == seg;
    hide Trim;
  }

  lemma TrimmedSegment<H>(xs: seq<H>, positions: seq<nat>, starts: seq<nat>, rejected: seq<nat>, batchSize: nat, b: nat)
    requires |xs| == |positions| && Consistent(starts, |xs|, batchSize, Some(rejected)) && b < batchSize
    requires starts[b] <= starts[b + 1] - rejected[b] <= |xs|
    ensures var t := Trim(FlatSegments(xs, positions, starts, Some(rejected))[b]);
            && t.xs == xs[starts[b]..starts[b + 1] - rejected[b]]
            && t.positions == positions[starts[b]..starts[b + 1] - rejected[b]]
  {
    assert starts[b + 1] <= starts[batchSize];
    var from, to, n := starts[b], starts[b + 1], starts[b + 1] - rejected[b] - starts[b];
    assert xs[from..to][..n] == xs[from..from + n];
    assert positions[from..to][..n] == positions[from..from + n];
  }

  /** Row b of a view without mask. */
  lemma ViewedRow<H>(ctx: Context<H>, flat: Flat<H>, batchSize: nat, len: nat, b: nat, p: nat)
    requires |flat.xs| == |flat.positions| && RectangleParts(ctx, flat, batchSize, None, len) && b < batchSize
    requires len > 0 && p == b * len && p + len == (b + 1) * len <= |flat.xs|
    ensures WellShaped(ctx, batchSize)
    ensures SegmentsOf(ctx, batchSize)[b] == Segment(flat.xs[p..p + len], flat.positions[p..p + len], None)
    ensures ctx.lastXs[b] == flat.xs[p + len - 1] && ctx.lastPositions[b] == flat.positions[p + len - 1]
  {
    assert View(flat.xs, len, b) == flat.xs[p..p + len];
    assert View(flat.positions, len, b) == flat.positions[p..p + len];
  }

  lemma LastOfSlice<X>(s: seq<X>, from: nat, len: nat)
    requires len > 0 && from + len <= |s|
    ensures s[from..from + len][len - 1] == s[from + len - 1]
  {
  }

  /** The batches for which the prepared rows are each request's own: masked, trimmed, or uniform. */
  predicate Separable(starts: seq<nat>, batchSize: nat, rejected: Option<seq<nat>>, maskOn: bool)
    requires |starts| == batchSize + 1 && forall i, j :: 0 <= i <= j < |starts| ==> starts[i] <= starts[j]
  {
    maskOn || NeedsTrim(Some(starts), rejected) || AllEqual(Lengths(starts, batchSize))
  }

  /**
    Context preparation hands every request exactly its own accepted rows, and the draft anchor is
    its last accepted row, on the masked, trimmed, rectangular and ragged paths alike.
   */
  lemma ContextIsOwn<H>(xs: seq<H>, positions: seq<nat>, starts: seq<nat>, batchSize: nat, rejected: Option<seq<nat>>,
                        maskOn: bool, ctx: Context<H>)
    requires |xs| == |positions| && Consistent(starts, |xs|, batchSize, rejected)
    requires Separable(starts, batchSize, rejected, maskOn)
    requires Prepared(xs, positions, Some(starts), batchSize, rejected, maskOn, Success(ctx))
    ensures AllOwn(ctx, batchSize, FlatSegments(xs, positions, starts, rejected))
  {
    hide RectangleOf, AllOwn, RaggedAnchor;
    if maskOn {
      if IsRagged(Some(starts), batchSize, |xs|) {
        RaggedIsOwn(xs, positions, starts, batchSize, rejected, ctx);
      } else {
        RectangleIsOwn(xs, positions, starts, batchSize, rejected, rejected);
      }
    } else if NeedsTrim(Some(starts), rejected) {
      TrimmedIsOwn(xs, positions, starts, rejected.value, batchSize);
    } else {
      RectangleIsOwn(xs, positions, starts, batchSize, None, rejected);
    }
  }

  /** Under the mask preparation always succeeds; when trimming it succeeds exactly for uniform accepted lengths. */
  lemma ContextSucceedsIff<H>(xs: seq<H>, positions: seq<nat>, starts: seq<nat>, batchSize: nat,
                              rejected: Option<seq<nat>>,
                              maskOn: bool, r: Result<Context<H>, ContextError>)
    requires |xs| == |positions| && Consistent(starts, |xs|, batchSize, rejected)
    requires Separable(starts, batchSize, rejected, maskOn)
    requires Prepared(xs, positions, Some(starts), batchSize, rejected, maskOn, r)
    ensures r.Success? <==> maskOn || !NeedsTrim(Some(starts), rejected) || UniformAccepted(starts, rejected.value)
  {
    hide RectangleOf, AllOwn, RaggedAnchor;
    if maskOn {
      if !IsRagged(Some(starts), batchSize, |xs|) {
        RectangleIsOwn(xs, positions, starts, batchSize, rejected, rejected);
      }
    } else if NeedsTrim(Some(starts), rejected) {
      if UniformAccepted(starts, rejected.value) {
        TrimmedIsOwn(xs, positions, starts, rejected.value, batchSize);
      }
    } else {
      RectangleIsOwn(xs, positions, starts, batchSize, None, rejected);
    }
  }

  // ---- Without the mask, a ragged batch is cut across requests ----

  /**
    With the mask off and nothing to trim, the rows are divided evenly without looking at the offsets.
    Every request gets its own rows and anchor exactly when all lengths are equal, whatever the rows hold.
   */
  lemma UnmaskedIsOwnIff<H>(xs: seq<H>, positions: seq<nat>, starts: seq<nat>, batchSize: nat,
                            rejected: Option<seq<nat>>,
                            r: Result<Context<H>, ContextError>)
    requires |xs| == |positions| && Consistent(starts, |xs|, batchSize, rejected) && !NeedsTrim(Some(starts), rejected)
    requires Prepared(xs, positions, Some(starts), batchSize, rejected, false, r)
    ensures r.Success? && AllOwn(r.value, batchSize, FlatSegments(xs, positions, starts, rejected))
            <==> AllEqual(Lengths(starts, batchSize))
    ensures r.Failure? <==> |xs| % batchSize != 0
  {
    hide AllOwn, RaggedAnchor, RectangleOf, AllEqual;
    RowsExist(starts, |xs|, batchSize, rejected);
    RectangleExists(Flat(xs, positions), batchSize);
    if AllEqual(Lengths(starts, batchSize)) {
      RectangleIsOwn(xs, positions, starts, batchSize, None, rejected);
    }
    if r.Success? && AllOwn(r.value, batchSize, FlatSegments(xs, positions, starts, rejected)) {
      OwnRowsAreEven(xs, positions, starts, batchSize, rejected, r.value);
    }
  }

  lemma RectangleExists<H>(flat: Flat<H>, batchSize: nat)
    requires |flat.xs| == |flat.positions| && batchSize > 0 && |flat.xs| > 0
    ensures RectangleOf(flat, batchSize, None).Success? <==> |flat.xs| % batchSize == 0
    ensures RectangleOf(flat, batchSize, None).Success? ==> RectangleOf(flat, batchSize, None).value.Rectangle?
  {
  }

  lemma RowsExist(starts: seq<nat>, total: nat, batchSize: nat, rejected: Option<seq<nat>>)
    requires Consistent(starts, total, batchSize, rejected)
    ensures total > 0
  {
    assert starts[0] < starts[0 + 1] <= starts[batchSize];
  }

  /** Rows of one width that are the requests' own make all lengths equal. */
  lemma OwnRowsAreEven<H>(xs: seq<H>, positions: seq<nat>, starts: seq<nat>, batchSize: nat, rejected: Option<seq<nat>>,
                          ctx: Context<H>)
    requires |xs| == |positions| && Consistent(starts, |xs|, batchSize, rejected) && !NeedsTrim(Some(starts), rejected)
    requires ctx.Rectangle? && AllOwn(ctx, batchSize, FlatSegments(xs, positions, starts, rejected))
    ensures AllEqual(Lengths(starts, batchSize))
  {
    var own := FlatSegments(xs, positions, starts, rejected);
    forall b | 0 <= b < batchSize
      ensures Lengths(starts, batchSize)[b] == Width(ctx.xs)
    {
      assert IsOwn(SegmentsOf(ctx, batchSize)[b], ctx.lastXs[b], ctx.lastPositions[b], own[b]);
      assert starts[b] <= starts[b + 1] <= starts[batchSize];
      assert |own[b].xs| == starts[b + 1] - starts[b];
      NothingTrimmed(own[b]);
    }
  }

  lemma NothingTrimmed<H>(seg: Segment<H>)
    requires seg.Valid() && (seg.rejected.Some? ==> seg.rejected.value == 0)
    ensures Trim(seg).xs == seg.xs && Trim(seg).positions == seg.positions
  {
  }

  /** Two requests with one and three rows: without the mask, the view hands request 0 a row of request 1. */
  lemma RectangleCanMixRequests()
    ensures var xs, positions, starts := [10, 20, 30, 40], [7, 3, 4, 5], [0, 1, 4];
            && Consistent(starts, 4, 2, None)
            && Prepared(xs, positions, Some(starts), 2, None, false, RectangleOf(Flat(xs, positions), 2, None))
            && RectangleOf(Flat(xs, positions), 2, None).Success?
            && RectangleOf(Flat(xs, positions), 2, None).value.xs[0] == [10, 20]
            && FlatSegments(xs, positions, starts, None)[0].xs == [10]
  {
    var xs, positions, starts := [10, 20, 30, 40], [7, 3, 4, 5], [0, 1, 4];
    RectangleHasParts(Flat(xs, positions), 2, None, 2);
    assert RectangleOf(Flat(xs, positions), 2, None).value.xs[0] == View(xs, 2, 0);
    assert View(xs, 2, 0) == [10, 20];
  }
}
