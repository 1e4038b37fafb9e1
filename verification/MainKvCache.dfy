/**
  The persistent main-KV cache: the rectangular and the ragged store over a batch of requests,
  the row selection of the draft read, and the limits of the rejection mask.
 */
module MainKvCache {
  import opened Wrappers
  import opened DraftWindow

  /** Cache row of batch row i: the leading rows on the identity fast path, the slot index otherwise. */
  function SlotsOf(slotIndex: Option<seq<nat>>, batchSize: nat): (slots: seq<nat>)
    requires slotIndex.Some? ==> |slotIndex.value| == batchSize
    ensures |slots| == batchSize
    ensures slotIndex.None? ==> forall i :: 0 <= i < batchSize ==> slots[i] == i
    ensures slotIndex.Some? ==> slots == slotIndex.value
  {
    if slotIndex.Some? then slotIndex.value else seq(batchSize, i => i)
  }

  predicate DistinctRows(slots: seq<nat>, n: nat) {
    && (forall i :: 0 <= i < |slots| ==> slots[i] < n)
    && (forall i, j :: 0 <= i < j < |slots| ==> slots[i] != slots[j])
  }

  predicate Rings<T>(cache: seq<seq<T>>, w: nat) {
    w > 0 && forall i :: 0 <= i < |cache| ==> |cache[i]| == w
  }

  predicate AllValid<H>(segs: seq<Segment<H>>) {
    forall b :: 0 <= b < |segs| ==> segs[b].Valid()
  }

  /** Every request's segment is stored in its own row and no other row changes. */
  ghost predicate StoresEach<H, T>(project: Projection<H, T>, before: seq<seq<T>>, after: seq<seq<T>>,
                                   segs: seq<Segment<H>>, slots: seq<nat>, w: nat)
    requires Rings(before, w) && DistinctRows(slots, |before|) && |segs| == |slots| && AllValid(segs)
  {
    && |after| == |before|
    && (forall b :: 0 <= b < |segs| ==> after[slots[b]] == RowAfter(project, before[slots[b]], segs[b]))
    && (forall r :: 0 <= r < |before| && r !in slots ==> after[r] == before[r])
  }

  /** after's row 'slot' is before's with the segment stored in it. */
  ghost predicate StoredIn<H, T>(project: Projection<H, T>, before: seq<seq<T>>, after: seq<seq<T>>, slot: nat,
                                 seg: Segment<H>) {
    && slot < |before| == |after| && |before[slot]| > 0 && seg.Valid()
    && after[slot] == RowAfter(project, before[slot], seg)
  }

  /**
    The stored cache is determined by the segments and their slots, so neither the order nor the path of the
    stores matters.
   */
  lemma StoresEachIsUnique<H, T>(project: Projection<H, T>, before: seq<seq<T>>, a: seq<seq<T>>, b: seq<seq<T>>,
                                 segs: seq<Segment<H>>, slots: seq<nat>, w: nat)
    requires Rings(before, w) && DistinctRows(slots, |before|) && |segs| == |slots| && AllValid(segs)
    requires StoresEach(project, before, a, segs, slots, w) && StoresEach(project, before, b, segs, slots, w)
    ensures a == b
  {
    hide RowAfter;
    forall r | 0 <= r < |before|
      ensures a[r] == b[r]
    {
      if r in slots {
        var i :| 0 <= i < |slots| && slots[i] == r;
        assert a[slots[i]] == b[slots[i]];
      }
    }
  }

  /** Storing request b on top of the requests before it. */
  lemma StoreNext<H, T>(project: Projection<H, T>, before: seq<seq<T>>, now: seq<seq<T>>,
                        segs: seq<Segment<H>>, slots: seq<nat>, b: nat, w: nat)
    requires Rings(before, w) && DistinctRows(slots, |before|) && |segs| == |slots| && AllValid(segs) && b < |segs|
    requires DistinctRows(slots[..b], |before|) && AllValid(segs[..b])
    requires StoresEach(project, before, now, segs[..b], slots[..b], w)
    ensures Rings(now, w) && now[slots[b]] == before[slots[b]]
    ensures DistinctRows(slots[..b + 1], |before|) && AllValid(segs[..b + 1])
    ensures StoresEach(project, before, now[slots[b] := RowAfter(project, now[slots[b]], segs[b])],
                       segs[..b + 1], slots[..b + 1], w)
  {
    hide RowAfter;
    forall r | 0 <= r < |now|
      ensures |now[r]| == w
    {
      if r in slots[..b] {
        var i :| 0 <= i < b && slots[..b][i] == r;
        assert now[slots[..b][i]] == RowAfter(project, before[r], segs[..b][i]);
      }
    }
    assert forall i :: 0 <= i < b ==> slots[..b][i] == slots[i] != slots[b];
    assert slots[b] !in slots[..b];
    var someSlots, someSegs := slots[..b + 1], segs[..b + 1];
    assert someSlots == slots[..b] + [slots[b]];
    assert someSegs == segs[..b] + [segs[b]];
    var after := now[slots[b] := RowAfter(project, now[slots[b]], segs[b])];
    forall i | 0 <= i < |someSegs|
      ensures after[someSlots[i]] == RowAfter(project, before[someSlots[i]], someSegs[i])
    {
      if i < b {
        assert now[slots[..b][i]] == RowAfter(project, before[slots[..b][i]], segs[..b][i]);
      }
    }
  }

  /** The places of a store, read off the slot index itself. */
  lemma StoredPlaces<H, T>(project: Projection<H, T>, before: seq<seq<T>>, after: seq<seq<T>>, segs: seq<Segment<H>>,
                           slotIndex: Option<seq<nat>>, w: nat)
    requires slotIndex.Some? ==> |slotIndex.value| == |segs|
    requires Rings(before, w) && AllValid(segs) && DistinctRows(SlotsOf(slotIndex, |segs|), |before|)
    requires StoresEach(project, before, after, segs, SlotsOf(slotIndex, |segs|), w)
    ensures |after| == |before|
    ensures forall b :: 0 <= b < |segs| ==>
              StoredIn(project, before, after, if slotIndex.Some? then slotIndex.value[b] else b, segs[b])
    ensures forall r :: 0 <= r < |before| && (if slotIndex.Some? then r !in slotIndex.value else r >= |segs|) ==>
              after[r] == before[r]
  {
    hide RowAfter;
  }

  lemma OffsetFits(starts: seq<nat>, total: nat, b: nat)
    requires Offsets(starts, total) && b + 1 < |starts|
    ensures starts[b] <= starts[b + 1] <= total
  {
  }

  lemma StoresNone<H, T>(project: Projection<H, T>, now: seq<seq<T>>, w: nat)
    requires Rings(now, w)
    ensures DistinctRows([], |now|) && StoresEach<H, T>(project, now, now, [], [], w)
  {
  }

  lemma SingleStore<H, T>(project: Projection<H, T>, now: seq<seq<T>>, after: seq<seq<T>>, seg: Segment<H>, slot: nat,
                          w: nat)
    requires Rings(now, w) && slot < |now| && seg.Valid()
    requires StoresEach(project, now, after, [seg], [slot], w)
    ensures after == now[slot := RowAfter(project, now[slot], seg)]
  {
    hide RowAfter;
    assert after[[slot][0]] == RowAfter(project, now[[slot][0]], [seg][0]);
    forall r | 0 <= r < |now| && r != slot
      ensures after[r] == now[r]
    {
      assert r !in [slot];
    }
  }

  lemma StoredRings<H, T>(project: Projection<H, T>, before: seq<seq<T>>, after: seq<seq<T>>,
                          segs: seq<Segment<H>>, slots: seq<nat>, w: nat)
    requires Rings(before, w) && DistinctRows(slots, |before|) && |segs| == |slots| && AllValid(segs)
    requires StoresEach(project, before, after, segs, slots, w)
    ensures Rings(after, w)
  {
    hide RowAfter;
    forall r | 0 <= r < |after|
      ensures |after[r]| == w
    {
      if r in slots {
        var i :| 0 <= i < |slots| && slots[i] == r;
        assert after[slots[i]] == RowAfter(project, before[slots[i]], segs[i]);
      }
    }
  }

  lemma EmptySegmentStores<H, T>(project: Projection<H, T>, row: seq<T>, seg: Segment<H>)
    requires |row| > 0 && seg.Valid() && seg.xs == []
    ensures RowAfter(project, row, seg) == row
  {
  }

  /** A permutation of the requests, slots and segments alike, describes the same store. */
  lemma StoreOrderIsIrrelevant<H, T>(project: Projection<H, T>, before: seq<seq<T>>, after: seq<seq<T>>,
                                     segs: seq<Segment<H>>, slots: seq<nat>,
                                     segs': seq<Segment<H>>, slots': seq<nat>, order: seq<nat>, w: nat)
    requires Rings(before, w) && DistinctRows(slots, |before|) && |segs| == |slots| && AllValid(segs)
    requires |order| == |segs| == |segs'| == |slots'| && DistinctRows(order, |segs|)
    requires forall i :: 0 <= i < |order| ==> segs'[i] == segs[order[i]] && slots'[i] == slots[order[i]]
    requires forall b :: 0 <= b < |segs| ==> b in order
    requires StoresEach(project, before, after, segs, slots, w)
    ensures DistinctRows(slots', |before|) && AllValid(segs')
    ensures StoresEach(project, before, after, segs', slots', w)
  {
    hide RowAfter;
    forall i, j | 0 <= i < j < |slots'|
      ensures slots'[i] != slots'[j]
    {
      assert order[i] != order[j];
      if order[i] < order[j] {
        assert slots[order[i]] != slots[order[j]];
      } else {
        assert slots[order[j]] != slots[order[i]];
      }
    }
    forall b | 0 <= b < |slots|
      ensures slots[b] in slots'
    {
      assert b in order;
      var i :| 0 <= i < |order| && order[i] == b;
      assert slots'[i] == slots[b];
    }
  }

  // ---- Segments of the two layouts ----

  function RejectedAt(rejected: Option<seq<nat>>, i: nat): Option<nat>
    requires rejected.Some? ==> i < |rejected.value|
  {
    if rejected.Some? then Some(rejected.value[i]) else None
  }

  /** The rows of a rectangular batch. */
  function RectSegments<H>(xs: seq<seq<H>>, positions: seq<seq<nat>>, rejected: Option<seq<nat>>)
        : (segs: seq<Segment<H>>)
    requires |xs| == |positions| && (rejected.Some? ==> |rejected.value| == |xs|)
    ensures |segs| == |xs|
    ensures forall b :: 0 <= b < |segs| ==> segs[b] == Segment(xs[b], positions[b], RejectedAt(rejected, b))
  {
    seq(|xs|, b requires 0 <= b < |xs| => Segment(xs[b], positions[b], RejectedAt(rejected, b)))
  }

  /** Segment offsets of a flat batch: from 0 to total, never descending. */
  predicate Offsets(starts: seq<nat>, total: nat) {
    && |starts| >= 1 && starts[0] == 0 && starts[|starts| - 1] == total
    && forall i, j :: 0 <= i <= j < |starts| ==> starts[i] <= starts[j]
  }

  /** The rows of a flat batch cut at its offsets. */
  function FlatSegments<H>(xs: seq<H>, positions: seq<nat>, starts: seq<nat>, rejected: Option<seq<nat>>)
        : (segs: seq<Segment<H>>)
    requires |xs| == |positions| && Offsets(starts, |xs|)
    requires rejected.Some? ==> |rejected.value| == |starts| - 1
    ensures |segs| == |starts| - 1 && AllValid(segs)
    ensures forall b :: 0 <= b < |segs| ==>
              segs[b] == Segment(xs[starts[b]..starts[b + 1]], positions[starts[b]..starts[b + 1]],
                  RejectedAt(rejected, b))
  {
    seq(|starts| - 1, b requires 0 <= b < |starts| - 1 =>
      Segment(xs[starts[b]..starts[b + 1]], positions[starts[b]..starts[b + 1]], RejectedAt(rejected, b)))
  }

  predicate Rectangular<X>(xs: seq<seq<X>>, len: nat) {
    forall b :: 0 <= b < |xs| ==> |xs[b]| == len
  }

  // ---- The cache object ----

  class Cache<T(0)> {
    const window: nat
    const rows: array<seq<T>>

    ghost predicate Valid()
      reads rows
    {
      Rings(rows[..], window)
    }

    constructor (maxBatch: nat, window: nat, zero: T)
      requires window > 0
      ensures Valid() && fresh(rows) && this.window == window && rows.Length == maxBatch
    {
      this.window := window;
      rows := new seq<T>[maxBatch](i => seq(window, _ => zero));
    }

    /** Projects, masks and scatters one batch row into a gathered cache row. */
    method UpdateRow<H>(project: Projection<H, T>, row: seq<T>, seg: Segment<H>) returns (out: seq<T>)
      requires |row| > 0 && seg.Valid()
      ensures out == RowAfter(project, row, seg)
    {
      hide Slot, Scatter, MaskedValues;
      var xs, positions := seg.xs, seg.positions;
      if |xs| > |row| {
        xs, positions := xs[|xs| - |row|..], positions[|positions| - |row|..];
      }
      var values := ProjectMasked(project, row, xs, positions, seg.rejected);
      out := ScatterRow(row, positions, values);
    }

    /** Projected entries, with the row's own entries where the mask rejects. */
    method ProjectMasked<H>(project: Projection<H, T>, row: seq<T>, xs: seq<H>, positions: seq<nat>,
                            rejected: Option<nat>)
      returns (values: seq<T>)
      requires |row| > 0 && |xs| == |positions|
      ensures values == MaskedValues(row, positions, Project(project, xs, positions), rejected)
    {
      hide Slot;
      var seqLen := |xs|;
      ghost var kv := Project(project, xs, positions);
      values := [];
      for i := 0 to seqLen
        invariant values == MaskedValues(row, positions, kv, rejected)[..i]
      {
        if rejected.Some? && i >= ValidLength(seqLen, rejected.value) {
          values := values + [row[Slot(positions[i], |row|)]];
        } else {
          values := values + [project(xs[i], positions[i])];
        }
      }
    }

    method ScatterRow(row: seq<T>, positions: seq<nat>, values: seq<T>) returns (out: seq<T>)
      requires |row| > 0 && |positions| == |values|
      ensures out == Scatter(row, positions, values, |positions|)
    {
      hide Slot;
      out := row;
      for i := 0 to |positions|
        invariant out == Scatter(row, positions, values, i)
      {
        out := out[Slot(positions[i], |row|) := values[i]];
      }
    }

    /** store_main_kv: gather the rows of the batch, update each, copy them back. */
    method StoreMainKv<H>(project: Projection<H, T>, xs: seq<seq<H>>, positions: seq<seq<nat>>, ghost len: nat,
                          rejected: Option<seq<nat>>, slotIndex: Option<seq<nat>>)
      requires Valid() && |xs| == |positions| && Rectangular(xs, len) && Rectangular(positions, len)
      requires rejected.Some? ==> |rejected.value| == |xs|
      requires slotIndex.Some? ==> |slotIndex.value| == |xs|
      requires DistinctRows(SlotsOf(slotIndex, |xs|), rows.Length)
      modifies rows
      ensures Valid()
      ensures AllValid(RectSegments(xs, positions, rejected))
      ensures StoresEach(project, old(rows[..]), rows[..], RectSegments(xs, positions, rejected),
              SlotsOf(slotIndex, |xs|), window)
      ensures forall b :: 0 <= b < |xs| ==>
                StoredIn(project, old(rows[..]), rows[..], if slotIndex.Some? then slotIndex.value[b] else b,
                         Segment(xs[b], positions[b], if rejected.Some? then Some(rejected.value[b]) else None))
      ensures forall r :: 0 <= r < rows.Length && (if slotIndex.Some? then r !in slotIndex.value else r >= |xs|) ==>
                rows[r] == old(rows[r])
    {
      var slots := SlotsOf(slotIndex, |xs|);
      var segs := RectSegments(xs, positions, rejected);
      hide RowAfter;
      assert slots[..0] == [] && segs[..0] == [];
      for b := 0 to |xs|
        invariant DistinctRows(slots[..b], rows.Length) && AllValid(segs[..b])
        invariant StoresEach(project, old(rows[..]), rows[..], segs[..b], slots[..b], window)
      {
        StoreNext(project, old(rows[..]), rows[..], segs, slots, b, window);
        ghost var now := rows[..];
        var updated := UpdateRow(project, rows[slots[b]], segs[b]);
        rows[slots[b]] := updated;
        assert rows[..] == now[slots[b] := updated];
      }
      assert slots[..|xs|] == slots && segs[..|xs|] == segs;
      StoredRings(project, old(rows[..]), rows[..], segs, slots, window);
      StoredPlaces(project, old(rows[..]), rows[..], segs, slotIndex, window);
    }

    /** A single-request store with an explicit slot. */
    method StoreSegment<H>(project: Projection<H, T>, seg: Segment<H>, slot: nat)
      requires Valid() && seg.Valid() && slot < rows.Length
      modifies rows
      ensures Valid() && rows[..] == old(rows[..])[slot := RowAfter(project, old(rows[slot]), seg)]
    {
      hide RowAfter;
      var rejected := if seg.rejected.Some? then Some([seg.rejected.value]) else None;
      ghost var now := rows[..];
      StoreMainKv(project, [seg.xs], [seg.positions], |seg.xs|, rejected, Some([slot]));
      assert RectSegments([seg.xs], [seg.positions], rejected) == [seg];
      SingleStore(project, now, rows[..], seg, slot, window);
    }

    /** One segment of a flat batch; an empty one stores nothing. */
    method StoreFlatSegment<H>(project: Projection<H, T>, xs: seq<H>, positions: seq<nat>, start: nat, end: nat,
                               rejected: Option<nat>, slot: nat)
      requires Valid() && |xs| == |positions| && start <= end <= |xs| && slot < rows.Length
      modifies rows
      ensures Valid()
      ensures rows[..] == old(rows[..])[slot :=
              RowAfter(project, old(rows[slot]), Segment(xs[start..end], positions[start..end], rejected))]
    {
      hide RowAfter;
      if start < end {
        StoreSegment(project, Segment(xs[start..end], positions[start..end], rejected), slot);
      } else {
        EmptySegmentStores(project, rows[slot], Segment(xs[start..end], positions[start..end], rejected));
        assert rows[..] == rows[..][slot := rows[slot]];
      }
    }

    /** _prefill_main_ragged: one single-row store per non-empty segment. */
    method PrefillMainRagged<H>(project: Projection<H, T>, xs: seq<H>, positions: seq<nat>, starts: seq<nat>,
                                rejected: Option<seq<nat>>, slotIndex: Option<seq<nat>>)
      requires Valid() && |xs| == |positions| && Offsets(starts, |xs|)
      requires rejected.Some? ==> |rejected.value| == |starts| - 1
      requires slotIndex.Some? ==> |slotIndex.value| == |starts| - 1
      requires DistinctRows(SlotsOf(slotIndex, |starts| - 1), rows.Length)
      modifies rows
      ensures Valid()
      ensures StoresEach(project, old(rows[..]), rows[..], FlatSegments(xs, positions, starts, rejected),
                         SlotsOf(slotIndex, |starts| - 1), window)
      ensures forall b {:trigger starts[b]} :: 0 <= b < |starts| - 1 ==>
                && starts[b] <= starts[b + 1] <= |xs|
                && StoredIn(project, old(rows[..]), rows[..], if slotIndex.Some? then slotIndex.value[b] else b,
                            Segment(xs[starts[b]..starts[b + 1]], positions[starts[b]..starts[b + 1]],
                                    if rejected.Some? then Some(rejected.value[b]) else None))
      ensures forall r :: 0 <= r < rows.Length
                          && (if slotIndex.Some? then r !in slotIndex.value else r >= |starts| - 1) ==>
                            rows[r] == old(rows[r])
    {
      hide RowAfter, StoresEach, Rings, DistinctRows, Offsets, StoredIn;
      var batchSize := |starts| - 1;
      ghost var slots := SlotsOf(slotIndex, batchSize);
      ghost var segs := FlatSegments(xs, positions, starts, rejected);
      StoresNone<H, T>(project, rows[..], window);
      assert slots[..0] == [] && segs[..0] == [];
      for b := 0 to batchSize
        invariant Valid() && DistinctRows(slots[..b], rows.Length) && AllValid(segs[..b])
        invariant StoresEach(project, old(rows[..]), rows[..], segs[..b], slots[..b], window)
      {
        StoreRequest(project, xs, positions, starts, rejected, slotIndex, b, old(rows[..]));
      }
      assert slots[..batchSize] == slots && segs[..batchSize] == segs;
      StoredPlaces(project, old(rows[..]), rows[..], segs, slotIndex, window);
      forall b {:trigger starts[b]} | 0 <= b < batchSize
        ensures starts[b] <= starts[b + 1] <= |xs|
        ensures StoredIn(project, old(rows[..]), rows[..], if slotIndex.Some? then slotIndex.value[b] else b,
                         Segment(xs[starts[b]..starts[b + 1]], positions[starts[b]..starts[b + 1]],
                                 if rejected.Some? then Some(rejected.value[b]) else None))
      {
        OffsetFits(starts, |xs|, b);
        assert segs[b] == Segment(xs[starts[b]..starts[b + 1]], positions[starts[b]..starts[b + 1]],
                                  if rejected.Some? then Some(rejected.value[b]) else None);
        assert StoredIn(project, old(rows[..]), rows[..], if slotIndex.Some? then slotIndex.value[b] else b, segs[b]);
      }
    }

    /** The loop body: request b of a flat batch goes to its own row. */
    method StoreRequest<H>(project: Projection<H, T>, xs: seq<H>, positions: seq<nat>, starts: seq<nat>,
                           rejected: Option<seq<nat>>, slotIndex: Option<seq<nat>>, b: nat, ghost before: seq<seq<T>>)
      requires Valid() && |xs| == |positions| && Offsets(starts, |xs|) && b < |starts| - 1
      requires rejected.Some? ==> |rejected.value| == |starts| - 1
      requires slotIndex.Some? ==> |slotIndex.value| == |starts| - 1
      requires |before| == rows.Length && Rings(before, window)
               && DistinctRows(SlotsOf(slotIndex, |starts| - 1), rows.Length)
      requires var slots, segs := SlotsOf(slotIndex, |starts| - 1), FlatSegments(xs, positions, starts, rejected);
               && DistinctRows(slots[..b], rows.Length) && AllValid(segs[..b])
               && StoresEach(project, before, rows[..], segs[..b], slots[..b], window)
      modifies rows
      ensures Valid()
      ensures var slots, segs := SlotsOf(slotIndex, |starts| - 1), FlatSegments(xs, positions, starts, rejected);
              && DistinctRows(slots[..b + 1], rows.Length) && AllValid(segs[..b + 1])
              && StoresEach(project, before, rows[..], segs[..b + 1], slots[..b + 1], window)
    {
      hide RowAfter, StoresEach, Rings;
      ghost var slots := SlotsOf(slotIndex, |starts| - 1);
      ghost var segs := FlatSegments(xs, positions, starts, rejected);
      StoreNext(project, before, rows[..], segs, slots, b, window);
      var slot := if slotIndex.Some? then slotIndex.value[b] else b;
      StoreFlatSegment(project, xs, positions, starts[b], starts[b + 1], RejectedAt(rejected, b), slot);
    }
  }

  /**
    On a batch of equal lengths the flat layout and the rectangular layout cut the same segments, so both stores
    agree.
   */
  lemma RaggedEqualsRectangular<H>(xs: seq<H>, positions: seq<nat>, starts: seq<nat>, len: nat,
                                   rejected: Option<seq<nat>>,
                                   rectXs: seq<seq<H>>, rectPositions: seq<seq<nat>>)
    requires |xs| == |positions| && Offsets(starts, |xs|)
    requires rejected.Some? ==> |rejected.value| == |starts| - 1
    requires forall b :: 0 <= b < |starts| - 1 ==> starts[b + 1] - starts[b] == len
    requires |rectXs| == |rectPositions| == |starts| - 1
    requires forall b :: 0 <= b < |rectXs| ==> rectXs[b] == View(xs, len, b)
    requires forall b :: 0 <= b < |rectXs| ==> rectPositions[b] == View(positions, len, b)
    ensures RectSegments(rectXs, rectPositions, rejected) == FlatSegments(xs, positions, starts, rejected)
  {
    var flat := FlatSegments(xs, positions, starts, rejected);
    var rect := RectSegments(rectXs, rectPositions, rejected);
    forall b | 0 <= b < |rect|
      ensures rect[b] == flat[b]
    {
      UniformOffset(starts, |xs|, len, b);
      UniformOffset(starts, |xs|, len, b + 1);
    }
  }

  /** Row b of a flat tensor viewed with rows of the given length; empty past the end. */
  function View<X>(xs: seq<X>, len: nat, b: nat): seq<X> {
    if b * len <= (b + 1) * len <= |xs| then xs[b * len..(b + 1) * len] else []
  }

  lemma {:induction false} UniformOffset(starts: seq<nat>, total: nat, len: nat, b: nat)
    requires Offsets(starts, total) && b < |starts|
    requires forall i :: 0 <= i < |starts| - 1 ==> starts[i + 1] - starts[i] == len
    ensures starts[b] == b * len
  {
    if b > 0 {
      UniformOffset(starts, total, len, b - 1);
      assert starts[b - 1 + 1] - starts[b - 1] == len;
      assert b * len == (b - 1) * len + len;
    }
  }

  // ---- The exact reach of the rejection mask ----

  function Positions(base: nat, len: nat): (p: seq<nat>)
    ensures |p| == len && Contiguous(p, base)
  {
    seq(len, i => base + i)
  }

  function Keep(x: int, position: nat): int {
    x
  }

  /** Storing with the mask and trimming before the store agree on this row and this segment. */
  predicate MaskAgrees(row: seq<int>, xs: seq<int>, base: nat, r: nat)
    requires |row| > 0
  {
    var seg := Segment(xs, Positions(base, |xs|), Some(r));
    RowAfter(Keep, row, seg) == RowAfter(Keep, row, Trim(seg))
  }

  /**
    The mask agrees with trimming for every content exactly when nothing is rejected or the segment
    fits the window. For longer segments the mask is applied after the cut to the last W columns, so
    the window loses its oldest entries.
   */
  lemma MaskAgreesIff(w: nat, len: nat, base: nat, r: nat)
    requires w > 0 && r < len
    ensures (r == 0 || len <= w)
            <==> forall row: seq<int>, xs: seq<int> | |row| == w && |xs| == len :: MaskAgrees(row, xs, base, r)
  {
    if r == 0 || len <= w {
      forall row: seq<int>, xs: seq<int> | |row| == w && |xs| == len
        ensures MaskAgrees(row, xs, base, r)
      {
        MaskedStoreIsTrimmedStore(Keep, row, Segment(xs, Positions(base, len), Some(r)), base);
      }
    } else {
      var row, xs := LostEntry(w, len, base, r);
      assert !MaskAgrees(row, xs, base, r);
    }
  }

  /** One marked entry among zeros: the oldest accepted entry of the window, which the mask drops. */
  lemma LostEntry(w: nat, len: nat, base: nat, r: nat) returns (row: seq<int>, xs: seq<int>)
    requires 0 < w < len && 0 < r < len
    ensures |row| == w && |xs| == len && !MaskAgrees(row, xs, base, r)
  {
    hide Slot, RowAfter, HasWindow;
    var m := if len - r > w then len - r - w else 0;
    row := seq(w, _ => 0);
    xs := seq(len, i => if i == m then 1 else 0);
    var seg := Segment(xs, Positions(base, len), Some(r));
    TrimmedKeeps(row, seg, base, m);
    MaskedLoses(row, seg, m);
  }

  lemma TrimmedKeeps(row: seq<int>, seg: Segment<int>, base: nat, m: nat)
    requires |row| > 0 && seg.Valid() && Contiguous(seg.positions, base)
    requires seg.rejected.Some? && seg.rejected.value < |seg.xs|
    requires m < |seg.xs| - seg.rejected.value <= m + |row| && seg.xs[m] == 1
    ensures RowAfter(Keep, row, Trim(seg))[SlotOf(base, m, |row|)] == 1
  {
    hide Slot, RowAfter;
    var t := Trim(seg);
    assert HasWindow(row, base, []);
    TrimIsContiguous(seg, base);
    StoreExtendsWindow(Keep, row, t, base, []);
    var kv := Project(Keep, t.xs, t.positions);
    assert Trim(t) == t;
    assert [] + kv == kv && kv[m] == 1;
  }

  lemma MaskedLoses(row: seq<int>, seg: Segment<int>, m: nat)
    requires 0 < |row| < |seg.xs| && seg.Valid() && seg.rejected.Some? && m < |seg.xs| - |row|
    requires forall i :: 0 <= i < |row| ==> row[i] == 0
    requires forall i :: 0 <= i < |seg.xs| && i != m ==> seg.xs[i] == 0
    ensures var out := RowAfter(Keep, row, seg); forall i :: 0 <= i < |row| ==> out[i] == 0
  {
    hide Slot;
    var ps, xs := Last(seg.positions, |row|), Last(seg.xs, |row|);
    var values := MaskedValues(row, ps, Project(Keep, xs, ps), seg.rejected);
    forall i | 0 <= i < |values|
      ensures values[i] == 0
    {
      assert xs[i] == seg.xs[|seg.xs| - |row| + i];
    }
    ZerosStay(row, ps, values, |ps|);
  }

  lemma {:induction false} ZerosStay(row: seq<int>, ps: seq<nat>, values: seq<int>, n: nat)
    requires |row| > 0 && n <= |ps| == |values|
    requires (forall i :: 0 <= i < |row| ==> row[i] == 0) && forall i :: 0 <= i < |values| ==> values[i] == 0
    ensures forall i :: 0 <= i < |row| ==> Scatter(row, ps, values, n)[i] == 0
  {
    if n > 0 {
      ZerosStay(row, ps, values, n - 1);
    }
  }
}
