/**
  The draft model's key/value window (store_main_kv and _prefill_main_ragged of nvidia/dspark.py):
  one ring of W entries per cache row, indexed by position modulo W.
  H is the type of a hidden state and T the type of a cache entry; the projection from one to the
  other is a parameter.
 */
module DraftWindow {
  import opened Wrappers
  import opened Division

  type Projection<!H, !T> = (H, nat) -> T

  /** The rows of one request in a step: hidden states, their positions and the rejected-suffix count of the mask. */
  datatype Segment<H> = Segment(xs: seq<H>, positions: seq<nat>, rejected: Option<nat>) {
    predicate Valid() {
      |xs| == |positions|
    }
  }

  // ---- What a store does to one row ----

  function Project<H, T>(project: Projection<H, T>, xs: seq<H>, positions: seq<nat>): (kv: seq<T>)
    requires |xs| == |positions|
    ensures |kv| == |xs|
    ensures forall i :: 0 <= i < |kv| ==> kv[i] == project(xs[i], positions[i])
  {
    seq(|xs|, i requires 0 <= i < |xs| => project(xs[i], positions[i]))
  }

  /** The ring slot of a position. */
  function Slot(position: nat, w: nat): (s: nat)
    requires w > 0
    ensures s < w
  {
    position % w
  }

  function SlotOf(base: nat, i: nat, w: nat): (s: nat)
    requires w > 0
    ensures s < w
  {
    Slot(base + i, w)
  }

  /** Entries values[i] written at ring slot positions[i] % W, in order. */
  function Scatter<T>(row: seq<T>, positions: seq<nat>, values: seq<T>, n: nat): (out: seq<T>)
    requires |row| > 0 && n <= |positions| && n <= |values|
    ensures |out| == |row|
  {
    if n == 0 then row
    else Scatter(row, positions, values, n - 1)[Slot(positions[n - 1], |row|) := values[n - 1]]
  }

  function Last<X>(s: seq<X>, w: nat): (r: seq<X>)
    ensures |r| == if |s| > w then w else |s|
  {
    if |s| > w then s[|s| - w..] else s
  }

  /** (len - rejected).clamp(min=1, max=len). */
  function ValidLength(len: nat, rejected: nat): (n: nat)
    ensures n <= len && (len > 0 ==> n >= 1)
    ensures 0 < len && rejected < len ==> n == len - rejected
    ensures 0 < len <= rejected ==> n == 1
  {
    if len == 0 then 0 else if rejected >= len then 1 else len - rejected
  }

  /** The values scattered into the row: projected entries, and the row's own entries where the mask rejects. */
  function MaskedValues<T>(row: seq<T>, positions: seq<nat>, kv: seq<T>, rejected: Option<nat>): (values: seq<T>)
    requires |row| > 0 && |kv| == |positions|
    ensures |values| == |kv|
  {
    if rejected.None? then kv
    else
      seq(|kv|, i requires 0 <= i < |kv| =>
        if i < ValidLength(|kv|, rejected.value) then kv[i] else row[Slot(positions[i], |row|)])
  }

  /** store_main_kv on one row: keep the last W columns, project, mask, scatter. */
  function RowAfter<H, T>(project: Projection<H, T>, row: seq<T>, seg: Segment<H>): (out: seq<T>)
    requires |row| > 0 && seg.Valid()
    ensures |out| == |row|
  {
    var xs, positions := Last(seg.xs, |row|), Last(seg.positions, |row|);
    var values := MaskedValues(row, positions, Project(project, xs, positions), seg.rejected);
    Scatter(row, positions, values, |positions|)
  }

  predicate DistinctSlots(positions: seq<nat>, w: nat)
    requires w > 0
  {
    forall i, j :: 0 <= i < j < |positions| ==> positions[i] % w != positions[j] % w
  }

  lemma {:induction false} ScatterAt<T>(row: seq<T>, positions: seq<nat>, values: seq<T>, n: nat)
    requires |row| > 0 && n <= |positions| == |values| && DistinctSlots(positions, |row|)
    ensures forall i :: 0 <= i < n ==> Scatter(row, positions, values, n)[positions[i] % |row|] == values[i]
    ensures forall s :: 0 <= s < |row| && (forall i :: 0 <= i < n ==> positions[i] % |row| != s) ==>
              Scatter(row, positions, values, n)[s] == row[s]
  {
    if n > 0 {
      ScatterAt(row, positions, values, n - 1);
    }
  }

  /** Entry i of the last W columns, under the mask if there is one; the mask always keeps the first of them. */
  function Stored<H, T>(project: Projection<H, T>, row: seq<T>, xs: seq<H>, positions: seq<nat>, rejected: Option<nat>,
                        i: nat): T
    requires |row| > 0 && |xs| == |positions| && i < |xs|
  {
    if rejected.Some? && i >= 1 && i >= |xs| - rejected.value then row[positions[i] % |row|]
    else project(xs[i], positions[i])
  }

  /** What every slot of a row holds after a store of positions that fall on different slots. */
  lemma RowAfterEntries<H, T>(project: Projection<H, T>, row: seq<T>, seg: Segment<H>)
    requires |row| > 0 && seg.Valid()
    requires var cut := if |seg.xs| > |row| then |seg.xs| - |row| else 0;
             DistinctSlots(seg.positions[cut..], |row|)
    ensures var cut := if |seg.xs| > |row| then |seg.xs| - |row| else 0;
            var xs, positions := seg.xs[cut..], seg.positions[cut..];
            && (forall i :: 0 <= i < |xs| ==>
                  RowAfter(project, row, seg)[positions[i] % |row|]
                      == Stored(project, row, xs, positions, seg.rejected, i))
            && forall s :: 0 <= s < |row| && (forall i :: 0 <= i < |positions| ==> positions[i] % |row| != s) ==>
                 RowAfter(project, row, seg)[s] == row[s]
  {
    hide Scatter, MaskedValues, Stored, DistinctSlots;
    var cut := if |seg.xs| > |row| then |seg.xs| - |row| else 0;
    var xs, positions := seg.xs[cut..], seg.positions[cut..];
    assert xs == Last(seg.xs, |row|) && positions == Last(seg.positions, |row|);
    ScatterAt(row, positions, MaskedValues(row, positions, Project(project, xs, positions), seg.rejected), |positions|);
    StoredValues(project, row, xs, positions, seg.rejected);
  }

  lemma StoredValues<H, T>(project: Projection<H, T>, row: seq<T>, xs: seq<H>, positions: seq<nat>,
                           rejected: Option<nat>)
    requires |row| > 0 && |xs| == |positions|
    ensures var values := MaskedValues(row, positions, Project(project, xs, positions), rejected);
            forall i :: 0 <= i < |xs| ==> values[i] == Stored(project, row, xs, positions, rejected, i)
  {
  }

  // ---- The ring as a window over a history ----

  /** Positions base, base + 1, ... */
  predicate Contiguous(positions: seq<nat>, base: nat) {
    forall i :: 0 <= i < |positions| ==> positions[i] == base + i
  }

  /** A run of entries for positions base, base + 1, ... written one after the other. */
  function StoreRun<T>(row: seq<T>, base: nat, kv: seq<T>, n: nat): (out: seq<T>)
    requires |row| > 0 && n <= |kv|
    ensures |out| == |row|
  {
    if n == 0 then row else StoreRun(row, base, kv, n - 1)[SlotOf(base, n - 1, |row|) := kv[n - 1]]
  }

  /** Positions less than W apart have different slots. */
  lemma SlotsDiffer(p: nat, q: nat, w: nat)
    requires w > 0 && p < q < p + w
    ensures Slot(p, w) != Slot(q, w)
  {
    var a, r := p / w, p % w;
    var d := q - p;
    if r + d < w {
      DivMod(q, w, a, r + d);
    } else {
      assert w * (a + 1) == w * a + w;
      DivMod(q, w, a + 1, r + d - w);
    }
  }

  lemma OffsetsDiffer(base: nat, i: nat, j: nat, w: nat)
    requires w > 0 && i < j < i + w
    ensures SlotOf(base, i, w) != SlotOf(base, j, w)
  {
    SlotsDiffer(base + i, base + j, w);
  }

  /** Slot contents after a run of at most W entries: the entry whose position falls on the slot, or the old one. */
  lemma {:induction false} StoreRunAt<T>(row: seq<T>, base: nat, kv: seq<T>, n: nat, s: nat)
    requires |row| > 0 && n <= |kv| && n <= |row| && s < |row|
    ensures forall i :: 0 <= i < n && SlotOf(base, i, |row|) == s ==> StoreRun(row, base, kv, n)[s] == kv[i]
    ensures (forall i :: 0 <= i < n ==> SlotOf(base, i, |row|) != s) ==> StoreRun(row, base, kv, n)[s] == row[s]
  {
    hide Slot, SlotOf;
    if n > 0 {
      StoreRunAt(row, base, kv, n - 1, s);
      forall i | 0 <= i < n - 1
        ensures SlotOf(base, i, |row|) != SlotOf(base, n - 1, |row|)
      {
        OffsetsDiffer(base, i, n - 1, |row|);
      }
    }
  }

  /** The first entries of a run longer than W are overwritten by the rest. */
  lemma {:induction false} LongRunKeepsLast<T>(row: seq<T>, base: nat, kv: seq<T>, n: nat)
    requires |row| > 0 && |row| <= n <= |kv|
    ensures StoreRun(row, base, kv, n) == StoreRun(row, base + n - |row|, kv[n - |row|..], |row|)
  {
    hide Slot;
    var w := |row|;
    var m := n - w;
    var mid := StoreRun(row, base, kv, m);
    RunSplits(row, base, kv, m, n);
    FullRunForgets(mid, row, base + m, kv[m..]);
  }

  lemma {:induction false} RunSplits<T>(row: seq<T>, base: nat, kv: seq<T>, m: nat, n: nat)
    requires |row| > 0 && m <= n <= |kv|
    ensures StoreRun(row, base, kv, n) == StoreRun(StoreRun(row, base, kv, m), base + m, kv[m..], n - m)
    decreases n
  {
    hide Slot;
    if m < n {
      RunSplits(row, base, kv, m, n - 1);
      assert kv[m..][n - m - 1] == kv[n - 1];
    }
  }

  /** W consecutive positions hit every slot. */
  lemma SlotIsHit(base: nat, w: nat, s: nat) returns (i: nat)
    requires s < w
    ensures i < w && SlotOf(base, i, w) == s
  {
    var b := base % w;
    i := if s >= b then s - b else s - b + w;
    assert base == w * (base / w) + b;
    if s >= b {
      DivMod(base + i, w, base / w, s);
    } else {
      assert w * (base / w + 1) == w * (base / w) + w;
      DivMod(base + i, w, base / w + 1, s);
    }
  }

  lemma FullRunForgets<T>(row: seq<T>, other: seq<T>, base: nat, kv: seq<T>)
    requires |row| == |other| > 0 && |kv| >= |row|
    ensures StoreRun(row, base, kv, |row|) == StoreRun(other, base, kv, |row|)
  {
    hide Slot, SlotOf;
    forall s | 0 <= s < |row|
      ensures StoreRun(row, base, kv, |row|)[s] == StoreRun(other, base, kv, |row|)[s]
    {
      var i := SlotIsHit(base, |row|, s);
      StoreRunAt(row, base, kv, |row|, s);
      StoreRunAt(other, base, kv, |row|, s);
    }
  }

  /** The row holds the last W entries of a request whose positions start, start + 1, ... carry the entries hist. */
  predicate HasWindow<T(==)>(row: seq<T>, start: nat, hist: seq<T>) {
    && |row| > 0
    && forall i :: 0 <= i < |hist| && i + |row| >= |hist| ==> row[SlotOf(start, i, |row|)] == hist[i]
  }

  lemma {:induction false} StoreRunKeepsWindow<T>(row: seq<T>, start: nat, hist: seq<T>, kv: seq<T>, n: nat)
    requires HasWindow(row, start, hist) && n <= |kv|
    ensures HasWindow(StoreRun(row, start + |hist|, kv, n), start, hist + kv[..n])
  {
    hide Slot;
    if n == 0 {
      assert hist + kv[..0] == hist;
    } else {
      StoreRunKeepsWindow(row, start, hist, kv, n - 1);
      var before := StoreRun(row, start + |hist|, kv, n - 1);
      var h := hist + kv[..n - 1];
      assert hist + kv[..n] == h + [kv[n - 1]];
      forall i | 0 <= i < |h| && i + |row| >= |h| + 1
        ensures SlotOf(start, i, |row|) != SlotOf(start, |h|, |row|)
      {
        OffsetsDiffer(start, i, |h|, |row|);
      }
    }
  }

  // ---- store_main_kv refines the run of accepted entries ----

  lemma LastContiguous(positions: seq<nat>, base: nat, w: nat)
    requires Contiguous(positions, base)
    ensures Contiguous(Last(positions, w), if |positions| > w then base + |positions| - w else base)
  {
  }

  lemma {:induction false} ScatterIsRun<T>(row: seq<T>, positions: seq<nat>, values: seq<T>, base: nat, n: nat)
    requires |row| > 0 && n <= |positions| == |values| && Contiguous(positions, base)
    ensures Scatter(row, positions, values, n) == StoreRun(row, base, values, n)
  {
    hide Slot;
    if n > 0 {
      ScatterIsRun(row, positions, values, base, n - 1);
    }
  }

  /** Without a mask, storing a contiguous segment of any length is storing its entries one by one. */
  lemma UnmaskedStoreIsRun<H, T>(project: Projection<H, T>, row: seq<T>, seg: Segment<H>, base: nat)
    requires |row| > 0 && seg.Valid() && seg.rejected.None? && Contiguous(seg.positions, base)
    ensures RowAfter(project, row, seg) == StoreRun(row, base, Project(project, seg.xs, seg.positions), |seg.xs|)
  {
    hide Slot, Scatter, StoreRun, Contiguous;
    var w, n := |row|, |seg.xs|;
    var kv := Project(project, seg.xs, seg.positions);
    var xs, positions := Last(seg.xs, w), Last(seg.positions, w);
    var tail := Project(project, xs, positions);
    LastContiguous(seg.positions, base, w);
    assert RowAfter(project, row, seg) == Scatter(row, positions, tail, |positions|);
    hide RowAfter;
    if n > w {
      assert tail == kv[n - w..];
      LongRunKeepsLast(row, base, kv, n);
      ScatterIsRun(row, positions, tail, base + n - w, w);
    } else {
      assert tail == kv && positions == seg.positions;
      ScatterIsRun(row, positions, kv, base, n);
    }
  }

  /** Writing back what a slot holds changes nothing: a masked run is the run of its accepted part. */
  lemma {:induction false} MaskedRunIsPrefix<T>(row: seq<T>, base: nat, kv: seq<T>, values: seq<T>, valid: nat, n: nat)
    requires 0 < |row| && valid <= n <= |kv| == |values| && n <= |row|
    requires forall i :: 0 <= i < |kv| ==> values[i] == if i < valid then kv[i] else row[SlotOf(base, i, |row|)]
    ensures StoreRun(row, base, values, n) == StoreRun(row, base, kv, valid)
    decreases n
  {
    hide Slot, SlotOf;
    if n > valid {
      MaskedRunIsPrefix(row, base, kv, values, valid, n - 1);
      forall i | 0 <= i < valid
        ensures SlotOf(base, i, |row|) != SlotOf(base, n - 1, |row|)
      {
        OffsetsDiffer(base, i, n - 1, |row|);
      }
      StoreRunAt(row, base, kv, valid, SlotOf(base, n - 1, |row|));
    } else {
      RunReadsPrefix(row, base, values, kv, n);
    }
  }

  lemma {:induction false} RunReadsPrefix<T>(row: seq<T>, base: nat, a: seq<T>, b: seq<T>, n: nat)
    requires |row| > 0 && n <= |a| && n <= |b| && forall i :: 0 <= i < n ==> a[i] == b[i]
    ensures StoreRun(row, base, a, n) == StoreRun(row, base, b, n)
  {
    hide Slot;
    if n > 0 {
      RunReadsPrefix(row, base, a, b, n - 1);
    }
  }

  /** The segment with its rejected suffix removed. */
  function Trim<H>(seg: Segment<H>): (t: Segment<H>)
    requires seg.Valid()
    ensures t.Valid() && t.rejected.None?
    ensures var n := if seg.rejected.Some?
            && seg.rejected.value <= |seg.xs| then |seg.xs| - seg.rejected.value else |seg.xs|;
            t.xs == seg.xs[..n] && t.positions == seg.positions[..n]
  {
    if seg.rejected.None? || seg.rejected.value > |seg.xs| then seg.(rejected := None)
    else
      var n := |seg.xs| - seg.rejected.value;
      Segment(seg.xs[..n], seg.positions[..n], None)
  }

  /**
    The rejection mask refines trim-then-store: a segment that fits the window leaves the row as if
    only its accepted prefix had been stored, entries under the rejected suffix included.
   */
  lemma MaskedStoreIsTrimmedStore<H, T>(project: Projection<H, T>, row: seq<T>, seg: Segment<H>, base: nat)
    requires |row| > 0 && seg.Valid() && Contiguous(seg.positions, base)
    requires seg.rejected.Some? ==> seg.rejected.value < |seg.xs|
    requires seg.rejected.Some? && seg.rejected.value > 0 ==> |seg.xs| <= |row|
    ensures RowAfter(project, row, seg) == RowAfter(project, row, Trim(seg))
  {
    hide Slot, RowAfter, Contiguous;
    if seg.rejected.Some? {
      if seg.rejected.value == 0 {
        EmptyMaskIsNoMask(project, row, seg);
      } else {
        MaskedStoreIsRun(project, row, seg, base);
        TrimIsContiguous(seg, base);
        UnmaskedStoreIsRun(project, row, Trim(seg), base);
      }
    }
  }

  lemma EmptyMaskIsNoMask<H, T>(project: Projection<H, T>, row: seq<T>, seg: Segment<H>)
    requires |row| > 0 && seg.Valid() && seg.rejected == Some(0)
    ensures RowAfter(project, row, seg) == RowAfter(project, row, Trim(seg))
  {
    hide Slot, Scatter;
    var positions := Last(seg.positions, |row|);
    var tail := Project(project, Last(seg.xs, |row|), positions);
    assert MaskedValues(row, positions, tail, seg.rejected) == tail;
    assert Trim(seg) == seg.(rejected := None);
  }

  lemma MaskedStoreIsRun<H, T>(project: Projection<H, T>, row: seq<T>, seg: Segment<H>, base: nat)
    requires 0 < |seg.xs| <= |row| && seg.Valid() && Contiguous(seg.positions, base)
    requires seg.rejected.Some? && 0 < seg.rejected.value < |seg.xs|
    ensures RowAfter(project, row, seg)
            == StoreRun(row, base, Project(project, Trim(seg).xs, Trim(seg).positions), |Trim(seg).xs|)
  {
    hide Slot, Scatter, StoreRun;
    var t := Trim(seg);
    var kv := Project(project, seg.xs, seg.positions);
    var values := MaskedValues(row, seg.positions, kv, seg.rejected);
    assert forall i :: 0 <= i < |kv| ==> seg.positions[i] == base + i;
    ScatterIsRun(row, seg.positions, values, base, |seg.xs|);
    forall i | 0 <= i < |kv|
      ensures values[i] == if i < |t.xs| then kv[i] else row[SlotOf(base, i, |row|)]
    {
    }
    MaskedRunIsPrefix(row, base, kv, values, |t.xs|, |seg.xs|);
    RunReadsPrefix(row, base, kv, Project(project, t.xs, t.positions), |t.xs|);
  }

  lemma TrimIsContiguous<H>(seg: Segment<H>, base: nat)
    requires seg.Valid() && Contiguous(seg.positions, base)
    ensures Contiguous(Trim(seg).positions, base)
  {
  }

  lemma StoreIsRunOfAccepted<H, T>(project: Projection<H, T>, row: seq<T>, seg: Segment<H>, base: nat)
    requires |row| > 0 && seg.Valid() && Contiguous(seg.positions, base)
    requires seg.rejected.Some? ==> seg.rejected.value < |seg.xs|
    requires seg.rejected.Some? && seg.rejected.value > 0 ==> |seg.xs| <= |row|
    ensures RowAfter(project, row, seg)
            == StoreRun(row, base, Project(project, Trim(seg).xs, Trim(seg).positions), |Trim(seg).xs|)
  {
    hide Slot, SlotOf, RowAfter, StoreRun, Contiguous, Trim, Project;
    MaskedStoreIsTrimmedStore(project, row, seg, base);
    TrimIsContiguous(seg, base);
    UnmaskedStoreIsRun(project, row, Trim(seg), base);
  }

  lemma WindowHasRoom<T>(row: seq<T>, start: nat, hist: seq<T>)
    requires HasWindow(row, start, hist)
    ensures |row| > 0
  {
  }

  lemma WholeRunKeepsWindow<T>(row: seq<T>, start: nat, hist: seq<T>, kv: seq<T>)
    requires HasWindow(row, start, hist)
    ensures HasWindow(StoreRun(row, start + |hist|, kv, |kv|), start, hist + kv)
  {
    StoreRunKeepsWindow(row, start, hist, kv, |kv|);
    assert kv[..|kv|] == kv;
  }

  /** A masked store appends the accepted entries to the window of its request. */
  lemma StoreExtendsWindow<H, T>(project: Projection<H, T>, row: seq<T>, seg: Segment<H>, start: nat, hist: seq<T>)
    requires HasWindow(row, start, hist) && seg.Valid() && Contiguous(seg.positions, start + |hist|)
    requires seg.rejected.Some? ==> seg.rejected.value < |seg.xs|
    requires seg.rejected.Some? && seg.rejected.value > 0 ==> |seg.xs| <= |row|
    ensures HasWindow(RowAfter(project, row, seg), start, hist + Project(project, Trim(seg).xs, Trim(seg).positions))
  {
    hide Slot, SlotOf, RowAfter, StoreRun, HasWindow, Contiguous, Trim, Project;
    WindowHasRoom(row, start, hist);
    StoreIsRunOfAccepted(project, row, seg, start + |hist|);
    var t := Trim(seg);
    WholeRunKeepsWindow(row, start, hist, Project(project, t.xs, t.positions));
  }
}
