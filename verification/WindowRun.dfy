/**
  Whole runs of the draft proposer: stable slots over ring-buffer windows agree with one simple
  thing, the history of accepted entries of every running request.
 */
module WindowRun {
  import opened Wrappers
  import opened Division
  import opened SlotAllocator
  import opened DraftWindow
  import opened MainKvCache
  import opened ContextPreparation

  /** Entries of the accepted tokens of a request since it entered the batch at position start. */
  datatype History<T> = History(start: nat, kv: seq<T>)

  datatype State<T> = State(pool: Pool, cache: seq<seq<T>>, hist: map<ReqId, History<T>>)

  // ---- The invariant ----

  /** Every running request owns a row, and the row holds the last W entries of its own history. */
  ghost predicate Invariant<T>(s: State<T>, n: nat, w: nat) {
    && PoolInvariant(s.pool, n)
    && |s.cache| == n && Rings(s.cache, w)
    && s.hist.Keys == s.pool.slotOf.Keys
    && forall r :: r in s.hist ==> OwnWindow(s, r)
  }

  ghost predicate OwnWindow<T>(s: State<T>, r: ReqId)
    requires r in s.hist
  {
    && r in s.pool.slotOf && s.pool.slotOf[r] < |s.cache|
    && HasWindow(s.cache[s.pool.slotOf[r]], s.hist[r].start, s.hist[r].kv)
  }

  // ---- One step ----

  /** First position a request stores: where its history ends, or anywhere for a request that enters the batch. */
  function Base<H, T>(hist: map<ReqId, History<T>>, r: ReqId, own: Segment<H>): nat
    requires own.positions != []
  {
    if r in hist then hist[r].start + |hist[r].kv| else own.positions[0]
  }

  /**
    Rows of one request in a step: non-empty, contiguous, not rejected altogether, and inside the window if
    rejected at all.
   */
  predicate GoodSegment<H, T>(hist: map<ReqId, History<T>>, r: ReqId, own: Segment<H>, w: nat) {
    && own.Valid() && own.xs != []
    && Contiguous(own.positions, Base(hist, r, own))
    && (own.rejected.Some? ==> own.rejected.value < |own.xs|)
    && (own.rejected.Some? && own.rejected.value > 0 ==> |own.xs| <= w)
  }

  predicate GoodBatch<H, T>(hist: map<ReqId, History<T>>, ids: seq<ReqId>, own: seq<Segment<H>>, w: nat) {
    && DistinctIds(ids) && |own| == |ids|
    && forall i :: 0 <= i < |ids| ==> GoodSegment(hist, ids[i], own[i], w)
  }

  /** The segment handed to the store carries the request's own accepted rows. */
  ghost predicate CarriesOwn<H>(seg: Segment<H>, own: Segment<H>) {
    own.Valid() && (seg == own || seg == Trim(own))
  }

  ghost function IndexOf(ids: seq<ReqId>, r: ReqId): (i: nat)
    requires r in ids
    ensures i < |ids| && ids[i] == r
  {
    var i :| 0 <= i < |ids| && ids[i] == r;
    i
  }

  function Extended<H, T>(project: Projection<H, T>, hist: map<ReqId, History<T>>, r: ReqId, own: Segment<H>)
        : History<T>
    requires own.Valid() && own.xs != []
  {
    var kv := Project(project, Trim(own).xs, Trim(own).positions);
    if r in hist then History(hist[r].start, hist[r].kv + kv) else History(own.positions[0], kv)
  }

  /** The histories after a step: those of the batch, each extended by its accepted entries. */
  ghost function NextHist<H, T>(project: Projection<H, T>, hist: map<ReqId, History<T>>, ids: seq<ReqId>,
                                own: seq<Segment<H>>)
    : map<ReqId, History<T>>
    requires |own| == |ids| && forall i :: 0 <= i < |ids| ==> own[i].Valid() && own[i].xs != []
  {
    map r | r in ids :: Extended(project, hist, r, own[IndexOf(ids, r)])
  }

  /** A proposal step: resolve the slots, store the segments, and record what was accepted. */
  ghost predicate Step<H, T>(project: Projection<H, T>, s: State<T>, t: State<T>, ids: seq<ReqId>,
                             own: seq<Segment<H>>, segs: seq<Segment<H>>, n: nat, w: nat)
  {
    && GoodBatch(s.hist, ids, own, w)
    && Resolve(s.pool, ids, n).Assigned?
    && t.pool == Resolve(s.pool, ids, n).pool
    && |segs| == |ids| && (forall i :: 0 <= i < |ids| ==> CarriesOwn(segs[i], own[i]))
    && StoredAt(project, s.cache, t.cache, segs, Resolve(s.pool, ids, n).slots, w)
    && t.hist == NextHist(project, s.hist, ids, own)
  }

  ghost predicate StoredAt<H, T>(project: Projection<H, T>, before: seq<seq<T>>, after: seq<seq<T>>,
                                 segs: seq<Segment<H>>, slots: seq<nat>, w: nat) {
    && Rings(before, w) && DistinctRows(slots, |before|) && |segs| == |slots| && AllValid(segs)
    && StoresEach(project, before, after, segs, slots, w)
  }

  /** One row: storing what a request carries turns the window of its history into that of the extended history. */
  lemma RowExtends<H, T>(project: Projection<H, T>, hist: map<ReqId, History<T>>, r: ReqId, own: Segment<H>,
                         seg: Segment<H>,
                         row: seq<T>)
    requires |row| > 0 && GoodSegment(hist, r, own, |row|) && CarriesOwn(seg, own)
    requires r in hist ==> HasWindow(row, hist[r].start, hist[r].kv)
    ensures seg.Valid()
    ensures var h := Extended(project, hist, r, own); HasWindow(RowAfter(project, row, seg), h.start, h.kv)
  {
    hide RowAfter, HasWindow;
    var base := Base(hist, r, own);
    TrimIsContiguous(own, base);
    assert Trim(Trim(own)) == Trim(own);
    var start, kv := if r in hist then hist[r].start else base, if r in hist then hist[r].kv else [];
    if r !in hist {
      EmptyWindow(row, base);
    }
    StoreExtendsWindow(project, row, seg, start, kv);
    var accepted := Project(project, Trim(own).xs, Trim(own).positions);
    assert [] + accepted == accepted;
    assert own.positions[0] == base;
  }

  lemma EmptyWindow<T>(row: seq<T>, base: nat)
    requires |row| > 0
    ensures HasWindow(row, base, [])
  {
  }

  /** The row of request i after the step holds the window of its extended history. */
  lemma RowKeepsWindow<H, T>(project: Projection<H, T>, s: State<T>, t: State<T>, ids: seq<ReqId>,
                             own: seq<Segment<H>>, segs: seq<Segment<H>>, n: nat, w: nat, i: nat)
    requires Invariant(s, n, w) && Step(project, s, t, ids, own, segs, n, w)
    requires i < |ids| && |t.cache| == n
    ensures Resolve(s.pool, ids, n).slots[i] < n
    ensures own[i].Valid() && own[i].xs != []
    ensures var h := Extended(project, s.hist, ids[i], own[i]);
            HasWindow(t.cache[Resolve(s.pool, ids, n).slots[i]], h.start, h.kv)
  {
    hide RowAfter, HasWindow, Resolve, Extended, PoolInvariant;
    ResolveKeepsInvariant(s.pool, ids, n);
    var slot := Resolve(s.pool, ids, n).slots[i];
    var r := ids[i];
    assert CarriesOwn(segs[i], own[i]) && GoodSegment(s.hist, r, own[i], w);
    hide GoodSegment, CarriesOwn;
    assert t.cache[slot] == RowAfter(project, s.cache[slot], segs[i]);
    if r in s.hist {
      assert OwnWindow(s, r);
    }
    RowExtends(project, s.hist, r, own[i], segs[i], s.cache[slot]);
  }

  /** A step keeps the invariant: no request ever sees another request's entries or a rejected one. */
  lemma StepKeepsInvariant<H, T>(project: Projection<H, T>, s: State<T>, t: State<T>, ids: seq<ReqId>,
                                 own: seq<Segment<H>>, segs: seq<Segment<H>>, n: nat, w: nat)
    requires Invariant(s, n, w) && Step(project, s, t, ids, own, segs, n, w)
    ensures Invariant(t, n, w)
  {
    hide RowAfter, HasWindow, Resolve, PoolInvariant, GoodSegment;
    ResolveKeepsInvariant(s.pool, ids, n);
    StoredRings(project, s.cache, t.cache, segs, Resolve(s.pool, ids, n).slots, w);
    forall r | r in t.hist
      ensures OwnWindow(t, r)
    {
      RowKeepsWindow(project, s, t, ids, own, segs, n, w, IndexOf(ids, r));
    }
  }

  // ---- Whole runs ----

  datatype Input<H> = Input(ids: seq<ReqId>, own: seq<Segment<H>>, segs: seq<Segment<H>>)

  ghost predicate Initial<T>(s: State<T>, n: nat, w: nat) {
    s.pool == InitialPool(n) && |s.cache| == n && Rings(s.cache, w) && s.hist == map[]
  }

  /** Any arrivals, finishes, reorders, chunk lengths and rejection counts, one proposal step after the other. */
  ghost predicate IsRun<H, T>(project: Projection<H, T>, states: seq<State<T>>, inputs: seq<Input<H>>, n: nat, w: nat) {
    && |states| == |inputs| + 1
    && Initial(states[0], n, w)
    && forall k :: 0 <= k < |inputs| ==> StepAt(project, states, inputs, n, w, k)
  }

  ghost predicate StepAt<H, T>(project: Projection<H, T>, states: seq<State<T>>, inputs: seq<Input<H>>, n: nat,
                               w: nat, k: nat)
    requires |states| == |inputs| + 1 && k < |inputs|
  {
    Step(project, states[k], states[k + 1], inputs[k].ids, inputs[k].own, inputs[k].segs, n, w)
  }

  lemma {:induction false} RunKeepsWindows<H, T>(project: Projection<H, T>, states: seq<State<T>>,
                                                 inputs: seq<Input<H>>,
                                                 n: nat, w: nat, k: nat)
    requires IsRun(project, states, inputs, n, w) && k < |states|
    ensures Invariant(states[k], n, w)
  {
    hide Initial, Invariant, Step;
    if k == 0 {
      InitialInvariant(states[0], n, w);
    } else {
      RunKeepsWindows(project, states, inputs, n, w, k - 1);
      assert StepAt(project, states, inputs, n, w, k - 1);
      StepKeepsInvariant(project, states[k - 1], states[k], inputs[k - 1].ids, inputs[k - 1].own, inputs[k - 1].segs,
          n, w);
    }
  }

  lemma InitialInvariant<T>(s: State<T>, n: nat, w: nat)
    requires Initial(s, n, w)
    ensures Invariant(s, n, w)
  {
    InitialPoolValid(n);
  }

  /** The entry a history records for position q. */
  function EntryAt<T>(h: History<T>, q: nat): T
    requires h.start <= q < h.start + |h.kv|
  {
    h.kv[q - h.start]
  }

  /**
    Over every run, after every step, the row that the draft reads for batch row i holds that
    request's own entry of position q at ring slot q mod W, for the last W positions q since it
    entered the batch.
   */
  lemma DraftReadsOwnWindow<H, T>(project: Projection<H, T>, states: seq<State<T>>, inputs: seq<Input<H>>,
                                  n: nat, w: nat, k: nat, i: nat, q: nat)
    requires IsRun(project, states, inputs, n, w) && k < |inputs| && i < |inputs[k].ids|
    requires inputs[k].ids[i] in states[k + 1].hist
    requires var h := states[k + 1].hist[inputs[k].ids[i]]; h.start <= q < h.start + |h.kv| <= q + w
    ensures w > 0 && Resolve(states[k].pool, inputs[k].ids, n).Assigned?
    ensures |Resolve(states[k].pool, inputs[k].ids, n).slots| == |inputs[k].ids|
    ensures var slot := Resolve(states[k].pool, inputs[k].ids, n).slots[i];
            && slot < |states[k + 1].cache| && |states[k + 1].cache[slot]| == w
            && states[k + 1].cache[slot][q % w] == EntryAt(states[k + 1].hist[inputs[k].ids[i]], q)
  {
    hide Step, Resolve, HasWindow;
    RunKeepsWindows(project, states, inputs, n, w, k);
    RunKeepsWindows(project, states, inputs, n, w, k + 1);
    var s, t, x := states[k], states[k + 1], inputs[k];
    assert StepAt(project, states, inputs, n, w, k);
    SlotOfRow(project, s, t, x, n, w, i);
    var r := x.ids[i];
    assert OwnWindow(t, r);
    WindowEntry(t.cache[t.pool.slotOf[r]], t.hist[r], q);
  }

  lemma SlotOfRow<H, T>(project: Projection<H, T>, s: State<T>, t: State<T>, x: Input<H>, n: nat, w: nat, i: nat)
    requires Invariant(s, n, w) && Step(project, s, t, x.ids, x.own, x.segs, n, w) && i < |x.ids|
    ensures Resolve(s.pool, x.ids, n).Assigned? && |Resolve(s.pool, x.ids, n).slots| == |x.ids|
    ensures x.ids[i] in t.pool.slotOf && Resolve(s.pool, x.ids, n).slots[i] == t.pool.slotOf[x.ids[i]]
  {
    hide Resolve, PoolInvariant, StoredAt, GoodBatch, NextHist;
    ResolveKeepsInvariant(s.pool, x.ids, n);
  }

  lemma WindowEntry<T>(row: seq<T>, h: History<T>, q: nat)
    requires HasWindow(row, h.start, h.kv) && h.start <= q < h.start + |h.kv| <= q + |row|
    ensures row[q % |row|] == EntryAt(h, q)
  {
    assert SlotOf(h.start, q - h.start, |row|) == q % |row|;
  }

  /** A request that stays keeps its start, its slot and its past, and gains exactly its accepted entries. */
  lemma StayingRequestExtends<H, T>(project: Projection<H, T>, s: State<T>, t: State<T>, x: Input<H>, n: nat, w: nat,
                                    i: nat)
    requires Invariant(s, n, w) && Step(project, s, t, x.ids, x.own, x.segs, n, w) && i < |x.ids| && x.ids[i] in s.hist
    ensures var r := x.ids[i];
            && r in t.hist && t.hist[r].start == s.hist[r].start
            && t.hist[r].kv == s.hist[r].kv + Project(project, Trim(x.own[i]).xs, Trim(x.own[i]).positions)
            && r in s.pool.slotOf && r in t.pool.slotOf && t.pool.slotOf[r] == s.pool.slotOf[r]
  {
    hide Resolve, PoolInvariant, StoredAt;
    ResolveKeepsInvariant(s.pool, x.ids, n);
    var j := IndexOf(x.ids, x.ids[i]);
    assert j == i;
  }

  // ---- Which entries the draft attends to ----

  /** Number of ring slots the draft attends to when the last accepted position is a. */
  function ValidMainLength(a: nat, w: nat): nat {
    if a + 1 <= w then a + 1 else w
  }

  /** Slot s holds the window entry number i of the history. */
  predicate HoldsEntry<T>(h: History<T>, w: nat, s: nat, i: nat)
    requires w > 0
  {
    i < |h.kv| && i + w >= |h.kv| && SlotOf(h.start, i, w) == s
  }

  ghost predicate IsOwnSlot<T>(h: History<T>, w: nat, s: nat)
    requires w > 0
  {
    exists i: nat :: HoldsEntry(h, w, s, i)
  }

  /**
    The slots counted as valid are exactly the request's own window entries, each once, precisely
    when the request entered at position 0 or has filled the window since.
   */
  lemma CountedSlotsAreOwnIff<T>(h: History<T>, w: nat)
    requires w > 0 && |h.kv| > 0
    ensures (h.start == 0 || |h.kv| >= w)
            <==> forall s: nat :: s < ValidMainLength(h.start + |h.kv| - 1, w) ==> IsOwnSlot(h, w, s)
    ensures forall i: nat, j: nat, s: nat :: HoldsEntry(h, w, s, i) && HoldsEntry(h, w, s, j) ==> i == j
    ensures forall i: nat, s: nat :: HoldsEntry(h, w, s, i) ==> s < ValidMainLength(h.start + |h.kv| - 1, w)
  {
    forall i: nat, s: nat | HoldsEntry(h, w, s, i)
      ensures s < ValidMainLength(h.start + |h.kv| - 1, w)
    {
      if h.start + |h.kv| < w {
        DivMod(h.start + i, w, 0, h.start + i);
      }
    }
    var valid := ValidMainLength(h.start + |h.kv| - 1, w);
    if h.start == 0 || |h.kv| >= w {
      forall s: nat | s < valid
        ensures IsOwnSlot(h, w, s)
      {
        var i := CountedEntry(h, w, s);
      }
    } else {
      UncountedBefore(h, w);
    }
    forall i: nat, j: nat, s: nat | HoldsEntry(h, w, s, i) && HoldsEntry(h, w, s, j)
      ensures i == j
    {
      if i < j {
        OffsetsDiffer(h.start, i, j, w);
      } else if j < i {
        OffsetsDiffer(h.start, j, i, w);
      }
    }
  }

  lemma CountedEntry<T>(h: History<T>, w: nat, s: nat) returns (i: nat)
    requires w > 0 && |h.kv| > 0 && (h.start == 0 || |h.kv| >= w)
    requires s < ValidMainLength(h.start + |h.kv| - 1, w)
    ensures HoldsEntry(h, w, s, i)
  {
    if |h.kv| >= w {
      var j := SlotIsHit(h.start + |h.kv| - w, w, s);
      i := |h.kv| - w + j;
    } else {
      i := s;
      DivMod(s, w, 0, s);
    }
  }

  /**
    Over every run: every ring slot the draft attends to holds the request's own entry of one of its
    last W accepted positions, for a request that entered at position 0 or has filled the window since.
   */
  lemma AttendedKeysAreOwn<H, T>(project: Projection<H, T>, states: seq<State<T>>, inputs: seq<Input<H>>,
                                 n: nat, w: nat, k: nat, i: nat, s: nat) returns (q: nat)
    requires IsRun(project, states, inputs, n, w) && k < |inputs| && i < |inputs[k].ids|
    requires w > 0 && inputs[k].ids[i] in states[k + 1].hist
    requires var h := states[k + 1].hist[inputs[k].ids[i]];
             |h.kv| > 0 && (h.start == 0 || |h.kv| >= w) && s < ValidMainLength(h.start + |h.kv| - 1, w)
    ensures Resolve(states[k].pool, inputs[k].ids, n).Assigned?
    ensures |Resolve(states[k].pool, inputs[k].ids, n).slots| == |inputs[k].ids|
    ensures var h, slot := states[k + 1].hist[inputs[k].ids[i]], Resolve(states[k].pool, inputs[k].ids, n).slots[i];
            && h.start <= q < h.start + |h.kv| <= q + w && s == q % w
            && slot < |states[k + 1].cache| && |states[k + 1].cache[slot]| == w
            && states[k + 1].cache[slot][s] == EntryAt(h, q)
  {
    hide StepAt, Resolve;
    var h := states[k + 1].hist[inputs[k].ids[i]];
    var e := CountedEntry(h, w, s);
    q := h.start + e;
    DraftReadsOwnWindow(project, states, inputs, n, w, k, i, q);
  }

  /** The slot just before the start is counted although the request never stored it. */
  lemma UncountedBefore<T>(h: History<T>, w: nat)
    requires w > 0 && 0 < |h.kv| < w && h.start > 0
    ensures Slot(h.start - 1, w) < ValidMainLength(h.start + |h.kv| - 1, w)
    ensures !IsOwnSlot(h, w, Slot(h.start - 1, w))
  {
    if h.start - 1 < w {
      DivMod(h.start - 1, w, 0, h.start - 1);
    }
    var s := Slot(h.start - 1, w);
    forall i: nat | i < |h.kv|
      ensures !HoldsEntry(h, w, s, i)
    {
      SlotsDiffer(h.start - 1, h.start + i, w);
    }
  }

  // ---- The proposer's context ----

  class DraftContext<!H, !T(0)> {
    const project: Projection<H, T>
    const maskOn: bool
    const slots: Slots
    const cache: Cache<T>
    ghost var hist: map<ReqId, History<T>>

    ghost function Abs(): State<T>
      reads this, slots, cache.rows
    {
      State(slots.Abs(), cache.rows[..], hist)
    }

    ghost predicate Valid()
      reads this, slots, cache.rows
    {
      slots.Valid() && cache.Valid() && cache.rows.Length == slots.maxBatch
    }

    /** Every running request's row holds the window of its history. */
    ghost predicate InSync()
      reads this, slots, cache.rows
    {
      Invariant(Abs(), slots.maxBatch, cache.window)
    }

    /** The batch is one that the window is meant for: the hypotheses of a step. */
    ghost predicate Expected(ids: seq<ReqId>, xs: seq<H>, positions: seq<nat>, starts: seq<nat>,
                             rejected: Option<seq<nat>>)
      reads this, slots, cache.rows
    {
      && InSync()
      && |xs| == |positions| && Consistent(starts, |xs|, |ids|, rejected) && Separable(starts, |ids|, rejected, maskOn)
      && GoodBatch(hist, ids, FlatSegments(xs, positions, starts, rejected), cache.window)
    }

    constructor (project: Projection<H, T>, maskOn: bool, maxBatch: nat, window: nat, zero: T)
      requires window > 0
      ensures Valid() && InSync() && Initial(Abs(), maxBatch, window)
      ensures slots.maxBatch == maxBatch && cache.window == window && this.project == project && this.maskOn == maskOn
    {
      this.project := project;
      this.maskOn := maskOn;
      slots := new Slots(maxBatch);
      cache := new Cache(maxBatch, window, zero);
      hist := map[];
      new;
      InitialPoolValid(maxBatch);
    }

    /**
      The part of propose that updates the window: slots, context, store. For every batch it resolves the
      slots, prepares the context and stores exactly what was prepared in the resolved rows. For an
      expected batch that is a step of the run, and the position handed to the draft is the last accepted one.
     */
    method Propose(ids: seq<ReqId>, xs: seq<H>, positions: seq<nat>, starts: seq<nat>, rejected: Option<seq<nat>>)
      returns (r: Result<(Option<seq<nat>>, Context<H>), ContextError>)
      requires Valid() && |xs| == |positions| && 0 < |ids| <= slots.maxBatch && DistinctIds(ids)
      requires RowOffsets(starts, |xs|) && (rejected.Some? ==> |rejected.value| == |ids|)
      modifies this, slots, slots.buffer, cache.rows
      ensures Valid()
      ensures Prepared(xs, positions, Some(starts), |ids|, rejected, maskOn, ContextOf(r))
      ensures Resolve(old(slots.Abs()), ids, slots.maxBatch).Assigned?
      ensures slots.Abs() == Resolve(old(slots.Abs()), ids, slots.maxBatch).pool
      ensures r.Failure? ==> cache.rows[..] == old(cache.rows[..])
      ensures r.Success? ==>
                && WellShaped(r.value.1, |ids|)
                && (r.value.0.Some? ==> |r.value.0.value| == |ids|)
                && SlotsOf(r.value.0, |ids|) == Resolve(old(slots.Abs()), ids, slots.maxBatch).slots
                && StoredAt(project, old(cache.rows[..]), cache.rows[..], SegmentsOf(r.value.1, |ids|),
                            SlotsOf(r.value.0, |ids|), cache.window)
      ensures r.Success? ==> var chosen := Resolve(old(slots.Abs()), ids, slots.maxBatch).slots;
                && |chosen| == |ids|
                && (r.value.0.Some? ==> r.value.0.value == chosen)
                && (r.value.0.None? ==> forall i :: 0 <= i < |ids| ==> chosen[i] == i)
      ensures old(Expected(ids, xs, positions, starts, rejected)) && r.Success? ==>
                forall i :: 0 <= i < |ids| ==>
                  var row := if r.value.0.Some? then r.value.0.value[i] else i;
                  && ids[i] in hist && row < cache.rows.Length
                  && ReadsOwnWindow(hist[ids[i]], cache.rows[row], r.value.1.lastPositions[i])
      ensures old(Expected(ids, xs, positions, starts, rejected)) ==>
                (r.Success? <==>
                  maskOn || !NeedsTrim(Some(starts), rejected) || UniformAccepted(starts, rejected.value))
      ensures old(Expected(ids, xs, positions, starts, rejected)) && r.Success? ==>
                && InSync()
                && AllOwn(r.value.1, |ids|, FlatSegments(xs, positions, starts, rejected))
                && Step(project, old(Abs()), Abs(), ids, FlatSegments(xs, positions, starts, rejected),
                        SegmentsOf(r.value.1, |ids|), slots.maxBatch, cache.window)
                && ReadsOwnWindows(Abs(), ids, r.value.1.lastPositions, SlotsOf(r.value.0, |ids|))
    {
      hide Resolve, PoolInvariant, Invariant, RowAfter, HasWindow, GoodBatch, Prepared, RectangleOf, IsRagged,
           NeedsTrim, AllEqual, StoredAt, NextHist, CarriesOwn, Step, Separable, DistinctRows, DistinctIds,
           WellShaped, UniformAccepted, ReadsOwnWindow, AllOwn, RowOffsets;
      ghost var before, expected := Abs(), Expected(ids, xs, positions, starts, rejected);
      r := ResolveAndStore(ids, xs, positions, starts, rejected);
      if expected {
        ContextSucceedsIff(xs, positions, starts, |ids|, rejected, maskOn, ContextOf(r));
        if r.Success? {
          ghost var own, ctx := FlatSegments(xs, positions, starts, rejected), r.value.1;
          BatchIsDistinct(before, ids, own, slots.maxBatch, cache.window);
          hist := NextHist(project, hist, ids, own);
          ContextIsOwn(xs, positions, starts, |ids|, rejected, maskOn, ctx);
          StepDone(project, before, Abs(), ids, own, ctx, slots.maxBatch, cache.window);
        }
      }
    }

    /** Slots, context and store, whatever the batch. */
    method ResolveAndStore(ids: seq<ReqId>, xs: seq<H>, positions: seq<nat>, starts: seq<nat>,
                           rejected: Option<seq<nat>>)
      returns (r: Result<(Option<seq<nat>>, Context<H>), ContextError>)
      requires Valid() && |xs| == |positions| && 0 < |ids| <= slots.maxBatch && DistinctIds(ids)
      requires RowOffsets(starts, |xs|) && (rejected.Some? ==> |rejected.value| == |ids|)
      modifies slots, slots.buffer, cache.rows
      ensures Valid()
      ensures Prepared(xs, positions, Some(starts), |ids|, rejected, maskOn, ContextOf(r))
      ensures Resolve(old(slots.Abs()), ids, slots.maxBatch).Assigned?
      ensures slots.Abs() == Resolve(old(slots.Abs()), ids, slots.maxBatch).pool
      ensures r.Failure? ==> cache.rows[..] == old(cache.rows[..])
      ensures r.Success? ==>
                && WellShaped(r.value.1, |ids|)
                && (r.value.0.Some? ==> |r.value.0.value| == |ids|)
                && SlotsOf(r.value.0, |ids|) == Resolve(old(slots.Abs()), ids, slots.maxBatch).slots
                && StoredAt(project, old(cache.rows[..]), cache.rows[..], SegmentsOf(r.value.1, |ids|),
                            SlotsOf(r.value.0, |ids|), cache.window)
    {
      hide Resolve, PoolInvariant, RowAfter, Prepared, RectangleOf, IsRagged, NeedsTrim, AllEqual, StoredAt,
           DistinctRows, DistinctIds, WellShaped, UniformAccepted, RowOffsets;
      var slotIndex := ResolveRows(ids);
      var prepared := PrepareContext(xs, positions, Some(starts), |ids|, rejected, maskOn);
      if prepared.Failure? {
        return Failure(prepared.error);
      }
      PreparedIsShaped(xs, positions, starts, |ids|, rejected, maskOn, prepared.value);
      PrefillMain(prepared.value, |ids|, slotIndex);
      return Success((slotIndex, prepared.value));
    }

    /** Slots for a batch that fits: distinct rows, in the order of the requests. */
    method ResolveRows(ids: seq<ReqId>) returns (slotIndex: Option<seq<nat>>)
      requires Valid() && 0 < |ids| <= slots.maxBatch && DistinctIds(ids)
      modifies slots, slots.buffer
      ensures Valid() && cache.rows[..] == old(cache.rows[..])
      ensures Resolve(old(slots.Abs()), ids, slots.maxBatch).Assigned?
      ensures slots.Abs() == Resolve(old(slots.Abs()), ids, slots.maxBatch).pool
      ensures slotIndex.Some? ==> |slotIndex.value| == |ids|
      ensures SlotsOf(slotIndex, |ids|) == Resolve(old(slots.Abs()), ids, slots.maxBatch).slots
      ensures slotIndex.Some? ==> slotIndex.value == Resolve(old(slots.Abs()), ids, slots.maxBatch).slots
      ensures slotIndex.None? ==>
                forall i :: 0 <= i < |ids| ==> Resolve(old(slots.Abs()), ids, slots.maxBatch).slots[i] == i
      ensures DistinctRows(SlotsOf(slotIndex, |ids|), cache.rows.Length)
    {
      hide Resolve, PoolInvariant, DistinctIds;
      ghost var pool := slots.Abs();
      EnoughSlots(pool, ids, slots.maxBatch);
      var resolved := slots.ResolveSlots(Some(ids), |ids|);
      slotIndex := resolved.value;
      assert SlotsOf(slotIndex, |ids|) == Resolve(pool, ids, slots.maxBatch).slots;
    }

    /** prefill_main: the ragged store for a flat context, the rectangular one otherwise. */
    method PrefillMain(ctx: Context<H>, batchSize: nat, slotIndex: Option<seq<nat>>)
      requires cache.Valid() && WellShaped(ctx, batchSize)
      requires slotIndex.Some? ==> |slotIndex.value| == batchSize
      requires DistinctRows(SlotsOf(slotIndex, batchSize), cache.rows.Length)
      modifies cache.rows
      ensures cache.Valid()
      ensures StoredAt(project, old(cache.rows[..]), cache.rows[..], SegmentsOf(ctx, batchSize),
                       SlotsOf(slotIndex, batchSize), cache.window)
      ensures forall i :: 0 <= i < batchSize ==>
                StoredIn(project, old(cache.rows[..]), cache.rows[..],
                         if slotIndex.Some? then slotIndex.value[i] else i, SegmentsOf(ctx, batchSize)[i])
      ensures forall k :: 0 <= k < cache.rows.Length
                          && (if slotIndex.Some? then k !in slotIndex.value else k >= batchSize) ==>
                            cache.rows[k] == old(cache.rows[k])
    {
      hide RowAfter, StoredIn, StoresEach;
      ghost var before := cache.rows[..];
      StoreInto(ctx, batchSize, slotIndex);
      StoredPlaces(project, before, cache.rows[..], SegmentsOf(ctx, batchSize), slotIndex, cache.window);
    }

    method StoreInto(ctx: Context<H>, batchSize: nat, slotIndex: Option<seq<nat>>)
      requires cache.Valid() && WellShaped(ctx, batchSize)
      requires slotIndex.Some? ==> |slotIndex.value| == batchSize
      requires DistinctRows(SlotsOf(slotIndex, batchSize), cache.rows.Length)
      modifies cache.rows
      ensures cache.Valid()
      ensures StoredAt(project, old(cache.rows[..]), cache.rows[..], SegmentsOf(ctx, batchSize),
                       SlotsOf(slotIndex, batchSize), cache.window)
    {
      hide RowAfter, StoredIn;
      match ctx {
        case Ragged(flatXs, flatPositions, starts, _, _, mask) =>
          cache.PrefillMainRagged(project, flatXs, flatPositions, starts, mask, slotIndex);
        case Rectangle(xs, positions, _, _, mask) =>
          cache.StoreMainKv(project, xs, positions, Width(xs), mask, slotIndex);
      }
    }
  }

  lemma BatchIsDistinct<H, T>(s: State<T>, ids: seq<ReqId>, own: seq<Segment<H>>, n: nat, w: nat)
    requires Invariant(s, n, w) && GoodBatch(s.hist, ids, own, w)
    ensures PoolInvariant(s.pool, n) && DistinctIds(ids) && |own| == |ids|
    ensures forall i :: 0 <= i < |ids| ==> own[i].Valid() && own[i].xs != []
  {
    assert forall i :: 0 <= i < |ids| ==> GoodSegment(s.hist, ids[i], own[i], w);
  }

  lemma AllCarryOwn<H>(ctx: Context<H>, batchSize: nat, own: seq<Segment<H>>)
    requires AllOwn(ctx, batchSize, own)
    ensures WellShaped(ctx, batchSize) && |own| == batchSize && |SegmentsOf(ctx, batchSize)| == batchSize
    ensures forall i :: 0 <= i < batchSize ==> CarriesOwn(SegmentsOf(ctx, batchSize)[i], own[i])
  {
    forall i | 0 <= i < batchSize
      ensures CarriesOwn(SegmentsOf(ctx, batchSize)[i], own[i])
    {
      assert IsOwn(SegmentsOf(ctx, batchSize)[i], ctx.lastXs[i], ctx.lastPositions[i], own[i]);
    }
  }

  function ContextOf<S, C, E>(r: Result<(S, C), E>): Result<C, E> {
    match r
    case Success(pair) => Success(pair.1)
    case Failure(error) => Failure(error)
  }

  /** Row i, at its slot, holds the window of request i, and the anchor position is its last accepted one. */
  ghost predicate ReadsOwnWindows<T>(t: State<T>, ids: seq<ReqId>, lastPositions: seq<nat>, slots: seq<nat>) {
    && |slots| == |lastPositions| == |ids|
    && forall i :: 0 <= i < |ids| ==>
         ids[i] in t.hist && slots[i] < |t.cache| && ReadsOwnWindow(t.hist[ids[i]], t.cache[slots[i]], lastPositions[i])
  }

  predicate ReadsOwnWindow<T(==)>(h: History<T>, row: seq<T>, lastPosition: nat) {
    HasWindow(row, h.start, h.kv) && lastPosition == h.start + |h.kv| - 1
  }

  /** A row holds a window exactly when position q is at slot q mod W, for the last W positions of the history. */
  lemma WindowIs<T>(row: seq<T>, start: nat, hist: seq<T>)
    ensures HasWindow(row, start, hist) <==>
              |row| > 0 && forall q: nat :: start <= q < start + |hist| <= q + |row| ==> EntryIsAt(row, start, hist, q)
  {
    if HasWindow(row, start, hist) {
      forall q: nat | start <= q < start + |hist| <= q + |row|
        ensures EntryIsAt(row, start, hist, q)
      {
        assert row[SlotOf(start, q - start, |row|)] == hist[q - start];
      }
    }
    if |row| > 0 && forall q: nat :: start <= q < start + |hist| <= q + |row| ==> EntryIsAt(row, start, hist, q) {
      forall i | 0 <= i < |hist| && i + |row| >= |hist|
        ensures row[SlotOf(start, i, |row|)] == hist[i]
      {
        assert EntryIsAt(row, start, hist, start + i);
      }
    }
  }

  predicate EntryIsAt<T(==)>(row: seq<T>, start: nat, hist: seq<T>, q: nat)
    requires |row| > 0 && start <= q < start + |hist|
  {
    row[q % |row|] == hist[q - start]
  }

  /** The anchor position of a request is the last position of its extended history. */
  lemma AnchorIsLastPosition<H, T>(project: Projection<H, T>, hist: map<ReqId, History<T>>, r: ReqId, own: Segment<H>,
                                   w: nat,
                                   seg: Segment<H>, lastX: H, lastPosition: nat)
    requires GoodSegment(hist, r, own, w) && IsOwn(seg, lastX, lastPosition, own)
    ensures var h := Extended(project, hist, r, own); lastPosition == h.start + |h.kv| - 1
  {
    TrimIsContiguous(own, Base(hist, r, own));
  }

  lemma HistoryOf<H, T>(project: Projection<H, T>, hist: map<ReqId, History<T>>, ids: seq<ReqId>,
                        own: seq<Segment<H>>, i: nat)
    requires DistinctIds(ids) && |own| == |ids| && i < |ids|
    requires forall j :: 0 <= j < |ids| ==> own[j].Valid() && own[j].xs != []
    ensures ids[i] in NextHist(project, hist, ids, own)
    ensures NextHist(project, hist, ids, own)[ids[i]] == Extended(project, hist, ids[i], own[i])
  {
    hide Extended;
    assert IndexOf(ids, ids[i]) == i;
  }

  /** The pieces of a proposal make a step of the run. */
  lemma StepDone<H, T>(project: Projection<H, T>, s: State<T>, t: State<T>, ids: seq<ReqId>, own: seq<Segment<H>>,
                       ctx: Context<H>, n: nat, w: nat)
    requires Invariant(s, n, w) && GoodBatch(s.hist, ids, own, w) && AllOwn(ctx, |ids|, own)
    requires Resolve(s.pool, ids, n).Assigned? && t.pool == Resolve(s.pool, ids, n).pool
    requires StoredAt(project, s.cache, t.cache, SegmentsOf(ctx, |ids|), Resolve(s.pool, ids, n).slots, w)
    requires forall i :: 0 <= i < |ids| ==> own[i].Valid() && own[i].xs != []
    requires t.hist == NextHist(project, s.hist, ids, own)
    ensures Step(project, s, t, ids, own, SegmentsOf(ctx, |ids|), n, w)
    ensures Invariant(t, n, w)
    ensures ReadsOwnWindows(t, ids, ctx.lastPositions, Resolve(s.pool, ids, n).slots)
  {
    hide Resolve, PoolInvariant, RowAfter, HasWindow, GoodBatch, CarriesOwn, NextHist, AllOwn, Extended;
    AllCarryOwn(ctx, |ids|, own);
    var segs := SegmentsOf(ctx, |ids|);
    StepKeepsInvariant(project, s, t, ids, own, segs, n, w);
    forall i | 0 <= i < |ids|
      ensures Resolve(s.pool, ids, n).slots[i] < |t.cache|
      ensures ids[i] in t.hist
      ensures ReadsOwnWindow(t.hist[ids[i]], t.cache[Resolve(s.pool, ids, n).slots[i]], ctx.lastPositions[i])
    {
      SlotOfRow(project, s, t, Input(ids, own, segs), n, w, i);
      assert OwnWindow(t, ids[i]);
      AnchorOfRow(project, s.hist, ids, own, ctx, w, i);
    }
  }

  lemma AnchorOfRow<H, T>(project: Projection<H, T>, hist: map<ReqId, History<T>>, ids: seq<ReqId>,
                          own: seq<Segment<H>>,
                          ctx: Context<H>, w: nat, i: nat)
    requires GoodBatch(hist, ids, own, w) && AllOwn(ctx, |ids|, own) && i < |ids|
    requires forall j :: 0 <= j < |ids| ==> own[j].Valid() && own[j].xs != []
    ensures i < |ctx.lastPositions| && ids[i] in NextHist(project, hist, ids, own)
    ensures var h := NextHist(project, hist, ids, own)[ids[i]]; ctx.lastPositions[i] == h.start + |h.kv| - 1
  {
    hide Extended, GoodSegment, IsOwn, NextHist;
    HistoryOf(project, hist, ids, own, i);
    assert IsOwn(SegmentsOf(ctx, |ids|)[i], ctx.lastXs[i], ctx.lastPositions[i], own[i]);
    assert GoodSegment(hist, ids[i], own[i], w);
    AnchorIsLastPosition(project, hist, ids[i], own[i], w, SegmentsOf(ctx, |ids|)[i], ctx.lastXs[i],
        ctx.lastPositions[i]);
  }

  lemma EnoughSlots(p: Pool, ids: seq<ReqId>, n: nat)
    requires PoolInvariant(p, n) && DistinctIds(ids) && |ids| <= n
    ensures Resolve(p, ids, n).Assigned? && |Resolve(p, ids, n).slots| == |ids|
    ensures DistinctRows(Resolve(p, ids, n).slots, n)
  {
    IdSetSize(ids);
    ResolveSucceedsIff(p, ids, n);
    ResolveDistinct(p, ids, n);
  }

  lemma {:induction false} IdSetSize(ids: seq<ReqId>)
    ensures |IdSet(ids)| <= |ids|
  {
    if ids != [] {
      var m := |ids| - 1;
      IdSetSize(ids[..m]);
      assert ids == ids[..m] + [ids[m]];
      assert IdSet(ids) == IdSet(ids[..m]) + {ids[m]};
    }
  }
}
