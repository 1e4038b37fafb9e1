/**
  Stable cache slots for running requests (_resolve_slots of dspark_proposer.py): a map from
  request ids to cache rows over a free list that hands out the lowest row first.
 */
module SlotAllocator {
  import opened Wrappers

  type ReqId = string

  datatype SlotError = NoFreeSlot | BufferTooSmall

  datatype Pool = Pool(slotOf: map<ReqId, nat>, free: seq<nat>)

  // ---- The invariant ----

  predicate Ascending(s: seq<nat>) {
    forall i, j :: 0 <= i < j < |s| ==> s[i] < s[j]
  }

  predicate Injective(m: map<ReqId, nat>) {
    forall a, b :: a in m && b in m && m[a] == m[b] ==> a == b
  }

  /** The slots of a group of requests. */
  function Released(m: map<ReqId, nat>, stale: set<ReqId>): (q: set<nat>)
    ensures forall r :: r in stale && r in m ==> m[r] in q
    ensures forall x :: x in q ==> exists r :: r in stale && r in m && m[r] == x
  {
    set r | r in stale && r in m :: m[r]
  }

  function Used(m: map<ReqId, nat>): set<nat> {
    Released(m, m.Keys)
  }

  /** Used and free slots partition [0, n), no slot is used twice, and the free list is ascending. */
  predicate PoolInvariant(p: Pool, n: nat) {
    && Injective(p.slotOf)
    && Ascending(p.free)
    && (forall r :: r in p.slotOf ==> p.slotOf[r] < n && p.slotOf[r] !in p.free)
    && (forall s :: s in p.free ==> s < n)
    && (forall s: nat :: s < n ==> s in p.free || s in Used(p.slotOf))
  }

  // ---- What a call does ----

  /** The members of s below n in ascending order: sorted(set(...)). */
  function Members(s: set<nat>, n: nat): (q: seq<nat>)
    ensures forall x :: x in q <==> x in s && x < n
    ensures Ascending(q)
  {
    if n == 0 then []
    else
      var q := Members(s, n - 1);
      if n - 1 in s then
        assert forall i :: 0 <= i < |q| ==> q[i] in q;
        q + [n - 1]
      else q
  }

  function Elements(s: seq<nat>): (q: set<nat>)
    ensures forall x :: x in q <==> x in s
  {
    set x | x in s
  }

  /** Requests that left the batch give their slots back, and the free list is sorted. */
  function Reclaim(p: Pool, ids: seq<ReqId>, n: nat): Pool {
    var kept := map r | r in p.slotOf && r in ids :: p.slotOf[r];
    var stale := set r | r in p.slotOf && r !in ids;
    Pool(kept, Members(Elements(p.free) + Released(p.slotOf, stale), n))
  }

  /**
    The pool and the slots after the first k requests of the batch, or the pool left behind when the free list
    ran out.
   */
  datatype Progress = Assigned(pool: Pool, slots: seq<nat>) | Exhausted(pool: Pool)

  function Assign(p: Pool, ids: seq<ReqId>, k: nat): Progress
    requires k <= |ids|
  {
    if k == 0 then Assigned(p, [])
    else
      var before := Assign(p, ids, k - 1);
      if before.Exhausted? then before
      else AssignOne(before, ids[k - 1])
  }

  function AssignOne(before: Progress, id: ReqId): Progress
    requires before.Assigned?
  {
    var p := before.pool;
    if id in p.slotOf then Assigned(p, before.slots + [p.slotOf[id]])
    else if p.free == [] then Exhausted(p)
    else Assigned(Pool(p.slotOf[id := p.free[0]], p.free[1..]), before.slots + [p.free[0]])
  }

  /** A processed call. */
  function Resolve(p: Pool, ids: seq<ReqId>, n: nat): Progress {
    Assign(Reclaim(p, ids, n), ids, |ids|)
  }

  function Identity(n: nat): (s: seq<nat>)
    ensures |s| == n && forall i :: 0 <= i < n ==> s[i] == i
  {
    seq(n, i => i)
  }

  function InitialPool(n: nat): Pool {
    Pool(map[], Identity(n))
  }

  // ---- One call ----

  lemma InitialPoolValid(n: nat)
    ensures PoolInvariant(InitialPool(n), n)
  {
    forall s: nat | s < n
      ensures s in Identity(n)
    {
      assert Identity(n)[s] == s;
    }
  }

  lemma ReclaimValid(p: Pool, ids: seq<ReqId>, n: nat)
    requires PoolInvariant(p, n)
    ensures PoolInvariant(Reclaim(p, ids, n), n)
  {
    var q := Reclaim(p, ids, n);
    forall s: nat | s < n
      ensures s in q.free || s in Used(q.slotOf)
    {
      if s in Used(p.slotOf) {
        var r :| r in p.slotOf && p.slotOf[r] == s;
        if r in ids {
          assert q.slotOf[r] == s;
        }
      }
    }
  }

  lemma AssignOneValid(before: Progress, id: ReqId, n: nat)
    requires before.Assigned? && PoolInvariant(before.pool, n)
    ensures PoolInvariant(AssignOne(before, id).pool, n)
  {
    var p := before.pool;
    if id !in p.slotOf && p.free != [] {
      var q := AssignOne(before, id).pool;
      assert p.free == [p.free[0]] + q.free;
      assert forall x :: x in p.free <==> x == p.free[0] || x in q.free;
      assert p.free[0] !in q.free;
      forall s: nat | s < n
        ensures s in q.free || s in Used(q.slotOf)
      {
        if s == p.free[0] {
          assert q.slotOf[id] == s;
        } else if s !in p.free {
          var r :| r in p.slotOf && p.slotOf[r] == s;
          assert q.slotOf[r] == s;
        }
      }
    }
  }

  /** Facts about the assignment loop after k requests. */
  lemma {:induction false} AssignInvariant(p: Pool, ids: seq<ReqId>, k: nat, n: nat)
    requires PoolInvariant(p, n) && k <= |ids|
    ensures PoolInvariant(Assign(p, ids, k).pool, n)
    ensures forall r :: r in p.slotOf ==>
              r in Assign(p, ids, k).pool.slotOf && Assign(p, ids, k).pool.slotOf[r] == p.slotOf[r]
    ensures forall r :: r in Assign(p, ids, k).pool.slotOf ==> r in p.slotOf || r in ids
    ensures Assign(p, ids, k).Assigned? ==>
              && |Assign(p, ids, k).slots| == k
              && forall i :: 0 <= i < k ==> ids[i] in Assign(p, ids, k).pool.slotOf
                                            && Assign(p, ids, k).slots[i] == Assign(p, ids, k).pool.slotOf[ids[i]]
  {
    hide PoolInvariant, AssignOne;
    if k > 0 {
      AssignInvariant(p, ids, k - 1, n);
      var before := Assign(p, ids, k - 1);
      if before.Assigned? {
        AssignOneValid(before, ids[k - 1], n);
        AssignOneAdds(before, ids[k - 1]);
      }
    }
  }

  /** One request: the slots before stay, and the request holds the slot appended. */
  lemma AssignOneAdds(before: Progress, id: ReqId)
    requires before.Assigned?
    ensures var after, m := AssignOne(before, id), AssignOne(before, id).pool.slotOf;
            && (forall r :: r in before.pool.slotOf ==> r in m && m[r] == before.pool.slotOf[r])
            && (forall r :: r in m ==> r in before.pool.slotOf || r == id)
            && (after.Assigned? ==> id in m && after.slots == before.slots + [m[id]])
  {
  }

  /**
    A processed call keeps the pool invariant; on success the pool then holds exactly the requests
    of the batch, row i of the result is the slot of request i, and every request that already had
    a slot keeps it.
   */
  lemma ResolveKeepsInvariant(p: Pool, ids: seq<ReqId>, n: nat)
    requires PoolInvariant(p, n)
    ensures PoolInvariant(Resolve(p, ids, n).pool, n)
    ensures forall r :: r in p.slotOf && r in ids ==>
              r in Resolve(p, ids, n).pool.slotOf && Resolve(p, ids, n).pool.slotOf[r] == p.slotOf[r]
    ensures Resolve(p, ids, n).Assigned? ==>
              && |Resolve(p, ids, n).slots| == |ids|
              && (forall r :: r in Resolve(p, ids, n).pool.slotOf <==> r in ids)
              && forall i :: 0 <= i < |ids| ==> Resolve(p, ids, n).slots[i] == Resolve(p, ids, n).pool.slotOf[ids[i]]
  {
    hide PoolInvariant;
    ReclaimValid(p, ids, n);
    AssignInvariant(Reclaim(p, ids, n), ids, |ids|, n);
  }

  /** The assignment loop only adds requests and slots. */
  lemma {:induction false} AssignGrows(p: Pool, ids: seq<ReqId>, j: nat, k: nat)
    requires j <= k <= |ids|
    ensures forall r :: r in Assign(p, ids, j).pool.slotOf ==>
              r in Assign(p, ids, k).pool.slotOf
              && Assign(p, ids, k).pool.slotOf[r] == Assign(p, ids, j).pool.slotOf[r]
    ensures Assign(p, ids, k).Assigned? ==>
              Assign(p, ids, j).Assigned? && Assign(p, ids, j).slots <= Assign(p, ids, k).slots
    decreases k
  {
    if j < k {
      AssignGrows(p, ids, j, k - 1);
    }
  }

  lemma {:induction false} AssignedSoFar(p: Pool, ids: seq<ReqId>, k: nat, r: ReqId)
    requires k <= |ids| && r in Assign(p, ids, k).pool.slotOf
    ensures r in p.slotOf || r in ids[..k]
  {
    if k > 0 && r !in Assign(p, ids, k - 1).pool.slotOf {
      assert ids[..k][k - 1] == ids[k - 1];
    } else if k > 0 {
      AssignedSoFar(p, ids, k - 1, r);
      assert forall x :: x in ids[..k - 1] ==> x in ids[..k];
    }
  }

  lemma LowerIsUsed(p: Pool, n: nat, s: nat) returns (r: ReqId)
    requires PoolInvariant(p, n) && p.free != [] && s < p.free[0]
    ensures r in p.slotOf && p.slotOf[r] == s
  {
    assert p.free[0] in p.free;
    assert s !in p.free;
    r :| r in p.slotOf && p.slotOf[r] == s;
  }

  /**
    A request that is new to the allocator gets the lowest row that is free at its turn: every lower row
    belongs to a request of the batch that had a slot before the call or comes earlier in the batch.
   */
  lemma NewRequestGetsLowest(p: Pool, ids: seq<ReqId>, n: nat, k: nat, s: nat) returns (r: ReqId)
    requires PoolInvariant(p, n) && Resolve(p, ids, n).Assigned? && k < |ids|
    requires ids[k] !in p.slotOf && ids[k] !in ids[..k]
    requires |Resolve(p, ids, n).slots| == |ids| && s < Resolve(p, ids, n).slots[k]
    ensures r in ids && (r in p.slotOf || r in ids[..k])
    ensures r in Resolve(p, ids, n).pool.slotOf && Resolve(p, ids, n).pool.slotOf[r] == s
  {
    hide PoolInvariant;
    var q := Reclaim(p, ids, n);
    ReclaimValid(p, ids, n);
    AssignInvariant(q, ids, k, n);
    AssignGrows(q, ids, k, |ids|);
    AssignGrows(q, ids, k + 1, |ids|);
    var before := Assign(q, ids, k);
    if ids[k] in before.pool.slotOf {
      AssignedSoFar(q, ids, k, ids[k]);
    }
    assert Resolve(p, ids, n).slots[k] == before.pool.free[0];
    r := LowerIsUsed(before.pool, n, s);
    AssignedSoFar(q, ids, k, r);
    assert forall x :: x in ids[..k] ==> x in ids;
  }

  predicate DistinctIds(ids: seq<ReqId>) {
    forall i, j :: 0 <= i < j < |ids| ==> ids[i] != ids[j]
  }

  /** Distinct requests get distinct rows, all of them inside the cache. */
  lemma ResolveDistinct(p: Pool, ids: seq<ReqId>, n: nat)
    requires PoolInvariant(p, n) && DistinctIds(ids) && Resolve(p, ids, n).Assigned?
    ensures |Resolve(p, ids, n).slots| == |ids|
    ensures forall i :: 0 <= i < |ids| ==> Resolve(p, ids, n).slots[i] < n
    ensures forall i, j :: 0 <= i < j < |ids| ==> Resolve(p, ids, n).slots[i] != Resolve(p, ids, n).slots[j]
  {
    ResolveKeepsInvariant(p, ids, n);
    var slotOf, slots := Resolve(p, ids, n).pool.slotOf, Resolve(p, ids, n).slots;
    forall i, j | 0 <= i < j < |ids|
      ensures slots[i] != slots[j]
    {
      assert slots[i] == slotOf[ids[i]] && slots[j] == slotOf[ids[j]];
    }
  }

  // ---- The free list never runs dry ----

  function Below(n: nat): (s: set<nat>)
    ensures forall x: nat :: x in s <==> x < n
    ensures |s| == n
  {
    if n == 0 then {} else Below(n - 1) + {n - 1}
  }

  /** When the free list is empty, all n slots are used. */
  lemma EmptyFreeMeansFull(p: Pool, n: nat)
    requires PoolInvariant(p, n) && p.free == []
    ensures |p.slotOf.Keys| >= n
  {
    SubsetSize(Below(n), Used(p.slotOf));
    ReleasedSize(p.slotOf, p.slotOf.Keys);
  }

  lemma {:induction false} SubsetSize<T>(a: set<T>, b: set<T>)
    requires a <= b
    ensures |a| <= |b|
  {
    if a != {} {
      var x :| x in a;
      SubsetSize(a - {x}, b - {x});
    }
  }

  lemma {:induction false} ReleasedSize(m: map<ReqId, nat>, group: set<ReqId>)
    requires group <= m.Keys
    ensures |Released(m, group)| <= |group|
    ensures Injective(m) ==> |Released(m, group)| == |group|
  {
    if group != {} {
      var r :| r in group;
      ReleasedSize(m, group - {r});
      assert Released(m, group) == Released(m, group - {r}) + {m[r]};
    }
  }

  function IdSet(ids: seq<ReqId>): set<ReqId> {
    set r | r in ids
  }

  lemma {:induction false} AssignSucceeds(p: Pool, ids: seq<ReqId>, k: nat, n: nat)
    requires PoolInvariant(p, n) && k <= |ids| && |IdSet(ids)| <= n
    requires forall r :: r in p.slotOf ==> r in ids
    ensures Assign(p, ids, k).Assigned?
  {
    if k > 0 {
      AssignSucceeds(p, ids, k - 1, n);
      AssignInvariant(p, ids, k - 1, n);
      var q, id := Assign(p, ids, k - 1).pool, ids[k - 1];
      if id !in q.slotOf && q.free == [] {
        EmptyFreeMeansFull(q, n);
        assert q.slotOf.Keys + {id} <= IdSet(ids);
        SubsetSize(q.slotOf.Keys + {id}, IdSet(ids));
        assert false;
      }
    }
  }

  /** A call runs out of slots exactly when the batch has more distinct requests than cache rows. */
  lemma ResolveSucceedsIff(p: Pool, ids: seq<ReqId>, n: nat)
    requires PoolInvariant(p, n)
    ensures Resolve(p, ids, n).Assigned? <==> |IdSet(ids)| <= n
  {
    ReclaimValid(p, ids, n);
    if |IdSet(ids)| <= n {
      AssignSucceeds(Reclaim(p, ids, n), ids, |ids|, n);
    } else if Resolve(p, ids, n).Assigned? {
      ResolveKeepsInvariant(p, ids, n);
      var m := Resolve(p, ids, n).pool.slotOf;
      assert m.Keys == IdSet(ids);
      ReleasedSize(m, m.Keys);
      SubsetSize(Used(m), Below(n));
      assert false;
    }
  }

  // ---- Identity is stable for append-only batches ----

  /** Requests occupy the rows in batch order. */
  ghost predicate InOrder(p: Pool, ids: seq<ReqId>) {
    && (forall r :: r in p.slotOf <==> r in ids)
    && forall i :: 0 <= i < |ids| ==> ids[i] in p.slotOf && p.slotOf[ids[i]] == i
  }

  lemma {:induction false} AppendAssign(p: Pool, kept: seq<ReqId>, ids: seq<ReqId>, k: nat, n: nat)
    requires PoolInvariant(p, n) && InOrder(p, kept) && kept <= ids && DistinctIds(ids) && |ids| <= n
    requires |kept| <= k <= |ids|
    ensures Assign(p, ids, k) == Assigned(Assign(p, ids, k).pool, Identity(k))
    ensures InOrder(Assign(p, ids, k).pool, ids[..k])
    decreases k
  {
    hide PoolInvariant, InOrder, DistinctIds;
    if k == |kept| {
      KeptPrefix(p, kept, ids, k);
      assert ids[..k] == kept;
    } else {
      AppendAssign(p, kept, ids, k - 1, n);
      AssignInvariant(p, ids, k - 1, n);
      AppendOne(Assign(p, ids, k - 1), ids, k, n);
    }
  }

  lemma AppendOne(before: Progress, ids: seq<ReqId>, k: nat, n: nat)
    requires 1 <= k <= |ids| <= n && DistinctIds(ids)
    requires before.Assigned? && before.slots == Identity(k - 1)
    requires PoolInvariant(before.pool, n) && InOrder(before.pool, ids[..k - 1])
    ensures AssignOne(before, ids[k - 1]) == Assigned(AssignOne(before, ids[k - 1]).pool, Identity(k))
    ensures InOrder(AssignOne(before, ids[k - 1]).pool, ids[..k])
  {
    LowestFree(before.pool, ids[..k - 1], n);
    hide PoolInvariant;
    assert ids[k - 1] !in ids[..k - 1];
    assert ids[..k] == ids[..k - 1] + [ids[k - 1]];
    assert forall i :: 0 <= i < k - 1 ==> ids[i] == ids[..k - 1][i];
    assert Identity(k) == Identity(k - 1) + [k - 1];
  }

  lemma {:induction false} KeptPrefix(p: Pool, kept: seq<ReqId>, ids: seq<ReqId>, k: nat)
    requires InOrder(p, kept) && kept <= ids && k <= |kept|
    ensures Assign(p, ids, k) == Assigned(p, Identity(k))
  {
    if k > 0 {
      KeptPrefix(p, kept, ids, k - 1);
      assert ids[k - 1] == kept[k - 1];
      assert Identity(k) == Identity(k - 1) + [k - 1];
    }
  }

  lemma LowestFree(p: Pool, ids: seq<ReqId>, n: nat)
    requires PoolInvariant(p, n) && InOrder(p, ids) && |ids| < n
    ensures p.free != [] && p.free[0] == |ids|
  {
    var k := |ids|;
    forall r | r in p.slotOf
      ensures p.slotOf[r] < k
    {
      var i :| 0 <= i < |ids| && ids[i] == r;
    }
    assert k in p.free;
    var x :| 0 <= x < |p.free| && p.free[x] == k;
    assert p.free[0] <= k;
    forall s | 0 <= s < k
      ensures s !in p.free
    {
      assert p.slotOf[ids[s]] == s;
    }
    assert p.free[0] in p.free;
  }

  /** If the survivors of the last batch lead the new one in row order, the batch is on the identity fast path. */
  lemma AppendOnlyStaysIdentity(p: Pool, kept: seq<ReqId>, ids: seq<ReqId>, n: nat)
    requires PoolInvariant(p, n) && InOrder(Reclaim(p, ids, n), kept) && kept <= ids && DistinctIds(ids) && |ids| <= n
    ensures Resolve(p, ids, n).Assigned? && Resolve(p, ids, n).slots == Identity(|ids|)
    ensures InOrder(Resolve(p, ids, n).pool, ids)
  {
    ReclaimValid(p, ids, n);
    AppendAssign(Reclaim(p, ids, n), kept, ids, |ids|, n);
    assert ids[..|ids|] == ids;
  }

  // ---- Whole runs ----

  /** The pool after a sequence of processed calls, if none ran out of slots. */
  function Run(n: nat, calls: seq<seq<ReqId>>): Pool {
    if calls == [] then InitialPool(n)
    else Resolve(Run(n, calls[..|calls| - 1]), calls[|calls| - 1], n).pool
  }

  /** The invariant holds after every sequence of calls, successful or not. */
  lemma {:induction false} RunKeepsInvariant(n: nat, calls: seq<seq<ReqId>>)
    ensures PoolInvariant(Run(n, calls), n)
  {
    hide PoolInvariant;
    if calls == [] {
      InitialPoolValid(n);
    } else {
      RunKeepsInvariant(n, calls[..|calls| - 1]);
      ResolveKeepsInvariant(Run(n, calls[..|calls| - 1]), calls[|calls| - 1], n);
    }
  }

  lemma RunNext(n: nat, calls: seq<seq<ReqId>>, j: nat)
    requires 1 <= j <= |calls|
    ensures Run(n, calls[..j]) == Resolve(Run(n, calls[..j - 1]), calls[j - 1], n).pool
  {
    assert calls[..j][..j - 1] == calls[..j - 1];
  }

  /** A request present in every call from i to j keeps the slot it has after call i. */
  lemma {:induction false} RunKeepsSlots(n: nat, calls: seq<seq<ReqId>>, i: nat, j: nat, r: ReqId)
    requires 1 <= i <= j <= |calls| && r in Run(n, calls[..i]).slotOf
    requires forall k :: i <= k < j ==> r in calls[k]
    ensures r in Run(n, calls[..j]).slotOf
    ensures Run(n, calls[..j]).slotOf[r] == Run(n, calls[..i]).slotOf[r]
    decreases j
  {
    hide PoolInvariant, Run, Resolve;
    if i < j {
      RunKeepsSlots(n, calls, i, j - 1, r);
      RunKeepsInvariant(n, calls[..j - 1]);
      RunNext(n, calls, j);
      ResolveKeepsInvariant(Run(n, calls[..j - 1]), calls[j - 1], n);
    }
  }

  /** A server that runs one request at a time never leaves the identity fast path, whatever requests come and go. */
  lemma {:induction false} SingleStreamStaysIdentity(n: nat, calls: seq<seq<ReqId>>)
    requires n >= 1 && |calls| >= 1 && forall k :: 0 <= k < |calls| ==> |calls[k]| == 1
    ensures Resolve(Run(n, calls[..|calls| - 1]), calls[|calls| - 1], n).Assigned?
    ensures Resolve(Run(n, calls[..|calls| - 1]), calls[|calls| - 1], n).slots == Identity(1)
    ensures InOrder(Run(n, calls), calls[|calls| - 1])
  {
    hide PoolInvariant, Assign, Members;
    var before, ids := calls[..|calls| - 1], calls[|calls| - 1];
    RunKeepsInvariant(n, before);
    var p := Run(n, before);
    if before == [] {
      AppendOnlyStaysIdentity(p, [], ids, n);
    } else {
      SingleStreamStaysIdentity(n, before);
      var last := before[|before| - 1];
      AppendOnlyStaysIdentity(p, if last == ids then last else [], ids, n);
    }
  }

  // ---- The allocator object ----

  class Slots {
    const maxBatch: nat
    var slotOf: map<ReqId, nat>
    var free: seq<nat>
    const buffer: array<nat>

    ghost function Abs(): Pool
      reads this
    {
      Pool(slotOf, free)
    }

    ghost predicate Valid()
      reads this
    {
      PoolInvariant(Abs(), maxBatch) && buffer.Length == maxBatch
    }

    constructor (maxBatch: nat)
      ensures Valid() && this.maxBatch == maxBatch && Abs() == InitialPool(maxBatch) && fresh(buffer)
    {
      this.maxBatch := maxBatch;
      slotOf := map[];
      free := Identity(maxBatch);
      buffer := new nat[maxBatch](i => i);
      InitialPoolValid(maxBatch);
    }

    /**
      Slots for the requests of this step in batch order; None stands for the identity permutation,
      and for the fallback of a call whose id list is missing or does not match the batch.
     */
    method ResolveSlots(reqIds: Option<seq<ReqId>>, batchSize: nat) returns (r: Result<Option<seq<nat>>, SlotError>)
      requires Valid()
      modifies this, buffer
      ensures Valid()
      ensures reqIds.None? || |reqIds.value| != batchSize ==>
                r == Success(None) && Abs() == old(Abs()) && buffer[..] == old(buffer[..])
      ensures reqIds.Some? && |reqIds.value| == batchSize ==>
                var next := Resolve(old(Abs()), reqIds.value, maxBatch);
                && Abs() == next.pool
                && (next.Exhausted? ==> r == Failure(NoFreeSlot))
                && (next.Assigned? ==>
                     if next.slots == Identity(batchSize) then r == Success(None)
                     else if batchSize <= maxBatch then r == Success(Some(next.slots))
                          && buffer[..batchSize] == next.slots
                     else r == Failure(BufferTooSmall))
    {
      hide PoolInvariant;
      if reqIds.None? || |reqIds.value| != batchSize {
        return Success(None);
      }
      var ids := reqIds.value;
      ReclaimSlots(ids);
      ResolveKeepsInvariant(old(Abs()), ids, maxBatch);
      ghost var start := Abs();
      var slots: seq<nat> := [];
      for k := 0 to |ids|
        invariant Assign(start, ids, k) == Assigned(Abs(), slots)
      {
        AssignStops(start, ids, k + 1, |ids|);
        var slot: nat;
        if ids[k] in slotOf {
          slot := slotOf[ids[k]];
        } else {
          if free == [] {
            return Failure(NoFreeSlot);
          }
          slot := free[0];
          free := free[1..];
          slotOf := slotOf[ids[k] := slot];
        }
        slots := slots + [slot];
      }
      if slots == Identity(batchSize) {
        return Success(None);
      }
      if batchSize > buffer.Length {
        return Failure(BufferTooSmall);
      }
      assert |slots| == batchSize;
      forall i | 0 <= i < batchSize {
        buffer[i] := slots[i];
      }
      assert buffer[..batchSize] == slots;
      return Success(Some(buffer[..batchSize]));
    }

    /** Requests that are no longer running return their slots; the free list is sorted afterwards. */
    method ReclaimSlots(ids: seq<ReqId>)
      requires Valid()
      modifies this
      ensures Abs() == Reclaim(old(Abs()), ids, maxBatch)
    {
      hide PoolInvariant;
      var stale := set r | r in slotOf && r !in ids;
      ghost var all, m := stale, slotOf;
      while stale != {}
        invariant stale <= all <= m.Keys
        invariant slotOf == m - (all - stale)
        invariant Elements(free) == Elements(old(free)) + Released(m, all - stale)
        decreases stale
      {
        var r :| r in stale;
        assert Released(m, all - (stale - {r})) == Released(m, all - stale) + {m[r]} by {
          assert all - (stale - {r}) == (all - stale) + {r};
        }
        assert slotOf[r] == m[r];
        free := free + [slotOf[r]];
        slotOf := slotOf - {r};
        stale := stale - {r};
      }
      free := Members(Elements(free), maxBatch);
      assert all - {} == all;
      assert slotOf == map r | r in m && r in ids :: m[r];
    }
  }

  /** Once the free list has run out the call has failed. */
  lemma {:induction false} AssignStops(p: Pool, ids: seq<ReqId>, k: nat, m: nat)
    requires k <= m <= |ids|
    ensures Assign(p, ids, k).Exhausted? ==> Assign(p, ids, m) == Assign(p, ids, k)
    decreases m
  {
    if k < m {
      AssignStops(p, ids, k, m - 1);
    }
  }
}
