// The storage that exceptions get from the emergency pool: 8 KiB, for at most 8 exceptions at a time.
module ExceptionStorage {
  import opened ExceptionSpec
  import opened ExceptionRuntime
  import opened ExceptionLifecycle

  // The sizes that were asked for, by the storage that the pool gave for them.
  type Sizes = map<Addr, nat>

  ghost function Noted(r: Run, c: Call, sizes: Sizes): Sizes {
    if c.CallAllocate? && c.mallocResult == 0 then sizes[Storage(r.s, c.thrownSize, 0) := c.thrownSize] else sizes
  }

  ghost function SizesAfter(r: Run, calls: seq<Call>, sizes: Sizes): Sizes
    decreases |calls|
  {
    if calls != [] && Callable(r, calls[0]) then SizesAfter(Step(r, calls[0]), calls[1..], Noted(r, calls[0], sizes))
    else sizes
  }

  // ---------- What the pool gives ----------

  // Header and object lie in the pool.
  predicate Inside(pool: Addr, p: Addr, size: nat) {
    pool <= p && p + 128 + size <= pool + 8192
  }

  // Headers and objects of two exceptions share no byte.
  predicate Disjoint(p: Addr, pSize: nat, q: Addr, qSize: nat) {
    p + 128 + pSize <= q || q + 128 + qSize <= p
  }

  ghost predicate Safe(pool: Addr, sizes: Sizes) {
    && (forall p :: p in sizes ==> Inside(pool, p, sizes[p]))
    && (forall p, q :: p in sizes && q in sizes && p != q ==> Disjoint(p, sizes[p], q, sizes[q]))
  }

  // All of it comes in slots, with sizes that fit into one.
  ghost predicate InSlots(r: Run, sizes: Sizes) {
    && |r.s.poolUsed| == NUM_OBJS
    && forall p :: p in sizes ==> IsSlot(r, p) && HEADER_SIZE + sizes[p] <= OBJ_SIZE
  }

  lemma NotedInSlots(r: Run, c: Call, sizes: Sizes)
    requires LegalCall(r, c) && Callable(r, c) && InSlots(r, sizes)
    ensures InSlots(Step(r, c), Noted(r, c, sizes)) && Step(r, c).s.pool == r.s.pool
  {
    if c.CallAllocate? && c.mallocResult == 0 {
      assert PoolSlot(r.s.pool, FirstFree(r.s.poolUsed)) == Storage(r.s, c.thrownSize, 0);
      assert IsSlot(r, Storage(r.s, c.thrownSize, 0));
    }
  }

  lemma SlotsAreSafe(r: Run, sizes: Sizes)
    requires InSlots(r, sizes)
    ensures Safe(r.s.pool, sizes)
  {
    forall p | p in sizes ensures Inside(r.s.pool, p, sizes[p]) {
      var i :| 0 <= i < NUM_OBJS && PoolSlot(r.s.pool, i) == p;
    }
    forall p, q | p in sizes && q in sizes && p != q ensures Disjoint(p, sizes[p], q, sizes[q]) {
      var i :| 0 <= i < NUM_OBJS && PoolSlot(r.s.pool, i) == p;
      var j :| 0 <= j < NUM_OBJS && PoolSlot(r.s.pool, j) == q;
    }
  }

  lemma {:induction false} RunInSlots(r: Run, calls: seq<Call>, sizes: Sizes)
    requires LegalRun(r, calls) && InSlots(r, sizes)
    ensures InSlots(RunEnd(r, calls), SizesAfter(r, calls, sizes)) && RunEnd(r, calls).s.pool == r.s.pool
    decreases |calls|
  {
    if calls != [] && Callable(r, calls[0]) {
      NotedInSlots(r, calls[0], sizes);
      RunInSlots(Step(r, calls[0]), calls[1..], Noted(r, calls[0], sizes));
    }
  }

  // Over every legal run, whatever the headers held, the exceptions in the pool lie in it and share no
  // byte, with their headers and the sizes that were asked for.
  lemma PoolSafe(r: Run, calls: seq<Call>)
    requires Initial(r) && LegalRun(r, calls)
    ensures Safe(r.s.pool, SizesAfter(r, calls, map[]))
  {
    RunInSlots(r, calls, map[]);
    SlotsAreSafe(RunEnd(r, calls), SizesAfter(r, calls, map[]));
  }

  // ---------- When the pool gives nothing ----------

  // What the pool gave and is in use.
  ghost function InUse(r: Run, sizes: Sizes): set<Addr> {
    set p | p in sizes && r.a.IsInUse(p)
  }

  // Every slot in use is noted.
  ghost predicate AllNoted(r: Run, sizes: Sizes) {
    forall p :: IsSlot(r, p) && r.a.IsInUse(p) ==> p in sizes
  }

  lemma StepNoted(r: Run, c: Call, sizes: Sizes)
    requires Inv(r) && LegalCall(r, c) && Callable(r, c) && AllNoted(r, sizes)
    ensures AllNoted(Step(r, c), Noted(r, c, sizes))
  {
    NewInUse(r.a, EventOf(r.s, c));
  }

  lemma NewInUse(a: Abstract, e: Event)
    requires Legal(a, e)
    ensures forall p :: Next(a, e).IsInUse(p) ==> a.IsInUse(p) || e == Event.Allocate(p)
  {
    if e.BeginCatch? {
      assert Next(a, e).handlers == [e.p] + a.handlers;
    }
  }

  lemma {:induction false} RunNoted(r: Run, calls: seq<Call>, sizes: Sizes)
    requires Inv(r) && LegalRun(r, calls) && FreshThrows(r, calls) && AllNoted(r, sizes)
    ensures AllNoted(RunEnd(r, calls), SizesAfter(r, calls, sizes))
    decreases |calls|
  {
    if calls != [] && Callable(r, calls[0]) {
      StepKeeps(r, calls[0]);
      StepNoted(r, calls[0], sizes);
      RunNoted(Step(r, calls[0]), calls[1..], Noted(r, calls[0], sizes));
    }
  }

  // After every legal run with fresh throws: when malloc gives nothing, there is storage unless the
  // object is larger than 896 bytes or 8 exceptions are in the pool already.
  lemma PoolRefusesIff(r: Run, calls: seq<Call>, thrownSize: nat)
    requires Initial(r) && LegalRun(r, calls) && FreshThrows(r, calls)
    ensures
      Storage(RunEnd(r, calls).s, thrownSize, 0) == 0 <==>
      thrownSize > 896 || |InUse(RunEnd(r, calls), SizesAfter(r, calls, map[]))| == 8
  {
    var end, sizes := RunEnd(r, calls), SizesAfter(r, calls, map[]);
    InitialInv(r);
    RunKeeps(r, calls);
    RunInSlots(r, calls, map[]);
    RunNoted(r, calls, map[]);
    FullIff(end, sizes);
    if FirstFree(end.s.poolUsed) < NUM_OBJS {
      assert SlotInv(end.s, end.a, FirstFree(end.s.poolUsed));
    }
  }

  function Slots(pool: Addr, n: nat): set<Addr> { set i | 0 <= i < n :: PoolSlot(pool, i) }

  lemma {:induction false} CountSlots(pool: Addr, n: nat)
    ensures |Slots(pool, n)| == n
  {
    if n > 0 {
      CountSlots(pool, n - 1);
      assert Slots(pool, n) == Slots(pool, n - 1) + {PoolSlot(pool, n - 1)};
    }
  }

  lemma FullIff(r: Run, sizes: Sizes)
    requires Inv(r) && InSlots(r, sizes) && AllNoted(r, sizes)
    ensures FirstFree(r.s.poolUsed) == NUM_OBJS <==> |InUse(r, sizes)| == NUM_OBJS
  {
    var all, used := Slots(r.s.pool, NUM_OBJS), InUse(r, sizes);
    CountSlots(r.s.pool, NUM_OBJS);
    assert used <= all;
    if FirstFree(r.s.poolUsed) == NUM_OBJS {
      forall i | 0 <= i < NUM_OBJS ensures PoolSlot(r.s.pool, i) in used {
        assert SlotInv(r.s, r.a, i);
        assert IsSlot(r, PoolSlot(r.s.pool, i));
      }
      assert used == all;
    } else {
      var p := PoolSlot(r.s.pool, FirstFree(r.s.poolUsed));
      assert SlotInv(r.s, r.a, FirstFree(r.s.poolUsed));
      assert p in all && p !in used;
      SmallerSet(used, all - {p});
    }
  }

  lemma SmallerSet(a: set<Addr>, b: set<Addr>)
    requires a <= b
    ensures |a| <= |b|
  {
    assert b == a + (b - a);
  }
}
