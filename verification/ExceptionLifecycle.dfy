// Every legal run of the exception runtime follows the abstract account of exception objects.
module ExceptionLifecycle {
  import opened ExceptionSpec
  import opened ExceptionRuntime
  import opened Limits

  // ---------- Runs ----------

  // A call of the runtime; an allocation comes with what malloc answered, and with what the header
  // in that block happens to hold.
  datatype Call =
    | CallAllocate(thrownSize: nat, mallocResult: Addr, found: Header)
    | CallDiscard(p: Addr)
    | CallThrow(p: Addr)
    | CallBeginCatch(p: Addr)
    | CallEndCatch
    | CallRethrow

  // The runtime's state, its abstraction, what has been thrown and what malloc has given so far.
  datatype Run = Run(s: State, a: Abstract, thrown: multiset<Addr>, taken: multiset<Addr>)

  function EventOf(s: State, c: Call): Event {
    match c
    case CallAllocate(size, m, _) => Event.Allocate(Storage(s, size, m))
    case CallDiscard(p) => Event.Discard(p)
    case CallThrow(p) => Event.Throw(p)
    case CallBeginCatch(p) => Event.BeginCatch(p)
    case CallEndCatch => Event.EndCatch
    case CallRethrow => Event.Rethrow
  }

  ghost predicate IsSlot(r: Run, p: Addr) {
    InPool(r.s.pool, NUM_OBJS, p)
  }

  // malloc hands out storage that is not in use; the compiler's calls are legal.
  ghost predicate LegalCall(r: Run, c: Call) {
    match c
    case CallAllocate(size, m, _) =>
      Storage(r.s, size, m) != 0 && (m != 0 ==> !r.a.IsInUse(m) && !IsSlot(r, m))
    case _ => Legal(r.a, EventOf(r.s, c))
  }

  // The storage of a thrown exception has a zero where its handler count will be.
  predicate FreshHeader(r: Run, c: Call) {
    c.CallThrow? && c.p in r.s.mem ==> r.s.mem[c.p].handlerCount == 0
  }

  function StateAfter(s: State, c: Call): State
    requires c.CallThrow? || c.CallBeginCatch? ==> c.p in s.mem
    requires c.CallEndCatch? || c.CallRethrow? ==> s.caughtExceptions == 0 || s.caughtExceptions in s.mem
    requires c.CallRethrow? ==> s.caughtExceptions != 0
  {
    match c
    case CallAllocate(size, m, found) => Allocated(s, size, m, found)
    case CallDiscard(p) => Freed(s, p)
    case CallThrow(p) => Thrown(s, p)
    case CallBeginCatch(p) => CatchBegun(s, p)
    case CallEndCatch => CatchEnded(s)
    case CallRethrow => Rethrown(s)
  }

  // ---------- The invariant ----------

  ghost predicate Linked(mem: map<Addr, Header>, head: Addr, list: seq<Addr>)
    decreases list
  {
    if list == [] then head == 0
    else head == list[0] && head in mem && Linked(mem, mem[head].nextException, list[1..])
  }

  ghost predicate StorageInv(s: State, a: Abstract) {
    && |s.poolUsed| == NUM_OBJS && s.pool > 0
    && (forall p :: a.IsInUse(p) ==> p != 0 && p in s.mem)
    && (forall i :: 0 <= i < NUM_OBJS ==> SlotInv(s, a, i))
    && (forall p :: p in a.reserved ==> !a.IsLive(p))
  }

  ghost predicate SlotInv(s: State, a: Abstract, i: nat)
    requires i < |s.poolUsed|
  {
    PoolSlot(s.pool, i) in s.mem && (s.poolUsed[i] <==> a.IsInUse(PoolSlot(s.pool, i)))
  }

  ghost predicate CountsOf(h: Header, a: Abstract, p: Addr) {
    var handlers: int := Handlers(a.handlers, p);
    && h.referenceCount == 1
    && h.handlerCount == (if p in a.handlers && p in a.inFlight then -handlers else handlers)
  }

  ghost predicate CountsInv(s: State, a: Abstract) {
    forall p :: a.IsLive(p) ==> p in s.mem && CountsOf(s.mem[p], a, p)
  }

  ghost predicate ListInv(s: State, a: Abstract) {
    NoDuplicates(Merged(a.handlers)) && Linked(s.mem, s.caughtExceptions, Merged(a.handlers))
  }

  ghost predicate UncaughtInv(s: State, a: Abstract) {
    s.uncaughtExceptions == |a.inFlight| % UINT_LIMIT
  }

  ghost predicate LogInv(r: Run) {
    && (forall p :: r.thrown[p] == r.s.destroyed[p] + if r.a.IsLive(p) then 1 else 0)
    && (forall p :: r.taken[p] == r.s.freed[p] + if r.a.IsInUse(p) && !IsSlot(r, p) then 1 else 0)
  }

  ghost predicate Inv(r: Run) {
    StorageInv(r.s, r.a) && CountsInv(r.s, r.a) && ListInv(r.s, r.a) && UncaughtInv(r.s, r.a) && LogInv(r)
  }

  // The call is defined: it only touches headers that exist, and does not terminate the program.
  ghost predicate Callable(r: Run, c: Call) {
    && Legal(r.a, EventOf(r.s, c))
    && (c.CallThrow? || c.CallBeginCatch? ==> c.p in r.s.mem)
    && (c.CallEndCatch? || c.CallRethrow? ==> r.s.caughtExceptions == 0 || r.s.caughtExceptions in r.s.mem)
    && (c.CallEndCatch? ==> !EndCatchTerminates(r.s))
    && (c.CallRethrow? ==> r.s.caughtExceptions != 0)
  }

  ghost function Step(r: Run, c: Call): Run
    requires Callable(r, c)
  {
    Run(StateAfter(r.s, c), Next(r.a, EventOf(r.s, c)),
        if c.CallThrow? then r.thrown + multiset{c.p} else r.thrown,
        if c.CallAllocate? && c.mallocResult != 0 then r.taken + multiset{c.mallocResult} else r.taken)
  }

  ghost predicate LegalRun(r: Run, calls: seq<Call>)
    decreases |calls|
  {
    calls != [] ==> LegalCall(r, calls[0]) && (Callable(r, calls[0]) ==> LegalRun(Step(r, calls[0]), calls[1..]))
  }

  // Every throw finds a zero where the handler count will be.
  ghost predicate FreshThrows(r: Run, calls: seq<Call>)
    decreases |calls|
  {
    calls != [] ==> FreshHeader(r, calls[0]) && (Callable(r, calls[0]) ==> FreshThrows(Step(r, calls[0]), calls[1..]))
  }

  ghost function RunEnd(r: Run, calls: seq<Call>): Run
    decreases |calls|
  {
    if calls != [] && Callable(r, calls[0]) then RunEnd(Step(r, calls[0]), calls[1..]) else r
  }

  ghost predicate AllCallable(r: Run, calls: seq<Call>)
    decreases |calls|
  {
    calls != [] ==> Callable(r, calls[0]) && AllCallable(Step(r, calls[0]), calls[1..])
  }

  // The runtime as the program finds it, over memory that contains the pool.
  ghost predicate Initial(r: Run) {
    && r.a == NONE && r.thrown == multiset{} && r.taken == multiset{}
    && r.s.caughtExceptions == 0 && r.s.uncaughtExceptions == 0 && r.s.pool > 0
    && |r.s.poolUsed| == NUM_OBJS && (forall i :: 0 <= i < NUM_OBJS ==> !r.s.poolUsed[i])
    && (forall i :: 0 <= i < NUM_OBJS ==>
         PoolSlot(r.s.pool, i) in r.s.mem && r.s.mem[PoolSlot(r.s.pool, i)].handlerCount == 0)
    && r.s.destroyed == multiset{} && r.s.freed == multiset{}
  }

  // ---------- Facts about the list ----------

  lemma {:induction false} LinkedKept(mem: map<Addr, Header>, mem': map<Addr, Header>, head: Addr, list: seq<Addr>)
    requires Linked(mem, head, list)
    requires forall p :: p in list && p in mem ==> p in mem' && mem'[p].nextException == mem[p].nextException
    ensures Linked(mem', head, list)
    decreases list
  {
    if list != [] {
      assert list == [list[0]] + list[1..];
      LinkedKept(mem, mem', mem[head].nextException, list[1..]);
    }
  }

  // The invariant fixes the head of the list, so that every call is defined.
  lemma HeadOfList(r: Run)
    requires Inv(r)
    ensures r.s.caughtExceptions == 0 <==> r.a.handlers == []
    ensures r.a.handlers != [] ==> r.s.caughtExceptions == r.a.handlers[0] && r.s.caughtExceptions in r.s.mem
  {
    MergedMembers(r.a.handlers);
    if r.a.handlers != [] {
      assert r.a.IsInUse(r.a.handlers[0]);
    }
  }

  // ---------- Storage ----------

  lemma StorageKept(s: State, s': State, a: Abstract, a': Abstract)
    requires StorageInv(s, a)
    requires s'.pool == s.pool && s'.poolUsed == s.poolUsed && s.mem.Keys <= s'.mem.Keys
    requires forall p :: a'.IsInUse(p) <==> a.IsInUse(p)
    requires forall p :: p in a'.reserved ==> !a'.IsLive(p)
    ensures StorageInv(s', a')
  {
    forall i | 0 <= i < NUM_OBJS ensures SlotInv(s', a', i) {
      assert SlotInv(s, a, i);
    }
  }

  lemma StorageFreed(s: State, a: Abstract, a': Abstract, p: Addr)
    requires StorageInv(s, a)
    requires forall q :: a'.IsInUse(q) <==> a.IsInUse(q) && q != p
    requires forall q :: q in a'.reserved ==> !a'.IsLive(q)
    ensures StorageInv(Freed(s, p), a')
  {
    forall i | 0 <= i < NUM_OBJS ensures SlotInv(Freed(s, p), a', i) {
      assert SlotInv(s, a, i);
    }
  }

  lemma AllocateKeeps(r: Run, c: Call)
    requires Inv(r) && LegalCall(r, c) && c.CallAllocate?
    ensures Callable(r, c) && Inv(Step(r, c))
  {
    AllocateStorage(r, c);
    AllocateOthers(r, c);
  }

  lemma AllocateStorage(r: Run, c: Call)
    requires Inv(r) && LegalCall(r, c) && c.CallAllocate?
    ensures Callable(r, c) && StorageInv(Step(r, c).s, Step(r, c).a)
  {
    var p := Storage(r.s, c.thrownSize, c.mallocResult);
    var i := FirstFree(r.s.poolUsed);
    if c.mallocResult == 0 {
      assert SlotInv(r.s, r.a, i);
    }
    assert !r.a.IsInUse(p);
    var r' := Step(r, c);
    assert forall q :: r'.a.IsInUse(q) <==> r.a.IsInUse(q) || q == p;
    forall j | 0 <= j < NUM_OBJS ensures SlotInv(r'.s, r'.a, j) {
      assert SlotInv(r.s, r.a, j);
      assert IsSlot(r, PoolSlot(r.s.pool, j));
    }
  }

  lemma AllocateOthers(r: Run, c: Call)
    requires Inv(r) && LegalCall(r, c) && c.CallAllocate? && Callable(r, c)
    ensures CountsInv(Step(r, c).s, Step(r, c).a) && ListInv(Step(r, c).s, Step(r, c).a) && LogInv(Step(r, c))
  {
    var p, r' := Storage(r.s, c.thrownSize, c.mallocResult), Step(r, c);
    assert r'.a.inFlight == r.a.inFlight && r'.a.handlers == r.a.handlers;
    MergedMembers(r.a.handlers);
    assert forall q :: r.a.IsLive(q) ==> r.a.IsInUse(q) && q != c.mallocResult;
    LinkedKept(r.s.mem, r'.s.mem, r.s.caughtExceptions, Merged(r.a.handlers));
    forall q | r'.a.IsLive(q) ensures q in r'.s.mem && CountsOf(r'.s.mem[q], r'.a, q) {
      assert r.a.IsLive(q) && CountsOf(r.s.mem[q], r.a, q);
    }
    if c.mallocResult == 0 {
      assert IsSlot(r, p);
    }
  }

  lemma DiscardKeeps(r: Run, c: Call)
    requires Inv(r) && LegalCall(r, c) && c.CallDiscard?
    ensures Callable(r, c) && Inv(Step(r, c))
  {
    var r' := Step(r, c);
    assert r.a.IsInUse(c.p);
    StorageFreed(r.s, r.a, r'.a, c.p);
    forall q | r'.a.IsLive(q) ensures CountsOf(r'.s.mem[q], r'.a, q) {
      assert r.a.IsLive(q) && CountsOf(r.s.mem[q], r.a, q);
    }
  }

  // ---------- Throwing, catching, rethrowing ----------

  lemma ThrowKeeps(r: Run, c: Call)
    requires Inv(r) && LegalCall(r, c) && FreshHeader(r, c) && c.CallThrow?
    ensures Callable(r, c) && Inv(Step(r, c))
  {
    assert r.a.IsInUse(c.p) && !r.a.IsLive(c.p);
    var r' := Step(r, c);
    StorageKept(r.s, r'.s, r.a, r'.a);
    MergedMembers(r.a.handlers);
    LinkedKept(r.s.mem, r'.s.mem, r.s.caughtExceptions, Merged(r.a.handlers));
    ThrowCounts(r, c.p);
    OneMore(r.a.inFlight, c.p);
  }

  // At every point of a run, a throw keeps the invariant exactly if the storage is fresh.
  lemma ThrowKeepsIff(r: Run, p: Addr)
    requires Inv(r) && p in r.a.reserved
    ensures Callable(r, CallThrow(p)) && (Inv(Step(r, CallThrow(p))) <==> r.s.mem[p].handlerCount == 0)
  {
    assert r.a.IsInUse(p) && !r.a.IsLive(p);
    HandlersPositive(r.a.handlers, p);
    if r.s.mem[p].handlerCount == 0 {
      ThrowKeeps(r, CallThrow(p));
    } else {
      var r' := Step(r, CallThrow(p));
      assert r'.a.IsLive(p) && r'.s.mem[p].handlerCount == r.s.mem[p].handlerCount;
      assert !CountsOf(r'.s.mem[p], r'.a, p);
    }
  }

  lemma ThrowCounts(r: Run, p: Addr)
    requires Inv(r) && p in r.s.mem && p in r.a.reserved && !r.a.IsLive(p) && r.s.mem[p].handlerCount == 0
    ensures CountsInv(Thrown(r.s, p), Next(r.a, Event.Throw(p)))
  {
    var s', a' := Thrown(r.s, p), Next(r.a, Event.Throw(p));
    HandlersPositive(r.a.handlers, p);
    forall q | a'.IsLive(q) ensures q in s'.mem && CountsOf(s'.mem[q], a', q) {
      assert q != p ==> r.a.IsLive(q) && CountsOf(r.s.mem[q], r.a, q);
    }
  }

  lemma OneMore(s: set<Addr>, p: Addr)
    ensures p !in s ==> |s + {p}| % UINT_LIMIT == (|s| % UINT_LIMIT + 1) % UINT_LIMIT
    ensures p in s ==> |s - {p}| % UINT_LIMIT == (|s| % UINT_LIMIT - 1) % UINT_LIMIT
  {
    assert p !in s ==> |s + {p}| == |s| + 1;
    assert p in s ==> |s - {p}| == |s| - 1;
  }

  lemma BeginCatchKeeps(r: Run, c: Call)
    requires Inv(r) && LegalCall(r, c) && c.CallBeginCatch?
    ensures Callable(r, c) && Inv(Step(r, c))
  {
    assert r.a.IsLive(c.p) && r.a.IsInUse(c.p);
    HeadOfList(r);
    var r', h := Step(r, c), r.a.handlers;
    forall q ensures r'.a.IsLive(q) <==> r.a.IsLive(q) {
      assert r'.a.handlers == [c.p] + h;
    }
    StorageKept(r.s, r'.s, r.a, r'.a);
    BeginCatchList(r, c.p);
    BeginCatchCounts(r, c.p);
    OneMore(r.a.inFlight, c.p);
  }

  lemma BeginCatchList(r: Run, p: Addr)
    requires Inv(r) && LegalCall(r, CallBeginCatch(p)) && p in r.s.mem
    requires r.a.handlers != [] ==> r.s.caughtExceptions == r.a.handlers[0]
    requires r.s.caughtExceptions == 0 <==> r.a.handlers == []
    ensures ListInv(CatchBegun(r.s, p), Next(r.a, BeginCatch(p)))
  {
    var s', h := CatchBegun(r.s, p), r.a.handlers;
    assert r.a.IsInUse(p);
    MergedMembers(h);
    MergedPush(h, p);
    LinkedKept(r.s.mem, s'.mem, r.s.caughtExceptions, Merged(h));
    assert ([p] + Merged(h))[1..] == Merged(h);
  }

  lemma BeginCatchCounts(r: Run, p: Addr)
    requires Inv(r) && LegalCall(r, CallBeginCatch(p)) && p in r.s.mem
    ensures CountsInv(CatchBegun(r.s, p), Next(r.a, BeginCatch(p)))
  {
    var s', h, a' := CatchBegun(r.s, p), r.a.handlers, Next(r.a, BeginCatch(p));
    assert ([p] + h)[1..] == h;
    HandlersPositive(h, p);
    forall q | a'.IsLive(q) ensures q in s'.mem && CountsOf(s'.mem[q], a', q) {
      assert r.a.IsLive(q) && CountsOf(r.s.mem[q], r.a, q);
    }
  }

  lemma RethrowKeeps(r: Run, c: Call)
    requires Inv(r) && LegalCall(r, c) && c.CallRethrow?
    ensures Callable(r, c) && Inv(Step(r, c))
  {
    HeadOfList(r);
    var r', p := Step(r, c), r.a.handlers[0];
    StorageKept(r.s, r'.s, r.a, r'.a);
    LinkedKept(r.s.mem, r'.s.mem, r.s.caughtExceptions, Merged(r.a.handlers));
    forall q | r'.a.IsLive(q) ensures q in r'.s.mem && CountsOf(r'.s.mem[q], r'.a, q) {
      assert r.a.IsLive(q) && CountsOf(r.s.mem[q], r.a, q);
    }
    OneMore(r.a.inFlight, p);
  }

  // ---------- The end of a handler ----------

  lemma EndCatchKeeps(r: Run)
    requires Inv(r)
    ensures Callable(r, CallEndCatch) && Inv(Step(r, CallEndCatch))
    ensures Step(r, CallEndCatch).s.destroyed == r.s.destroyed + multiset(Destroys(r.a, EndCatch))
  {
    HeadOfList(r);
    if r.a.handlers != [] {
      var p, t := r.a.handlers[0], r.a.handlers[1..];
      assert r.a.handlers == [p] + t;
      assert r.a.IsLive(p) && CountsOf(r.s.mem[p], r.a, p);
      HandlersPositive(t, p);
      TopHandlerKeeps(r, p, t);
    }
  }

  lemma TopHandlerKeeps(r: Run, p: Addr, t: seq<Addr>)
    requires TopHandler(r, p, t)
    ensures Callable(r, CallEndCatch) && Inv(Step(r, CallEndCatch))
    ensures Step(r, CallEndCatch).s.destroyed == r.s.destroyed + multiset(Destroys(r.a, EndCatch))
  {
    assert r.a.handlers[1..] == t;
    EndCatchList(r, p, t);
    EndCatchCounts(r, p, t);
    EndCatchStorage(r, p, t);
    EndCatchLog(r, CatchEnded(r.s), r.a.(handlers := t));
  }

  // What the handler's end destroys is no longer alive, and is entered in the records.
  lemma EndCatchLog(r: Run, s': State, a': Abstract)
    requires LogInv(r) && s'.pool == r.s.pool && a'.reserved == r.a.reserved
    requires s'.destroyed == r.s.destroyed + multiset(Destroys(r.a, EndCatch))
    requires forall q :: s'.freed[q] == r.s.freed[q] + if q in Destroys(r.a, EndCatch) && !IsSlot(r, q) then 1 else 0
    requires forall q :: r.a.IsLive(q) <==> a'.IsLive(q) || q in Destroys(r.a, EndCatch)
    requires forall q :: q in Destroys(r.a, EndCatch) ==> !a'.IsLive(q) && q !in r.a.reserved
    ensures LogInv(Run(s', a', r.thrown, r.taken))
  {
    forall q ensures (r.thrown[q] == s'.destroyed[q] + if a'.IsLive(q) then 1 else 0) {
      assert r.thrown[q] == r.s.destroyed[q] + if r.a.IsLive(q) then 1 else 0;
    }
    forall q ensures (r.taken[q] == s'.freed[q] + if a'.IsInUse(q) && !IsSlot(r, q) then 1 else 0) {
      assert r.taken[q] == r.s.freed[q] + if r.a.IsInUse(q) && !IsSlot(r, q) then 1 else 0;
    }
  }

  ghost predicate TopHandler(r: Run, p: Addr, t: seq<Addr>) {
    && Inv(r) && r.a.handlers == [p] + t
    && r.s.caughtExceptions == p && p != 0 && p in r.s.mem && CountsOf(r.s.mem[p], r.a, p)
    && (Handlers(t, p) > 0 <==> p in t)
  }

  lemma EndCatchList(r: Run, p: Addr, t: seq<Addr>)
    requires TopHandler(r, p, t)
    ensures ListInv(CatchEnded(r.s), r.a.(handlers := t))
  {
    var h, s' := r.a.handlers, CatchEnded(r.s);
    assert h[1..] == t;
    MergedMembers(h);
    MergedMembers(t);
    MergedPop(h);
    assert ([p] + Merged(t))[1..] == Merged(t);
    if p in t {
      LinkedKept(r.s.mem, s'.mem, p, Merged(t));
    } else {
      LinkedKept(r.s.mem, s'.mem, r.s.mem[p].nextException, Merged(t));
    }
  }

  lemma EndCatchCounts(r: Run, p: Addr, t: seq<Addr>)
    requires TopHandler(r, p, t)
    ensures CountsInv(CatchEnded(r.s), r.a.(handlers := t))
  {
    var a', s' := r.a.(handlers := t), CatchEnded(r.s);
    assert r.a.handlers[1..] == t;
    forall q | a'.IsLive(q) ensures q in s'.mem && CountsOf(s'.mem[q], a', q) {
      assert r.a.IsLive(q) && CountsOf(r.s.mem[q], r.a, q);
    }
  }

  lemma EndCatchStorage(r: Run, p: Addr, t: seq<Addr>)
    requires TopHandler(r, p, t)
    ensures StorageInv(CatchEnded(r.s), r.a.(handlers := t))
    ensures CatchEnded(r.s).destroyed == r.s.destroyed + multiset(Destroys(r.a, EndCatch))
    ensures CatchEnded(r.s).pool == r.s.pool
    ensures forall q :: CatchEnded(r.s).freed[q] ==
                        r.s.freed[q] + if q in Destroys(r.a, EndCatch) && !InPool(r.s.pool, NUM_OBJS, q) then 1 else 0
    ensures CatchEnded(r.s).uncaughtExceptions == r.s.uncaughtExceptions
    ensures forall q :: r.a.IsLive(q) <==> r.a.(handlers := t).IsLive(q) || q in Destroys(r.a, EndCatch)
    ensures forall q :: q in Destroys(r.a, EndCatch) ==> !r.a.(handlers := t).IsLive(q) && q !in r.a.reserved
  {
    var a', s' := r.a.(handlers := t), CatchEnded(r.s);
    assert r.a.handlers[1..] == t;
    assert r.a.IsLive(p);
    if p in t || p in r.a.inFlight {
      StorageKept(r.s, s', r.a, a');
    } else {
      var s := r.s.(caughtExceptions := s'.caughtExceptions, destroyed := s'.destroyed, mem := s'.mem);
      StorageKept(r.s, s, r.a, r.a);
      StorageFreed(s, r.a, a', p);
    }
  }

  // ---------- Whole runs ----------

  // Every legal call is defined, keeps the invariant, and destroys what must be destroyed, which is
  // never anything in flight or still handled, and nothing else.
  lemma StepKeeps(r: Run, c: Call)
    requires Inv(r) && LegalCall(r, c) && FreshHeader(r, c)
    ensures Callable(r, c) && Inv(Step(r, c))
    ensures Step(r, c).s.destroyed == r.s.destroyed + multiset(Destroys(r.a, EventOf(r.s, c)))
    ensures forall p :: p in Destroys(r.a, EventOf(r.s, c)) ==> r.a.IsLive(p) && !Step(r, c).a.IsLive(p)
  {
    match c
    case CallAllocate(_, _, _) => AllocateKeeps(r, c);
    case CallDiscard(_) => DiscardKeeps(r, c);
    case CallThrow(_) => ThrowKeeps(r, c);
    case CallBeginCatch(_) => BeginCatchKeeps(r, c);
    case CallEndCatch => EndCatchKeeps(r);
    case CallRethrow => RethrowKeeps(r, c);
  }

  lemma {:induction false} RunKeeps(r: Run, calls: seq<Call>)
    requires Inv(r) && LegalRun(r, calls) && FreshThrows(r, calls)
    ensures AllCallable(r, calls) && Inv(RunEnd(r, calls))
    decreases |calls|
  {
    if calls != [] {
      StepKeeps(r, calls[0]);
      RunKeeps(Step(r, calls[0]), calls[1..]);
    }
  }

  // The invariant holds from the start to the end, and every call is defined.
  ghost predicate InvThroughout(r: Run, calls: seq<Call>)
    decreases |calls|
  {
    Inv(r) && (calls != [] ==> Callable(r, calls[0]) && InvThroughout(Step(r, calls[0]), calls[1..]))
  }

  // A run keeps the invariant exactly if all its throws find fresh storage.
  lemma {:induction false} RunKeepsIff(r: Run, calls: seq<Call>)
    requires Inv(r) && LegalRun(r, calls)
    ensures InvThroughout(r, calls) <==> FreshThrows(r, calls)
    decreases |calls|
  {
    if calls != [] {
      var c := calls[0];
      if c.CallThrow? {
        ThrowKeepsIff(r, c.p);
      } else {
        StepKeeps(r, c);
      }
      if Inv(Step(r, c)) {
        RunKeepsIff(Step(r, c), calls[1..]);
      }
    }
  }

  // ---------- Which runs find fresh storage ----------

  // The header in every block from malloc holds a zero count.
  predicate CleanBlocks(calls: seq<Call>) {
    forall k :: 0 <= k < |calls| && calls[k].CallAllocate? && calls[k].mallocResult != 0 ==>
        calls[k].found.handlerCount == 0
  }

  function ThrowsFrom(calls: seq<Call>, p: Addr): nat {
    if calls == [] then 0 else (if calls[0] == CallThrow(p) then 1 else 0) + ThrowsFrom(calls[1..], p)
  }

  // What the storage holds that is not in the hands of an exception: a block that is reserved has a
  // zero count, and a slot of the pool a zero until something has been thrown from it, then a one.
  ghost predicate Words(r: Run) {
    && (forall p :: p in r.a.reserved && !IsSlot(r, p) && p in r.s.mem ==> r.s.mem[p].handlerCount == 0)
    && (forall i :: 0 <= i < |r.s.poolUsed| ==> SlotWord(r, PoolSlot(r.s.pool, i)))
  }

  ghost predicate SlotWord(r: Run, p: Addr) {
    p in r.s.mem && !r.a.IsLive(p) ==> r.s.mem[p].handlerCount == if r.thrown[p] == 0 then 0 else 1
  }

  ghost predicate SlotsAtMostOnce(r: Run, calls: seq<Call>) {
    forall i :: 0 <= i < |r.s.poolUsed| ==>
        r.thrown[PoolSlot(r.s.pool, i)] + ThrowsFrom(calls, PoolSlot(r.s.pool, i)) <= 1
  }

  lemma WordsKept(r: Run, c: Call)
    requires Inv(r) && Words(r) && LegalCall(r, c) && FreshHeader(r, c) && Callable(r, c)
    requires c.CallAllocate? && c.mallocResult != 0 ==> c.found.handlerCount == 0
    ensures Words(Step(r, c))
  {
    var r' := Step(r, c);
    forall p | p in r'.a.reserved && !IsSlot(r', p) && p in r'.s.mem ensures r'.s.mem[p].handlerCount == 0 {
      ReservedWordKept(r, c, p);
    }
    forall i | 0 <= i < |r'.s.poolUsed| ensures SlotWord(r', PoolSlot(r'.s.pool, i)) {
      assert SlotInv(r.s, r.a, i) && SlotWord(r, PoolSlot(r.s.pool, i));
      SlotWordKept(r, c, PoolSlot(r.s.pool, i));
    }
  }

  // A call changes the count in the header it is about, and in no other.
  ghost predicate About(s: State, c: Call, p: Addr) {
    match c
    case CallAllocate(_, m, _) => m == p
    case CallBeginCatch(q) => q == p
    case CallEndCatch => s.caughtExceptions == p
    case CallRethrow => s.caughtExceptions == p
    case _ => false
  }

  lemma OtherWord(r: Run, c: Call, p: Addr)
    requires Callable(r, c) && p in r.s.mem && p != 0 && !About(r.s, c, p)
    ensures p in Step(r, c).s.mem && Step(r, c).s.mem[p].handlerCount == r.s.mem[p].handlerCount
  {
  }

  lemma ReservedWordKept(r: Run, c: Call, p: Addr)
    requires Inv(r) && Words(r) && LegalCall(r, c) && Callable(r, c)
    requires c.CallAllocate? && c.mallocResult != 0 ==> c.found.handlerCount == 0
    requires p in Step(r, c).a.reserved && !IsSlot(r, p) && p in Step(r, c).s.mem
    ensures Step(r, c).s.mem[p].handlerCount == 0
  {
    HeadOfList(r);
    if p in r.a.reserved {
      assert !r.a.IsLive(p) && r.a.IsInUse(p);
      OtherWord(r, c, p);
    }
  }

  lemma SlotWordKept(r: Run, c: Call, p: Addr)
    requires Inv(r) && LegalCall(r, c) && FreshHeader(r, c) && Callable(r, c)
    requires IsSlot(r, p) && p in r.s.mem && p != 0 && SlotWord(r, p)
    ensures SlotWord(Step(r, c), p)
  {
    HeadOfList(r);
    if c.CallEndCatch? {
      EndCatchSlotWord(r, p);
    } else if !Step(r, c).a.IsLive(p) {
      StillNotLive(r.a, EventOf(r.s, c), p);
      OtherWord(r, c, p);
    }
  }

  lemma StillNotLive(a: Abstract, e: Event, p: Addr)
    requires Legal(a, e) && !e.EndCatch? && !Next(a, e).IsLive(p)
    ensures !a.IsLive(p) && e != Event.Throw(p) && e != Event.BeginCatch(p) && !(e.Rethrow? && a.handlers[0] == p)
  {
    if e.BeginCatch? {
      assert Next(a, e).handlers == [e.p] + a.handlers;
    }
  }

  lemma EndCatchSlotWord(r: Run, p: Addr)
    requires Inv(r) && Callable(r, CallEndCatch) && p in r.s.mem && SlotWord(r, p)
    ensures SlotWord(Step(r, CallEndCatch), p)
  {
    HeadOfList(r);
    if r.a.handlers != [] {
      var q, t := r.a.handlers[0], r.a.handlers[1..];
      assert r.a.handlers == [q] + t;
      assert r.a.IsLive(q) && CountsOf(r.s.mem[q], r.a, q);
      HandlersPositive(t, q);
      assert r.thrown[q] > 0;
    }
  }

  // With clean blocks from malloc, a run finds fresh storage exactly if it never throws twice from
  // the same slot of the pool.
  lemma {:induction false} FreshIffSlotsOnce(r: Run, calls: seq<Call>)
    requires Inv(r) && Words(r) && LegalRun(r, calls) && CleanBlocks(calls) && SlotsAtMostOnce(r, [])
    ensures FreshThrows(r, calls) <==> SlotsAtMostOnce(r, calls)
    decreases |calls|
  {
    if calls != [] {
      var c := calls[0];
      FreshHere(r, c);
      if FreshHeader(r, c) {
        StepKeeps(r, c);
        WordsKept(r, c);
        SlotsStep(r, c, calls[1..]);
        assert calls == [c] + calls[1..];
        SlotsAfter(r, c);
        FreshIffSlotsOnce(Step(r, c), calls[1..]);
      } else {
        TwiceFrom(r, c.p, calls);
      }
    }
  }

  // The count of throws made and to come stays the same.
  lemma SlotsStep(r: Run, c: Call, rest: seq<Call>)
    requires Callable(r, c)
    ensures SlotsAtMostOnce(r, [c] + rest) <==> SlotsAtMostOnce(Step(r, c), rest)
  {
    assert ([c] + rest)[1..] == rest;
    forall p ensures r.thrown[p] + ThrowsFrom([c] + rest, p) == Step(r, c).thrown[p] + ThrowsFrom(rest, p) {}
    assert |Step(r, c).s.poolUsed| == |r.s.poolUsed| && Step(r, c).s.pool == r.s.pool;
  }

  lemma SlotsAfter(r: Run, c: Call)
    requires Callable(r, c) && SlotsAtMostOnce(r, []) && |r.s.poolUsed| == NUM_OBJS
    requires !(c.CallThrow? && IsSlot(r, c.p) && r.thrown[c.p] > 0)
    ensures SlotsAtMostOnce(Step(r, c), [])
  {
    forall i | 0 <= i < NUM_OBJS ensures Step(r, c).thrown[PoolSlot(r.s.pool, i)] <= 1 {
      assert r.thrown[PoolSlot(r.s.pool, i)] + ThrowsFrom([], PoolSlot(r.s.pool, i)) <= 1;
      assert IsSlot(r, PoolSlot(r.s.pool, i));
    }
  }

  lemma TwiceFrom(r: Run, p: Addr, calls: seq<Call>)
    requires calls != [] && calls[0] == CallThrow(p) && IsSlot(r, p) && r.thrown[p] > 0 && |r.s.poolUsed| == NUM_OBJS
    ensures !SlotsAtMostOnce(r, calls)
  {
    assert r.thrown[p] + ThrowsFrom(calls, p) > 1;
  }

  lemma FreshHere(r: Run, c: Call)
    requires Inv(r) && Words(r) && LegalCall(r, c)
    ensures FreshHeader(r, c) <==> !(c.CallThrow? && IsSlot(r, c.p) && r.thrown[c.p] > 0)
  {
    if c.CallThrow? {
      assert r.a.IsInUse(c.p) && !r.a.IsLive(c.p);
      if i :| 0 <= i < |r.s.poolUsed| && PoolSlot(r.s.pool, i) == c.p {
        assert SlotWord(r, PoolSlot(r.s.pool, i));
      }
    }
  }

  lemma InitialWords(r: Run)
    requires Initial(r)
    ensures Words(r)
  {
  }

  // From the start: with clean blocks from malloc, the invariant holds throughout exactly if no slot
  // of the pool is thrown from twice. Blocks may be used again as often as malloc likes.
  lemma KeptIffSlotsOnce(r: Run, calls: seq<Call>)
    requires Initial(r) && LegalRun(r, calls) && CleanBlocks(calls)
    ensures InvThroughout(r, calls) <==> forall i :: 0 <= i < NUM_OBJS ==> ThrowsFrom(calls, PoolSlot(r.s.pool, i)) <= 1
  {
    InitialInv(r);
    InitialWords(r);
    RunKeepsIff(r, calls);
    FreshIffSlotsOnce(r, calls);
  }

  // ---------- A block used again and again ----------

  const CLEAN: Header := Header(0, 0, 0)

  // Exceptions in a block from malloc, one after the other, each from its allocation to its destruction.
  function Rounds(p: Addr, n: nat): seq<Call> {
    if n == 0 then []
    else [CallAllocate(0, p, CLEAN)] + ([CallThrow(p)] + ([CallBeginCatch(p)] + ([CallEndCatch] + Rounds(p, n - 1))))
  }

  ghost predicate RunsTo(r: Run, calls: seq<Call>, end: Run) {
    LegalRun(r, calls) && FreshThrows(r, calls) && RunEnd(r, calls) == end
  }

  ghost predicate StepsTo(r: Run, c: Call, r': Run) {
    Callable(r, c) && LegalCall(r, c) && FreshHeader(r, c) && Step(r, c) == r'
  }

  lemma FirstCall(r: Run, c: Call, r': Run, rest: seq<Call>, end: Run)
    requires StepsTo(r, c, r') && RunsTo(r', rest, end)
    ensures RunsTo(r, [c] + rest, end)
  {
    assert ([c] + rest)[1..] == rest;
  }

  // Each of the four calls, in the state that the one before it leaves.
  lemma ReserveBlock(r: Run, p: Addr) returns (r': Run)
    requires Inv(r) && r.a == NONE && p != 0 && !IsSlot(r, p)
    ensures StepsTo(r, CallAllocate(0, p, CLEAN), r') && Inv(r') && r'.a == NONE.(reserved := {p})
    ensures p in r'.s.mem && r'.s.mem[p].handlerCount == 0 && r'.thrown == r.thrown && r'.s.pool == r.s.pool
  {
    var c := CallAllocate(0, p, CLEAN);
    StepKeeps(r, c);
    r' := Step(r, c);
  }

  lemma ThrowFromBlock(r: Run, p: Addr) returns (r': Run)
    requires Inv(r) && r.a == NONE.(reserved := {p}) && p in r.s.mem && r.s.mem[p].handlerCount == 0
    ensures StepsTo(r, CallThrow(p), r') && Inv(r') && r'.a == NONE.(inFlight := {p})
    ensures r'.thrown == r.thrown + multiset{p} && r'.s.pool == r.s.pool
  {
    StepKeeps(r, CallThrow(p));
    r' := Step(r, CallThrow(p));
  }

  lemma CatchFromBlock(r: Run, p: Addr) returns (r': Run)
    requires Inv(r) && r.a == NONE.(inFlight := {p})
    ensures StepsTo(r, CallBeginCatch(p), r') && Inv(r') && r'.a == NONE.(handlers := [p])
    ensures r'.thrown == r.thrown && r'.s.pool == r.s.pool
  {
    StepKeeps(r, CallBeginCatch(p));
    r' := Step(r, CallBeginCatch(p));
  }

  lemma LeaveHandler(r: Run, p: Addr) returns (r': Run)
    requires Inv(r) && r.a == NONE.(handlers := [p])
    ensures StepsTo(r, CallEndCatch, r') && Inv(r') && r'.a == NONE
    ensures r'.thrown == r.thrown && r'.s.pool == r.s.pool
  {
    StepKeeps(r, CallEndCatch);
    r' := Step(r, CallEndCatch);
  }

  // A block is free for a new round.
  ghost predicate Idle(r: Run, p: Addr) {
    Inv(r) && r.a == NONE && p != 0 && !IsSlot(r, p)
  }

  lemma OneRound(r: Run, p: Addr) returns (r1: Run, r2: Run, r3: Run, r4: Run)
    requires Idle(r, p)
    ensures StepsTo(r, CallAllocate(0, p, CLEAN), r1) && StepsTo(r1, CallThrow(p), r2)
    ensures StepsTo(r2, CallBeginCatch(p), r3) && StepsTo(r3, CallEndCatch, r4)
    ensures Idle(r4, p) && r4.thrown[p] == r.thrown[p] + 1
  {
    r1 := ReserveBlock(r, p);
    r2 := ThrowFromBlock(r1, p);
    r3 := CatchFromBlock(r2, p);
    r4 := LeaveHandler(r3, p);
  }

  lemma RoundFirst(r: Run, p: Addr, r1: Run, r2: Run, r3: Run, r4: Run, n: nat, end: Run)
    requires n > 0
    requires StepsTo(r, CallAllocate(0, p, CLEAN), r1) && StepsTo(r1, CallThrow(p), r2)
    requires StepsTo(r2, CallBeginCatch(p), r3) && StepsTo(r3, CallEndCatch, r4)
    requires RunsTo(r4, Rounds(p, n - 1), end)
    ensures RunsTo(r, Rounds(p, n), end)
  {
    var rest := [CallEndCatch] + Rounds(p, n - 1);
    FirstCall(r3, CallEndCatch, r4, Rounds(p, n - 1), end);
    FirstCall(r2, CallBeginCatch(p), r3, rest, end);
    FirstCall(r1, CallThrow(p), r2, [CallBeginCatch(p)] + rest, end);
    FirstCall(r, CallAllocate(0, p, CLEAN), r1, [CallThrow(p)] + ([CallBeginCatch(p)] + rest), end);
  }

  lemma NextRound(r: Run, p: Addr, n: nat) returns (r': Run)
    requires Idle(r, p) && n > 0
    ensures Idle(r', p) && r'.thrown[p] == r.thrown[p] + 1
    ensures forall end :: RunsTo(r', Rounds(p, n - 1), end) ==> RunsTo(r, Rounds(p, n), end)
  {
    var r1, r2, r3;
    r1, r2, r3, r' := OneRound(r, p);
    forall end | RunsTo(r', Rounds(p, n - 1), end) ensures RunsTo(r, Rounds(p, n), end) {
      RoundFirst(r, p, r1, r2, r3, r', n, end);
    }
  }

  // Any number of exceptions can come and go in one block.
  lemma {:induction false} BlockUsedAgain(r: Run, p: Addr, n: nat) returns (end: Run)
    requires Idle(r, p)
    ensures RunsTo(r, Rounds(p, n), end) && Idle(end, p) && end.thrown[p] == r.thrown[p] + n
    decreases n
  {
    if n == 0 {
      end := r;
      NoRounds(r, p);
    } else {
      end := OneMoreRound(r, p, n);
    }
  }

  lemma NoRounds(r: Run, p: Addr)
    ensures RunsTo(r, Rounds(p, 0), r)
  {
  }

  lemma OneMoreRound(r: Run, p: Addr, n: nat) returns (end: Run)
    requires Idle(r, p) && n > 0
    ensures RunsTo(r, Rounds(p, n), end) && Idle(end, p) && end.thrown[p] == r.thrown[p] + n
    decreases n, 0
  {
    var r' := NextRound(r, p, n);
    end := BlockUsedAgain(r', p, n - 1);
  }

  // ---------- What runs achieve ----------

  // After every run the caught exceptions are the active handlers with adjacent repeats merged, and
  // the counter is the number of exceptions in flight.
  lemma CaughtStack(r: Run, calls: seq<Call>)
    requires Initial(r) && LegalRun(r, calls) && FreshThrows(r, calls)
    ensures Linked(RunEnd(r, calls).s.mem, RunEnd(r, calls).s.caughtExceptions, Merged(RunEnd(r, calls).a.handlers))
    ensures NoDuplicates(Merged(RunEnd(r, calls).a.handlers))
    ensures RunEnd(r, calls).s.uncaughtExceptions == |RunEnd(r, calls).a.inFlight| % UINT_LIMIT
  {
    InitialInv(r);
    RunKeeps(r, calls);
  }

  // uncaught_exception tells whether the number of exceptions in flight is a multiple of 2^32, and so
  // for fewer than 2^32 of them whether there are any.
  lemma UncaughtIffInFlight(r: Run, calls: seq<Call>)
    requires Initial(r) && LegalRun(r, calls) && FreshThrows(r, calls)
    ensures
      var end := RunEnd(r, calls);
      && (Uncaught(end.s) <==> |end.a.inFlight| % 0x1_0000_0000 != 0)
      && (|end.a.inFlight| < 0x1_0000_0000 ==> (Uncaught(end.s) <==> exists p :: p in end.a.inFlight))
  {
    CaughtStack(r, calls);
    EmptyOrNot(RunEnd(r, calls).a.inFlight);
    SmallCount(|RunEnd(r, calls).a.inFlight|);
  }

  lemma SmallCount(n: nat)
    ensures n < 0x1_0000_0000 ==> n % UINT_LIMIT == n
  {
  }

  lemma EmptyOrNot(s: set<Addr>)
    ensures |s| != 0 <==> exists p :: p in s
  {
    assert s == {} || exists p :: p in s;
  }

  // What the header of one exception says of it.
  ghost predicate HeaderTells(end: Run, p: Addr) {
    && p in end.s.mem
    && var count := end.s.mem[p].handlerCount;
       && (if count < 0 then -count else count) == Handlers(end.a.handlers, p)
       && (p in end.a.handlers ==> (count < 0 <==> p in end.a.inFlight))
  }

  lemma Accounts(r: Run, calls: seq<Call>, p: Addr)
    requires Initial(r) && LegalRun(r, calls) && FreshThrows(r, calls)
    ensures
      var end := RunEnd(r, calls);
      && (end.a.IsLive(p) ==> HeaderTells(end, p))
      && end.thrown[p] == end.s.destroyed[p] + (if end.a.IsLive(p) then 1 else 0)
  {
    InitialInv(r);
    RunKeeps(r, calls);
    HandlersPositive(RunEnd(r, calls).a.handlers, p);
  }

  lemma InitialInv(r: Run)
    requires Initial(r)
    ensures Inv(r)
  {
    forall i | 0 <= i < NUM_OBJS ensures SlotInv(r.s, r.a, i) {}
  }

  // When nothing is handled, in flight or reserved any more, the runtime is back where it was:
  // every exception thrown was destroyed, and every block malloc gave was freed, each as often as
  // it was thrown and given.
  lemma AtRest(r: Run, calls: seq<Call>)
    requires Initial(r) && LegalRun(r, calls) && FreshThrows(r, calls) && RunEnd(r, calls).a == NONE
    ensures Quiet(RunEnd(r, calls))
  {
    InitialInv(r);
    RunKeeps(r, calls);
    QuietWhenNone(RunEnd(r, calls));
  }

  ghost predicate Quiet(end: Run) {
    && end.s.caughtExceptions == 0 && end.s.uncaughtExceptions == 0
    && |end.s.poolUsed| == NUM_OBJS && (forall i :: 0 <= i < NUM_OBJS ==> !end.s.poolUsed[i])
    && end.s.destroyed == end.thrown && end.s.freed == end.taken
  }

  lemma QuietWhenNone(end: Run)
    requires Inv(end) && end.a == NONE
    ensures Quiet(end)
  {
    forall i | 0 <= i < NUM_OBJS ensures !end.s.poolUsed[i] {
      assert SlotInv(end.s, end.a, i);
    }
  }

  // ---------- Storage that is not zero ----------

  // Neither allocation nor throwing clears the handler count. An exception thrown from any storage,
  // caught and released once, is destroyed exactly if the count happened to be zero before.
  lemma DestroyedIffFresh(s: State, p: Addr)
    requires p in s.mem && p != 0 && s.caughtExceptions != p
    ensures
      var end := CatchEnded(CatchBegun(Thrown(s, p), p));
      && (s.mem[p].handlerCount == 0 ==>
           end.destroyed == s.destroyed + multiset{p} && end.caughtExceptions == s.caughtExceptions)
      && (s.mem[p].handlerCount != 0 ==> end.destroyed == s.destroyed && end.caughtExceptions == p)
  {
  }

  // And destruction leaves a one in the storage it gives back.
  lemma DestructionLeavesOne(r: Run)
    requires Inv(r) && Destroys(r.a, EndCatch) != {}
    ensures
      var p := r.a.handlers[0];
      && Callable(r, CallEndCatch)
      && p in Step(r, CallEndCatch).s.mem && Step(r, CallEndCatch).s.mem[p].handlerCount == 1
  {
    EndCatchKeeps(r);
    HeadOfList(r);
    var p, t := r.a.handlers[0], r.a.handlers[1..];
    assert r.a.IsLive(p) && CountsOf(r.s.mem[p], r.a, p);
    HandlersPositive(t, p);
  }

  // Two throws in a row, the second from the storage the first one gave back: the second exception
  // is never destroyed and stays on the stack of caught exceptions.
  lemma SecondThrowStays(s: State, p: Addr)
    requires p in s.mem && p != 0 && s.mem[p].handlerCount == 0 && s.caughtExceptions == 0
    ensures
      var once := CatchEnded(CatchBegun(Thrown(s, p), p));
      var twice := CatchEnded(CatchBegun(Thrown(once, p), p));
      && once.destroyed == s.destroyed + multiset{p}
      && once.freed == (if InPool(s.pool, |s.poolUsed|, p) then s.freed else s.freed + multiset{p})
      && twice.destroyed == once.destroyed && twice.caughtExceptions == p
  {
    var once := CatchEnded(CatchBegun(Thrown(s, p), p));
    assert once.mem[p].handlerCount == 1;
  }
}
