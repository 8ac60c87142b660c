// The exception runtime: the emergency pool behind the allocator, the stack of caught exceptions
// threaded through the exception headers, and the counters that steer them.
module ExceptionRuntime {
  import opened ExceptionSpec
  import opened Limits

  const OBJ_SIZE: nat := 1024
  const NUM_OBJS: nat := 8
  const HEADER_SIZE: nat := 128

  // The part of an exception header the runtime works with. Headers live in raw memory: what a
  // header holds when its storage is handed out is whatever was there before.
  datatype Header = Header(nextException: Addr, handlerCount: int, referenceCount: int)

  // The runtime's state, and the record of destructor calls and of blocks handed to free.
  datatype State = State(
    mem: map<Addr, Header>,
    caughtExceptions: Addr,
    uncaughtExceptions: nat,
    pool: Addr,
    poolUsed: seq<bool>,
    destroyed: multiset<Addr>,
    freed: multiset<Addr>)

  function PoolSlot(pool: Addr, i: nat): Addr {
    pool + OBJ_SIZE * i
  }

  // ---------- Storage ----------

  function FirstFree(used: seq<bool>): (i: nat)
    ensures i <= |used|
    ensures i < |used| ==> !used[i]
    ensures forall j :: 0 <= j < i ==> used[j]
  {
    if used == [] || !used[0] then 0 else 1 + FirstFree(used[1..])
  }

  // The storage found for an exception, header included: what malloc gave, or else a slot of the
  // pool; 0 when there is neither, and the program terminates.
  function Storage(s: State, thrownSize: nat, mallocResult: Addr): Addr {
    if mallocResult != 0 then mallocResult
    else if thrownSize + HEADER_SIZE <= OBJ_SIZE && FirstFree(s.poolUsed) < |s.poolUsed|
    then PoolSlot(s.pool, FirstFree(s.poolUsed))
    else 0
  }

  // A block from malloc brings along what its memory holds; a slot of the pool keeps what it held.
  function Allocated(s: State, thrownSize: nat, mallocResult: Addr, found: Header): State {
    if mallocResult != 0 then s.(mem := s.mem[mallocResult := found])
    else if thrownSize + HEADER_SIZE <= OBJ_SIZE && FirstFree(s.poolUsed) < |s.poolUsed|
    then s.(poolUsed := s.poolUsed[FirstFree(s.poolUsed) := true])
    else s
  }

  predicate InPool(pool: Addr, slots: nat, p: Addr) {
    exists i :: 0 <= i < slots && PoolSlot(pool, i) == p
  }

  function Freed(s: State, p: Addr): State {
    s.(poolUsed := seq(|s.poolUsed|, i requires 0 <= i < |s.poolUsed| => s.poolUsed[i] && PoolSlot(s.pool, i) != p),
       freed := if InPool(s.pool, |s.poolUsed|, p) then s.freed else s.freed + multiset{p})
  }

  // ---------- Throwing and catching ----------

  function Thrown(s: State, p: Addr): State
    requires p in s.mem
  {
    s.(uncaughtExceptions := (s.uncaughtExceptions + 1) % UINT_LIMIT,
       mem := s.mem[p := s.mem[p].(referenceCount := 1)])
  }

  function CatchBegun(s: State, p: Addr): State
    requires p in s.mem
  {
    var count := s.mem[p].handlerCount;
    var header := s.mem[p].(handlerCount := if count < 0 then -count + 1 else count + 1);
    var prev := s.caughtExceptions;
    s.(uncaughtExceptions := (s.uncaughtExceptions - 1) % UINT_LIMIT,
       mem := s.mem[p := if p != prev then header.(nextException := prev) else header],
       caughtExceptions := p)
  }

  // _Unwind_DeleteException, which calls the cleanup function of a primary exception.
  function Deleted(s: State, p: Addr): State
    requires p in s.mem
  {
    var header := s.mem[p].(referenceCount := s.mem[p].referenceCount - 1);
    var s' := s.(mem := s.mem[p := header]);
    if header.referenceCount == 0 then Freed(s'.(destroyed := s'.destroyed + multiset{p}), p) else s'
  }

  // A count that is already zero makes the code terminate.
  predicate EndCatchTerminates(s: State)
    requires s.caughtExceptions == 0 || s.caughtExceptions in s.mem
  {
    s.caughtExceptions != 0 && s.mem[s.caughtExceptions].handlerCount == 0
  }

  function CatchEnded(s: State): State
    requires s.caughtExceptions == 0 || s.caughtExceptions in s.mem
  {
    var p := s.caughtExceptions;
    if p == 0 then s
    else
      var header := s.mem[p];
      if header.handlerCount < 0 then
        s.(mem := s.mem[p := header.(handlerCount := header.handlerCount + 1)],
           caughtExceptions := if header.handlerCount == -1 then header.nextException else p)
      else if header.handlerCount == 1 then Deleted(s.(caughtExceptions := header.nextException), p)
      else if header.handlerCount == 0 then s
      else s.(mem := s.mem[p := header.(handlerCount := header.handlerCount - 1)])
  }

  function Rethrown(s: State): State
    requires s.caughtExceptions in s.mem
  {
    var p := s.caughtExceptions;
    s.(uncaughtExceptions := (s.uncaughtExceptions + 1) % UINT_LIMIT,
       mem := s.mem[p := s.mem[p].(handlerCount := -s.mem[p].handlerCount)])
  }

  predicate Uncaught(s: State) { s.uncaughtExceptions != 0 }

  // ---------- The runtime as the program calls it ----------

  class Runtime {
    var mem: map<Addr, Header>
    var caughtExceptions: Addr
    var uncaughtExceptions: nat
    const emergencyPool: Addr
    const emergencyAllocated: array<bool>
    ghost var destroyed: multiset<Addr>
    ghost var freed: multiset<Addr>

    ghost function View(): State
      reads this, emergencyAllocated
    {
      State(mem, caughtExceptions, uncaughtExceptions, emergencyPool, emergencyAllocated[..], destroyed, freed)
    }

    constructor (mem: map<Addr, Header>, pool: Addr)
      ensures View() == State(mem, 0, 0, pool, seq(NUM_OBJS, _ => false), multiset{}, multiset{})
      ensures fresh(emergencyAllocated)
    {
      this.mem := mem;
      caughtExceptions, uncaughtExceptions, emergencyPool := 0, 0, pool;
      emergencyAllocated := new bool[NUM_OBJS](_ => false);
      destroyed, freed := multiset{}, multiset{};
      new;
      assert emergencyAllocated[..] == seq(NUM_OBJS, _ => false);
    }

    // The address of the exception object, or 0 when the program terminates.
    method AllocateException(thrownSize: nat, mallocResult: Addr, found: Header) returns (obj: Addr)
      modifies this`mem, emergencyAllocated
      ensures View() == Allocated(old(View()), thrownSize, mallocResult, found)
      ensures
        var p := Storage(old(View()), thrownSize, mallocResult);
        obj == if p == 0 then 0 else p + HEADER_SIZE
    {
      var size := thrownSize + HEADER_SIZE;
      var ret := mallocResult;
      if ret != 0 {
        mem := mem[ret := found];
      }
      if ret == 0 && size <= OBJ_SIZE {
        var i := 0;
        while i < emergencyAllocated.Length
          invariant 0 <= i <= emergencyAllocated.Length
          invariant emergencyAllocated[..] == old(emergencyAllocated[..]) && mem == old(mem)
          invariant forall j :: 0 <= j < i ==> emergencyAllocated[j]
        {
          if !emergencyAllocated[i] {
            FirstFreeIs(emergencyAllocated[..], i);
            emergencyAllocated[i] := true;
            ret := PoolSlot(emergencyPool, i);
            break;
          }
          i := i + 1;
        }
        if i == emergencyAllocated.Length {
          FirstFreeIs(emergencyAllocated[..], i);
        }
      }
      if ret == 0 {
        return 0;
      }
      return ret + HEADER_SIZE;
    }

    method FreeException(obj: Addr)
      requires obj >= HEADER_SIZE
      modifies this`freed, emergencyAllocated
      ensures View() == Freed(old(View()), obj - HEADER_SIZE)
    {
      var p := obj - HEADER_SIZE;
      var inPool := false;
      var i := 0;
      while i < emergencyAllocated.Length
        invariant 0 <= i <= emergencyAllocated.Length
        invariant forall j :: 0 <= j < emergencyAllocated.Length ==>
          emergencyAllocated[j] == (old(emergencyAllocated[j]) && !(j < i && PoolSlot(emergencyPool, j) == p))
        invariant freed == old(freed)
        invariant inPool == InPool(emergencyPool, i, p)
      {
        OneMoreSlot(emergencyPool, i, p);
        if PoolSlot(emergencyPool, i) == p {
          emergencyAllocated[i] := false;
          inPool := true;
        }
        i := i + 1;
      }
      if !inPool {
        freed := freed + multiset{p};
      }
      assert emergencyAllocated[..] == Freed(old(View()), p).poolUsed;
    }

    // Up to the call of the unwinder.
    method Throw(obj: Addr)
      requires obj >= HEADER_SIZE && obj - HEADER_SIZE in mem
      modifies this
      ensures View() == Thrown(old(View()), obj - HEADER_SIZE)
    {
      uncaughtExceptions := (uncaughtExceptions + 1) % UINT_LIMIT;
      var header := obj - HEADER_SIZE;
      mem := mem[header := mem[header].(referenceCount := 0)];
      mem := mem[header := mem[header].(referenceCount := 1)];
    }

    method BeginCatch(header: Addr)
      requires header in mem
      modifies this
      ensures View() == CatchBegun(old(View()), header)
    {
      var prev := caughtExceptions;
      var count := mem[header].handlerCount;
      if count < 0 {
        count := -count + 1;
      } else {
        count := count + 1;
      }
      mem := mem[header := mem[header].(handlerCount := count)];
      uncaughtExceptions := (uncaughtExceptions - 1) % UINT_LIMIT;
      if header != prev {
        mem := mem[header := mem[header].(nextException := prev)];
        caughtExceptions := header;
      }
    }

    method DeleteException(header: Addr)
      requires header in mem
      modifies this, emergencyAllocated
      ensures View() == Deleted(old(View()), header)
    {
      mem := mem[header := mem[header].(referenceCount := mem[header].referenceCount - 1)];
      if mem[header].referenceCount == 0 {
        destroyed := destroyed + multiset{header};
        FreeException(header + HEADER_SIZE);
      }
    }

    method EndCatch() returns (terminates: bool)
      requires caughtExceptions == 0 || caughtExceptions in mem
      modifies this, emergencyAllocated
      ensures terminates == EndCatchTerminates(old(View()))
      ensures View() == CatchEnded(old(View()))
    {
      var header := caughtExceptions;
      if header == 0 {
        return false;
      }
      var count := mem[header].handlerCount;
      if count < 0 {
        // The exception is on its way out; the list lets go of it with its last handler.
        count := count + 1;
        if count == 0 {
          caughtExceptions := mem[header].nextException;
        }
      } else {
        count := count - 1;
        if count == 0 {
          caughtExceptions := mem[header].nextException;
          DeleteException(header);
          return false;
        } else if count < 0 {
          return true;
        }
      }
      mem := mem[header := mem[header].(handlerCount := count)];
      return false;
    }

    // Up to the call of the unwinder; without a caught exception the program terminates.
    method Rethrow() returns (terminates: bool)
      requires caughtExceptions == 0 || caughtExceptions in mem
      modifies this
      ensures terminates == (old(caughtExceptions) == 0)
      ensures !terminates ==> View() == Rethrown(old(View()))
    {
      var header := caughtExceptions;
      uncaughtExceptions := (uncaughtExceptions + 1) % UINT_LIMIT;
      if header != 0 {
        mem := mem[header := mem[header].(handlerCount := -mem[header].handlerCount)];
        return false;
      }
      return true;
    }

    method UncaughtException() returns (r: bool)
      ensures r == Uncaught(View())
    {
      return uncaughtExceptions != 0;
    }
  }

  lemma OneMoreSlot(pool: Addr, i: nat, p: Addr)
    ensures InPool(pool, i + 1, p) <==> InPool(pool, i, p) || PoolSlot(pool, i) == p
  {
  }

  lemma FirstFreeIs(used: seq<bool>, i: nat)
    requires i <= |used| && (i < |used| ==> !used[i])
    requires forall j :: 0 <= j < i ==> used[j]
    ensures FirstFree(used) == i
  {
  }
}
