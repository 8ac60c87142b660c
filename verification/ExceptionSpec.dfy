// The life of exception objects as the language describes it: which handlers are active, which
// exceptions are in flight, and when an exception object ceases to exist.
module ExceptionSpec {

  type Addr = nat

  // handlers[0] is the innermost active handler, named by the exception it handles.
  datatype Abstract = Abstract(reserved: set<Addr>, inFlight: set<Addr>, handlers: seq<Addr>)
  {
    // The exception has been thrown and still exists.
    predicate IsLive(p: Addr) {
      p in inFlight || p in handlers
    }

    // The storage is in use.
    predicate IsInUse(p: Addr) {
      p in reserved || IsLive(p)
    }
  }

  datatype Event =
    | Allocate(p: Addr)      // storage for an exception is set aside
    | Discard(p: Addr)       // the exception could not be constructed
    | Throw(p: Addr)
    | BeginCatch(p: Addr)
    | EndCatch
    | Rethrow

  const NONE: Abstract := Abstract({}, {}, [])

  // What a compiler-generated sequence of calls respects.
  predicate Legal(a: Abstract, e: Event) {
    match e
    case Allocate(p) => p != 0 && !a.IsInUse(p)
    case Discard(p) => p in a.reserved
    case Throw(p) => p in a.reserved
    case BeginCatch(p) => p in a.inFlight && (p !in a.handlers || a.handlers[0] == p)
    case EndCatch => true
    case Rethrow => a.handlers != [] && a.handlers[0] !in a.inFlight
  }

  function Next(a: Abstract, e: Event): Abstract
    requires Legal(a, e)
  {
    match e
    case Allocate(p) => a.(reserved := a.reserved + {p})
    case Discard(p) => a.(reserved := a.reserved - {p})
    case Throw(p) => a.(reserved := a.reserved - {p}, inFlight := a.inFlight + {p})
    case BeginCatch(p) => a.(inFlight := a.inFlight - {p}, handlers := [p] + a.handlers)
    case EndCatch => if a.handlers == [] then a else a.(handlers := a.handlers[1..])
    case Rethrow => a.(inFlight := a.inFlight + {a.handlers[0]})
  }

  // The exception that must be destroyed at an event: the one whose last handler exits while it
  // is not in flight.
  function Destroys(a: Abstract, e: Event): set<Addr>
  {
    if e.EndCatch? && a.handlers != [] && a.handlers[0] !in a.inFlight && a.handlers[0] !in a.handlers[1..]
    then {a.handlers[0]} else {}
  }

  // How often an exception occurs among the active handlers.
  function Handlers(handlers: seq<Addr>, p: Addr): nat {
    if handlers == [] then 0 else (if handlers[0] == p then 1 else 0) + Handlers(handlers[1..], p)
  }

  // The handlers with adjacent repeats merged.
  function Merged(handlers: seq<Addr>): seq<Addr> {
    if handlers == [] then []
    else if |handlers| > 1 && handlers[0] == handlers[1] then Merged(handlers[1..])
    else [handlers[0]] + Merged(handlers[1..])
  }

  ghost predicate NoDuplicates(s: seq<Addr>) {
    forall i, j :: 0 <= i < j < |s| ==> s[i] != s[j]
  }

  lemma HandlersPositive(handlers: seq<Addr>, p: Addr)
    ensures Handlers(handlers, p) > 0 <==> p in handlers
  {
  }

  lemma {:induction false} MergedMembers(handlers: seq<Addr>)
    ensures forall p :: p in Merged(handlers) <==> p in handlers
    ensures handlers != [] ==> Merged(handlers) != [] && Merged(handlers)[0] == handlers[0]
  {
    if handlers != [] {
      MergedMembers(handlers[1..]);
      assert handlers == [handlers[0]] + handlers[1..];
    }
  }

  // In a stack without duplicates after merging, an exception's handlers are adjacent.
  lemma MergedPop(handlers: seq<Addr>)
    requires handlers != [] && NoDuplicates(Merged(handlers))
    ensures NoDuplicates(Merged(handlers[1..]))
    ensures
      if handlers[0] in handlers[1..] then handlers[1] == handlers[0] && Merged(handlers[1..]) == Merged(handlers)
      else Merged(handlers) == [handlers[0]] + Merged(handlers[1..])
  {
    MergedMembers(handlers[1..]);
    if !(|handlers| > 1 && handlers[0] == handlers[1]) {
      DistinctTail(handlers[0], Merged(handlers[1..]));
    }
  }

  lemma DistinctTail(p: Addr, s: seq<Addr>)
    ensures NoDuplicates([p] + s) <==> NoDuplicates(s) && p !in s
  {
    var t := [p] + s;
    assert t[1..] == s;
    if NoDuplicates(t) {
      forall i, j | 0 <= i < j < |s| ensures s[i] != s[j] {
        assert s[i] == t[i + 1] && s[j] == t[j + 1];
      }
      forall k | 0 <= k < |s| ensures s[k] != p {
        assert s[k] == t[k + 1] && t[0] == p;
      }
    }
  }

  lemma MergedPush(handlers: seq<Addr>, p: Addr)
    requires NoDuplicates(Merged(handlers))
    requires p !in handlers || handlers[0] == p
    ensures NoDuplicates(Merged([p] + handlers))
    ensures Merged([p] + handlers) == if p in handlers then Merged(handlers) else [p] + Merged(handlers)
  {
    assert ([p] + handlers)[1..] == handlers;
    MergedMembers(handlers);
    DistinctTail(p, Merged(handlers));
  }
}
