// The personality routine: what a frame wants with an exception, and how the two phases of
// unwinding agree on it. The exception tables are taken as decoded.
module Personality {
  import opened Options

  // ---------- The tables of a frame ----------

  datatype CallSite = CallSite(start: nat, len: nat, landingPad: nat, action: nat)

  // An action record; next is the record it points to, if any.
  datatype ActionRecord = ActionRecord(filter: int, next: Option<nat>)

  // The types that stand for what is not an exception of this runtime.
  datatype Special = ForcedUnwindType | ForeignExceptionType

  // catches tells for a positive filter whether its type catches the thrown exception, and with
  // which adjusted pointer, and catchesSpecial the same for the special types; allows tells for a
  // negative one whether the exception specification admits the exception, and emptySpec whether it
  // admits none at all.
  datatype Lsda = Lsda(
    start: nat,
    lpStart: nat,
    callSites: seq<CallSite>,
    actions: map<nat, ActionRecord>,
    catches: int -> Option<nat>,
    allows: int -> bool,
    catchesSpecial: (Special, int) -> Option<nat>,
    emptySpec: int -> bool)

  datatype Frame = Frame(lsda: Option<Lsda>, ip: nat, ipBeforeInsn: bool)

  // ---------- The call-site table ----------

  predicate Covers(l: Lsda, c: CallSite, ip: int) {
    l.start + c.start <= ip < l.start + c.start + c.len
  }

  ghost predicate Sorted(callSites: seq<CallSite>) {
    forall i, j :: 0 <= i < j < |callSites| ==> callSites[i].start + callSites[i].len <= callSites[j].start
  }

  // The scan as the code makes it: it gives up at the first entry beyond the address.
  function Scan(l: Lsda, ip: int, i: nat): Option<CallSite>
    requires i <= |l.callSites|
    decreases |l.callSites| - i
  {
    if i == |l.callSites| || ip < l.start + l.callSites[i].start then None
    else if Covers(l, l.callSites[i], ip) then Some(l.callSites[i])
    else Scan(l, ip, i + 1)
  }

  method FindCallSite(l: Lsda, ip: int) returns (site: Option<CallSite>)
    ensures site == Scan(l, ip, 0)
  {
    var p := 0;
    while p < |l.callSites|
      invariant 0 <= p <= |l.callSites|
      invariant Scan(l, ip, 0) == Scan(l, ip, p)
    {
      var c := l.callSites[p];
      p := p + 1;
      if ip < l.start + c.start {
        // The table is sorted, so the address has been passed.
        return None;
      } else if ip < l.start + c.start + c.len {
        return Some(c);
      }
    }
    return None;
  }

  // On a sorted table the early stop misses nothing.
  lemma {:induction false} ScanFinds(l: Lsda, ip: int, i: nat)
    requires i <= |l.callSites| && Sorted(l.callSites)
    ensures Scan(l, ip, i).Some? <==> exists j :: i <= j < |l.callSites| && Covers(l, l.callSites[j], ip)
    ensures Scan(l, ip, i).Some? ==> Covers(l, Scan(l, ip, i).value, ip)
    ensures forall j :: i <= j < |l.callSites| && Covers(l, l.callSites[j], ip) ==>
        Scan(l, ip, i) == Some(l.callSites[j])
    decreases |l.callSites| - i
  {
    if i < |l.callSites| {
      ScanFinds(l, ip, i + 1);
    }
  }

  // ---------- The action chain ----------

  // The records reached from an offset, in order, unless one of them has been seen before.
  function Follow(actions: map<nat, ActionRecord>, at: nat, seen: set<nat>): Option<seq<ActionRecord>>
    decreases actions.Keys - seen
  {
    if at !in actions || at in seen then None
    else
      match actions[at].next
      case None => Some([actions[at]])
      case Some(next) =>
        match Follow(actions, next, seen + {at})
        case None => None
        case Some(rest) => Some([actions[at]] + rest)
  }

  ghost predicate Chain(actions: map<nat, ActionRecord>, at: nat, chain: seq<ActionRecord>)
    decreases |chain|
  {
    && chain != [] && at in actions && actions[at] == chain[0]
    && (if |chain| == 1 then chain[0].next == None
        else chain[0].next.Some? && Chain(actions, chain[0].next.value, chain[1..]))
  }

  lemma {:induction false} FollowIsChain(actions: map<nat, ActionRecord>, at: nat, seen: set<nat>)
    requires Follow(actions, at, seen).Some?
    ensures Chain(actions, at, Follow(actions, at, seen).value)
    decreases actions.Keys - seen
  {
    if actions[at].next.Some? {
      FollowIsChain(actions, actions[at].next.value, seen + {at});
      assert Follow(actions, at, seen).value[1..] == Follow(actions, actions[at].next.value, seen + {at}).value;
    }
  }

  // The places of the records of a chain.
  ghost function Places(actions: map<nat, ActionRecord>, at: nat, chain: seq<ActionRecord>): set<nat>
    requires Chain(actions, at, chain)
    decreases |chain|
  {
    {at} + if |chain| == 1 then {} else Places(actions, chain[0].next.value, chain[1..])
  }

  lemma {:induction false} OneChain(actions: map<nat, ActionRecord>, at: nat, chain: seq<ActionRecord>,
                                    other: seq<ActionRecord>)
    requires Chain(actions, at, chain) && Chain(actions, at, other)
    ensures chain == other
    decreases |chain|
  {
    if |chain| > 1 {
      OneChain(actions, chain[0].next.value, chain[1..], other[1..]);
      assert chain == [chain[0]] + chain[1..] && other == [other[0]] + other[1..];
    }
  }

  lemma {:induction false} RestOfChain(actions: map<nat, ActionRecord>, at: nat, chain: seq<ActionRecord>, place: nat)
    returns (k: nat)
    requires Chain(actions, at, chain) && place in Places(actions, at, chain)
    ensures k < |chain| && Chain(actions, place, chain[k..])
    decreases |chain|
  {
    if place == at {
      k := 0;
      assert chain[0..] == chain;
    } else {
      k := RestOfChain(actions, chain[0].next.value, chain[1..], place);
      assert chain[1..][k..] == chain[k + 1..];
      k := k + 1;
    }
  }

  // A finite chain never comes back to where it was, so it is followed to its end.
  lemma {:induction false} ChainIsFollowed(actions: map<nat, ActionRecord>, at: nat, chain: seq<ActionRecord>,
                                           seen: set<nat>)
    requires Chain(actions, at, chain) && Places(actions, at, chain) !! seen
    ensures Follow(actions, at, seen) == Some(chain)
    decreases |chain|
  {
    if |chain| > 1 {
      var next, rest := chain[0].next.value, chain[1..];
      if at in Places(actions, next, rest) {
        var k := RestOfChain(actions, next, rest, at);
        OneChain(actions, at, chain, rest[k..]);
        assert false;
      }
      ChainIsFollowed(actions, next, rest, seen + {at});
      assert chain == [chain[0]] + rest;
    } else {
      assert chain == [chain[0]] && at !in seen;
    }
  }

  // Following finds a chain exactly if the chain is finite, and then that chain.
  lemma FollowsExactly(actions: map<nat, ActionRecord>, at: nat, chain: seq<ActionRecord>)
    ensures Follow(actions, at, {}) == Some(chain) <==> Chain(actions, at, chain)
  {
    if Chain(actions, at, chain) {
      ChainIsFollowed(actions, at, chain, {});
    }
    if Follow(actions, at, {}) == Some(chain) {
      FollowIsChain(actions, at, {});
    }
  }

  ghost predicate Finite(actions: map<nat, ActionRecord>, at: nat) {
    exists chain :: Chain(actions, at, chain)
  }

  // A record that ends the search: a handler that catches, or a specification that is violated.
  predicate Matches(l: Lsda, r: ActionRecord) {
    if r.filter > 0 then l.catches(r.filter).Some? else r.filter < 0 && !l.allows(r.filter)
  }

  datatype Search = Match(filter: int, ptr: nat) | NoMatch(sawCleanup: bool)

  // The outcome of a search that has passed the records before the chain.
  function Outcome(l: Lsda, chain: seq<ActionRecord>, thrownPtr: nat, sawCleanup: bool): Search {
    if chain == [] then NoMatch(sawCleanup)
    else if Matches(l, chain[0]) then
      Match(chain[0].filter, if chain[0].filter > 0 then l.catches(chain[0].filter).value else thrownPtr)
    else Outcome(l, chain[1..], thrownPtr, sawCleanup || chain[0].filter == 0)
  }

  method SearchActions(l: Lsda, first: nat, thrownPtr: nat, ghost chain: seq<ActionRecord>) returns (found: Search)
    requires Chain(l.actions, first, chain)
    ensures found == Outcome(l, chain, thrownPtr, false)
  {
    var at := first;
    var sawCleanup := false;
    ghost var k := 0;
    while true
      invariant 0 <= k < |chain| && Chain(l.actions, at, chain[k..])
      invariant Outcome(l, chain[k..], thrownPtr, sawCleanup) == Outcome(l, chain, thrownPtr, false)
      decreases |chain| - k
    {
      var filter := l.actions[at].filter;
      assert chain[k..][1..] == chain[k + 1..];
      if filter == 0 {
        sawCleanup := true;
      } else if filter > 0 {
        match l.catches(filter)
        case Some(adjusted) => return Match(filter, adjusted);
        case None =>
      } else {
        if !l.allows(filter) {
          return Match(filter, thrownPtr);
        }
      }
      if l.actions[at].next == None {
        break;
      }
      at := l.actions[at].next.value;
      k := k + 1;
    }
    return NoMatch(sawCleanup);
  }

  // The first record of the chain that matches.
  ghost predicate FirstMatch(l: Lsda, chain: seq<ActionRecord>, k: nat) {
    k < |chain| && Matches(l, chain[k]) && forall j :: 0 <= j < k ==> !Matches(l, chain[j])
  }

  // The search selects the first matching record, and reports a cleanup only if it passed a zero
  // filter and nothing matched.
  lemma {:induction false} SelectsFirst(l: Lsda, chain: seq<ActionRecord>, thrownPtr: nat, saw: bool)
    ensures Outcome(l, chain, thrownPtr, saw).Match? <==> exists k: nat :: k < |chain| && Matches(l, chain[k])
    ensures forall k: nat :: FirstMatch(l, chain, k) ==>
      Outcome(l, chain, thrownPtr, saw) ==
      Match(chain[k].filter, if chain[k].filter > 0 then l.catches(chain[k].filter).value else thrownPtr)
    ensures Outcome(l, chain, thrownPtr, saw).NoMatch? ==>
      (Outcome(l, chain, thrownPtr, saw).sawCleanup <==> saw || exists k: nat :: k < |chain| && chain[k].filter == 0)
  {
    if chain != [] && !Matches(l, chain[0]) {
      var rest := chain[1..];
      SelectsFirst(l, rest, thrownPtr, saw || chain[0].filter == 0);
      forall k: nat | FirstMatch(l, chain, k)
        ensures FirstMatch(l, rest, k - 1) && rest[k - 1] == chain[k]
      {
        assert forall j :: 0 <= j < k - 1 ==> rest[j] == chain[j + 1];
      }
      assert forall k: nat :: k < |rest| ==> rest[k] == chain[k + 1];
    }
  }

  // ---------- What a frame wants ----------

  datatype Decision =
    | Nothing
    | Terminate
    | Cleanup(landingPad: nat)
    | Handler(landingPad: nat, filter: int, ptr: nat)

  // The call sites are sorted, and the action chains finite.
  ghost predicate FrameOk(f: Frame) {
    f.lsda.Some? ==>
      var l := f.lsda.value;
      && Sorted(l.callSites)
      && forall c :: c in l.callSites && c.action != 0 ==> Finite(l.actions, c.action - 1)
  }

  function Address(f: Frame): int { if f.ipBeforeInsn then f.ip else f.ip - 1 }

  function Wants(f: Frame, thrownPtr: nat): Decision {
    if f.lsda.None? then Nothing
    else
      var l := f.lsda.value;
      match Scan(l, Address(f), 0)
      case None => Terminate
      case Some(c) =>
        if c.landingPad == 0 then Nothing
        else if c.action == 0 then Cleanup(l.lpStart + c.landingPad)
        else
          match Follow(l.actions, c.action - 1, {})
          case None => Nothing
          case Some(chain) =>
            match Outcome(l, chain, thrownPtr, false)
            case Match(filter, ptr) => Handler(l.lpStart + c.landingPad, filter, ptr)
            case NoMatch(saw) => if saw then Cleanup(l.lpStart + c.landingPad) else Nothing
  }

  // ---------- Foreign exceptions and forced unwinding ----------

  // What is unwinding the stack: an exception of this runtime or a foreign one, or something that
  // asks for the cleanups only.
  datatype Unwinding = Unwinding(native: bool, forced: bool)

  predicate Ordinary(u: Unwinding) { u.native && !u.forced }

  // The tables as they apply to it.
  function AppliedTo(l: Lsda, u: Unwinding): Lsda {
    if Ordinary(u) then l
    else
      var special := if u.forced then ForcedUnwindType else ForeignExceptionType;
      l.(catches := filter => l.catchesSpecial(special, filter), allows := filter => !l.emptySpec(filter))
  }

  function Applied(f: Frame, u: Unwinding): Frame {
    if f.lsda.None? then f else f.(lsda := Some(AppliedTo(f.lsda.value, u)))
  }

  // Only an exception of this runtime has an object to look at.
  function ObjectOf(u: Unwinding, thrownObj: nat): nat { if Ordinary(u) then thrownObj else 0 }

  function WantsFor(f: Frame, u: Unwinding, thrownObj: nat): Decision {
    Wants(Applied(f, u), ObjectOf(u, thrownObj))
  }

  // ---------- The rule ----------

  // The call site speaks for the address in the frame, which after a call is that of the call.
  predicate At(f: Frame, l: Lsda, c: CallSite) {
    var ip := if f.ipBeforeInsn then f.ip else f.ip - 1;
    l.start + c.start <= ip < l.start + c.start + c.len
  }

  // The frame has tables, but no call site for the address.
  ghost predicate OutsideSites(f: Frame) {
    f.lsda.Some? && forall c :: c in f.lsda.value.callSites ==> !At(f, f.lsda.value, c)
  }

  // What catches whom: a forced unwinding and a foreign exception are caught by types of their own, and
  // stopped by the specification that nothing is thrown.
  function CaughtBy(l: Lsda, u: Unwinding, filter: int): Option<nat> {
    if u.forced then l.catchesSpecial(ForcedUnwindType, filter)
    else if !u.native then l.catchesSpecial(ForeignExceptionType, filter)
    else l.catches(filter)
  }

  predicate Hit(l: Lsda, u: Unwinding, r: ActionRecord) {
    if r.filter > 0 then CaughtBy(l, u, r.filter).Some?
    else r.filter < 0 && if u.native && !u.forced then !l.allows(r.filter) else l.emptySpec(r.filter)
  }

  ghost predicate FirstHit(l: Lsda, u: Unwinding, chain: seq<ActionRecord>, k: nat) {
    k < |chain| && Hit(l, u, chain[k]) && forall j :: 0 <= j < k ==> !Hit(l, u, chain[j])
  }

  // The first record hit is the handler; without one, a record with a zero filter asks for a cleanup.
  ghost predicate RuleOfChain(l: Lsda, chain: seq<ActionRecord>, lp: nat, u: Unwinding, thrownObj: nat, d: Decision) {
    match d
    case Handler(pad, filter, ptr) =>
      && pad == lp
      && exists k: nat ::
           && FirstHit(l, u, chain, k) && chain[k].filter == filter
           && ptr == if filter > 0 then CaughtBy(l, u, filter).value else if u.native && !u.forced then thrownObj else 0
    case Cleanup(pad) =>
      && pad == lp && (exists k :: 0 <= k < |chain| && chain[k].filter == 0)
      && forall k :: 0 <= k < |chain| ==> !Hit(l, u, chain[k])
    case Nothing => forall k :: 0 <= k < |chain| ==> chain[k].filter != 0 && !Hit(l, u, chain[k])
    case Terminate => false
  }

  ghost predicate RuleOfSite(l: Lsda, c: CallSite, u: Unwinding, thrownObj: nat, d: Decision) {
    if c.landingPad == 0 then d == Nothing
    else if c.action == 0 then d == Cleanup(l.lpStart + c.landingPad)
    else
      exists chain :: ChainOf(l, c, chain) && RuleOfChain(l, chain, l.lpStart + c.landingPad, u, thrownObj, d)
  }

  // The records of a call site: an action is one more than the offset of the first.
  ghost predicate ChainOf(l: Lsda, c: CallSite, chain: seq<ActionRecord>)
    requires c.action != 0
  {
    Chain(l.actions, c.action - 1, chain)
  }

  // What a frame wants, by its tables: nothing if it has none, and termination if they do not speak of
  // the address.
  ghost predicate Rule(f: Frame, u: Unwinding, thrownObj: nat, d: Decision) {
    if f.lsda.None? then d == Nothing
    else if OutsideSites(f) then d == Terminate
    else
      exists c :: c in f.lsda.value.callSites && At(f, f.lsda.value, c)
        && RuleOfSite(f.lsda.value, c, u, thrownObj, d)
  }

  // The decision is the one, and the only one, that the rule allows.
  lemma RuleIff(f: Frame, u: Unwinding, thrownObj: nat, d: Decision)
    requires FrameOk(f)
    ensures Rule(f, u, thrownObj, d) <==> d == WantsFor(f, u, thrownObj)
  {
    if f.lsda.Some? && !OutsideSites(f) {
      var l := f.lsda.value;
      var c :| c in l.callSites && At(f, l, c);
      SiteFound(f, l, c, u);
      RuleOfSiteIff(f, l, c, u, thrownObj, d);
      forall c' | c' in l.callSites && At(f, l, c') ensures c' == c {
        SiteFound(f, l, c', u);
      }
    } else if f.lsda.Some? {
      NoSiteFound(f, f.lsda.value, u);
    }
  }

  lemma SiteFound(f: Frame, l: Lsda, c: CallSite, u: Unwinding)
    requires f.lsda == Some(l) && Sorted(l.callSites) && c in l.callSites && At(f, l, c)
    ensures Scan(AppliedTo(l, u), Address(f), 0) == Some(c)
  {
    ScanFinds(AppliedTo(l, u), Address(f), 0);
    var j :| 0 <= j < |l.callSites| && l.callSites[j] == c;
    assert Covers(AppliedTo(l, u), AppliedTo(l, u).callSites[j], Address(f));
  }

  lemma NoSiteFound(f: Frame, l: Lsda, u: Unwinding)
    requires f.lsda == Some(l) && Sorted(l.callSites) && OutsideSites(f)
    ensures Scan(AppliedTo(l, u), Address(f), 0) == None
  {
    ScanFinds(AppliedTo(l, u), Address(f), 0);
    forall j | 0 <= j < |l.callSites| ensures !Covers(AppliedTo(l, u), AppliedTo(l, u).callSites[j], Address(f)) {
      assert !At(f, l, l.callSites[j]);
    }
  }

  lemma RuleOfSiteIff(f: Frame, l: Lsda, c: CallSite, u: Unwinding, thrownObj: nat, d: Decision)
    requires FrameOk(f) && f.lsda == Some(l) && c in l.callSites
    requires Scan(AppliedTo(l, u), Address(f), 0) == Some(c)
    ensures RuleOfSite(l, c, u, thrownObj, d) <==> d == WantsFor(f, u, thrownObj)
  {
    if c.landingPad != 0 && c.action != 0 {
      var chain :| Chain(l.actions, c.action - 1, chain);
      WantsByChain(f, l, c, chain, u, thrownObj);
      RuleOfChainIff(l, chain, l.lpStart + c.landingPad, u, thrownObj, d);
      assert ChainOf(l, c, chain);
      forall other | ChainOf(l, c, other) ensures other == chain {
        OneChain(l.actions, c.action - 1, chain, other);
      }
    }
  }

  lemma WantsByChain(f: Frame, l: Lsda, c: CallSite, chain: seq<ActionRecord>, u: Unwinding, thrownObj: nat)
    requires f.lsda == Some(l) && Scan(AppliedTo(l, u), Address(f), 0) == Some(c) && c.landingPad != 0
    requires c.action != 0 && Chain(l.actions, c.action - 1, chain)
    ensures
      WantsFor(f, u, thrownObj) ==
      match Outcome(AppliedTo(l, u), chain, ObjectOf(u, thrownObj), false)
      case Match(filter, ptr) => Handler(l.lpStart + c.landingPad, filter, ptr)
      case NoMatch(saw) => if saw then Cleanup(l.lpStart + c.landingPad) else Nothing
  {
    FollowsExactly(l.actions, c.action - 1, chain);
  }

  lemma RuleOfChainIff(l: Lsda, chain: seq<ActionRecord>, lp: nat, u: Unwinding, thrownObj: nat, d: Decision)
    ensures
      RuleOfChain(l, chain, lp, u, thrownObj, d) <==>
      d == match Outcome(AppliedTo(l, u), chain, ObjectOf(u, thrownObj), false)
           case Match(filter, ptr) => Handler(lp, filter, ptr)
           case NoMatch(saw) => if saw then Cleanup(lp) else Nothing
  {
    var applied := AppliedTo(l, u);
    SelectsFirst(applied, chain, ObjectOf(u, thrownObj), false);
    forall k | 0 <= k < |chain| ensures Matches(applied, chain[k]) <==> Hit(l, u, chain[k]) {}
    if k: nat :| k < |chain| && Matches(applied, chain[k]) {
      var first := LeastMatch(applied, chain, k);
      assert FirstHit(l, u, chain, first);
      forall j: nat | FirstHit(l, u, chain, j) ensures j == first {
        OneFirstHit(l, u, chain, j, first);
      }
    }
  }

  lemma OneFirstHit(l: Lsda, u: Unwinding, chain: seq<ActionRecord>, j: nat, k: nat)
    requires FirstHit(l, u, chain, j) && FirstHit(l, u, chain, k)
    ensures j == k
  {
  }

  // ---------- The routine ----------

  datatype Phase = SearchPhase | CleanupPhase | HandlerFrame

  datatype Reply =
    | ContinueUnwind
    | HandlerFound
    | InstallContext(switchValue: int, landingPad: nat)
    | CallTerminate
    | CallUnexpected

  // What the exception header keeps between the phases. An exception specification's handler
  // reuses catchTemp for the base of the type table.
  class ExceptionHeader {
    var handlerSwitchValue: int
    var catchTemp: nat
    var adjustedPtr: nat

    // The header holds what phase 1 decided.
    ghost predicate Holds(d: Decision)
      reads this
    {
      match d
      case Handler(lp, filter, ptr) => handlerSwitchValue == filter && catchTemp == lp && adjustedPtr == ptr
      case _ => handlerSwitchValue == 0 && catchTemp == 0 && adjustedPtr == 0
    }
  }

  method Personality(f: Frame, phase: Phase, u: Unwinding, xh: ExceptionHeader, thrownObj: nat, ttypeBase: nat)
    returns (reply: Reply)
    requires FrameOk(f)
    modifies xh
    ensures phase.SearchPhase? ==>
      match WantsFor(f, u, thrownObj)
      case Nothing => reply == ContinueUnwind && unchanged(xh)
      case Cleanup(_) => reply == ContinueUnwind && unchanged(xh)
      case Terminate => reply == HandlerFound && if u.native then xh.Holds(Terminate) else unchanged(xh)
      case Handler(lp, filter, ptr) =>
        reply == HandlerFound && if u.native then xh.Holds(Handler(lp, filter, ptr)) else unchanged(xh)
    ensures phase.CleanupPhase? || (phase.HandlerFrame? && !Ordinary(u)) ==>
      match WantsFor(f, u, thrownObj)
      case Nothing => reply == ContinueUnwind && unchanged(xh)
      case Cleanup(lp) => reply == InstallContext(0, lp) && unchanged(xh)
      case Terminate => reply == CallTerminate && unchanged(xh)
      case Handler(lp, filter, _) =>
        if filter >= 0 then reply == InstallContext(filter, lp) && unchanged(xh)
        else if u.forced || !u.native then reply == CallUnexpected && unchanged(xh)
        else reply == InstallContext(filter, lp) && xh.catchTemp == ttypeBase
    ensures phase.SearchPhase? && OutsideSites(f) ==> reply == HandlerFound
    ensures phase.CleanupPhase? && OutsideSites(f) ==> reply == CallTerminate
    ensures phase.HandlerFrame? && Ordinary(u) ==>
      && reply == (if old(xh.catchTemp) == 0 then CallTerminate
           else InstallContext(old(xh.handlerSwitchValue), old(xh.catchTemp)))
      && xh.catchTemp == if old(xh.catchTemp) != 0
           && old(xh.handlerSwitchValue) < 0 then ttypeBase else old(xh.catchTemp)
    ensures !phase.SearchPhase? ==>
      xh.handlerSwitchValue == old(xh.handlerSwitchValue) && xh.adjustedPtr == old(xh.adjustedPtr)
  {
    if OutsideSites(f) {
      RuleIff(f, u, thrownObj, Terminate);
    }
    var decision;
    if phase.HandlerFrame? && u.native && !u.forced {
      // The handler was found in phase 1.
      decision := if xh.catchTemp == 0 then Terminate else Handler(xh.catchTemp, xh.handlerSwitchValue, xh.adjustedPtr);
    } else {
      decision := Decide(Applied(f, u), ObjectOf(u, thrownObj));
      if decision.Nothing? {
        return ContinueUnwind;
      }
      if phase.SearchPhase? {
        if decision.Cleanup? {
          return ContinueUnwind;
        }
        if u.native {
          // The header carries the decision over to phase 2.
          xh.handlerSwitchValue := if decision.Handler? then decision.filter else 0;
          xh.catchTemp := if decision.Handler? then decision.landingPad else 0;
          xh.adjustedPtr := if decision.Handler? then decision.ptr else 0;
        }
        return HandlerFound;
      }
    }
    match decision
    case Handler(lp, filter, _) =>
      if u.forced || !u.native {
        return if filter < 0 then CallUnexpected else InstallContext(filter, lp);
      }
      if filter < 0 {
        xh.catchTemp := ttypeBase;
      }
      return InstallContext(filter, lp);
    case Cleanup(lp) => return InstallContext(0, lp);
    case _ => return CallTerminate;
  }

  method Decide(f: Frame, thrownObj: nat) returns (decision: Decision)
    requires FrameOk(f)
    ensures decision == Wants(f, thrownObj)
  {
    if f.lsda == None {
      return Nothing;
    }
    var l := f.lsda.value;
    var ip := if f.ipBeforeInsn then f.ip else f.ip - 1;
    var site := FindCallSite(l, ip);
    if site == None {
      return Terminate;
    }
    var c := site.value;
    if c.landingPad == 0 {
      return Nothing;
    }
    if c.action == 0 {
      return Cleanup(l.lpStart + c.landingPad);
    }
    ScanFromTable(l, ip, 0);
    ghost var chain :| Chain(l.actions, c.action - 1, chain);
    FollowsExactly(l.actions, c.action - 1, chain);
    var found := SearchActions(l, c.action - 1, thrownObj, chain);
    match found
    case Match(filter, ptr) => return Handler(l.lpStart + c.landingPad, filter, ptr);
    case NoMatch(saw) => return if saw then Cleanup(l.lpStart + c.landingPad) else Nothing;
  }

  lemma ScanFromTable(l: Lsda, ip: int, i: nat)
    requires i <= |l.callSites|
    ensures Scan(l, ip, i).Some? ==> Scan(l, ip, i).value in l.callSites
    decreases |l.callSites| - i
  {
  }

  // ---------- Two phases over a stack of frames ----------

  // A frame, and the addresses in it at which its cleanups resume the unwinding, in order.
  datatype Activation = Activation(frame: Frame, resumes: seq<nat>)

  // The frame after so many cleanups.
  function Station(a: Activation, k: nat): Frame
    requires k <= |a.resumes|
  {
    if k == 0 then a.frame else a.frame.(ip := a.resumes[k - 1])
  }

  // The tables are sound, and after all its cleanups a frame wants no other.
  ghost predicate ActivationOk(a: Activation, u: Unwinding, thrownObj: nat) {
    FrameOk(a.frame) && !Enters(u, WantsFor(Station(a, |a.resumes|), u, thrownObj))
  }

  predicate Stops(d: Decision) { d.Handler? || d.Terminate? }

  // The frame is entered and resumes the unwinding: cleanups, and in forced unwinding, handlers too.
  predicate Enters(u: Unwinding, d: Decision) { d.Cleanup? || (d.Handler? && d.filter > 0 && u.forced) }

  // The innermost frame that wants to handle the exception or to terminate.
  function Stop(stack: seq<Activation>, u: Unwinding, thrownObj: nat): (h: nat)
    ensures h <= |stack|
    ensures h < |stack| ==> Stops(WantsFor(stack[h].frame, u, thrownObj))
    ensures forall i :: 0 <= i < h ==> !Stops(WantsFor(stack[i].frame, u, thrownObj))
  {
    if stack == [] || Stops(WantsFor(stack[0].frame, u, thrownObj)) then 0 else 1 + Stop(stack[1..], u, thrownObj)
  }

  // What unwinding has installed: switch values and landing pads, innermost frame first.
  type Log = seq<(int, nat)>

  datatype Ending = NoHandler | Terminates | Unexpected | Caught(switchValue: int, landingPad: nat)

  // What has been entered on the way out of some frames, and whether the way ends there.
  datatype Passage = Passage(log: Log, end: Option<Ending>)

  function EndingOf(u: Unwinding, d: Decision): Ending
    requires Stops(d)
  {
    if d.Terminate? then Terminates
    else if d.filter < 0 && !Ordinary(u) then Unexpected
    else Caught(d.filter, d.landingPad)
  }

  // From the k-th station of a frame on.
  function Pass(a: Activation, u: Unwinding, thrownObj: nat, k: nat): Passage
    requires k <= |a.resumes|
    decreases |a.resumes| - k
  {
    var d := WantsFor(Station(a, k), u, thrownObj);
    if Enters(u, d) && k < |a.resumes| then
      var rest := Pass(a, u, thrownObj, k + 1);
      Passage([(if d.Handler? then d.filter else 0, d.landingPad)] + rest.log, rest.end)
    else if Stops(d) then Passage([], Some(EndingOf(u, d)))
    else Passage([], None)
  }

  // Out of all frames of a stack, innermost first.
  function PassAll(stack: seq<Activation>, u: Unwinding, thrownObj: nat): Passage {
    if stack == [] then Passage([], None)
    else
      var first := Pass(stack[0], u, thrownObj, 0);
      if first.end.Some? then first
      else
        var rest := PassAll(stack[1..], u, thrownObj);
        Passage(first.log + rest.log, rest.end)
  }

  // The two-phase unwinder for an exception, native or foreign.
  method Raise(stack: seq<Activation>, native: bool, xh: ExceptionHeader, thrownObj: nat, ttypeBase: nat)
    returns (log: Log, ending: Ending)
    requires forall a :: a in stack ==> ActivationOk(a, Unwinding(native, false), thrownObj)
    modifies xh
    ensures
      var u := Unwinding(native, false);
      var h := Stop(stack, u, thrownObj);
      if h == |stack| then log == [] && ending == NoHandler && unchanged(xh)
      else
        var d, way := WantsFor(stack[h].frame, u, thrownObj), PassAll(stack[..h], u, thrownObj);
        && log == way.log
        && ending == (if way.end.Some? then way.end.value
                      else
                        match d
                        case Handler(lp, filter, _) => if filter < 0 && !native then Unexpected else Caught(filter, lp)
                        case _ => Terminates)
        && (native && way.end.None? && d.Handler? ==>
              && xh.adjustedPtr == d.ptr && xh.handlerSwitchValue == d.filter
              && xh.catchTemp == if d.filter < 0 then ttypeBase else d.landingPad)
    ensures !native ==> unchanged(xh)
    ensures stack != [] && OutsideSites(stack[0].frame) ==> log == [] && ending == Terminates
  {
    var u := Unwinding(native, false);
    if stack != [] && OutsideSites(stack[0].frame) {
      assert stack[0] in stack;
      RuleIff(stack[0].frame, u, thrownObj, Terminate);
    }
    var h := SearchFrames(stack, u, xh, thrownObj, ttypeBase);
    if h == |stack| {
      return [], NoHandler;
    }
    var end;
    log, end := PassFrames(stack[..h], u, xh, thrownObj, ttypeBase);
    if end.Some? {
      return log, end.value;
    }
    HandlerIsReal(Applied(stack[h].frame, u), ObjectOf(u, thrownObj));
    var reply := Personality(stack[h].frame, HandlerFrame, u, xh, thrownObj, ttypeBase);
    match reply
    case InstallContext(switchValue, landingPad) => return log, Caught(switchValue, landingPad);
    case CallUnexpected => return log, Unexpected;
    case _ => return log, Terminates;
  }

  // Forced unwinding has no search phase, and goes on to the end of the stack.
  method ForcedUnwind(stack: seq<Activation>, native: bool, xh: ExceptionHeader, thrownObj: nat, ttypeBase: nat)
    returns (log: Log, ending: Ending)
    requires forall a :: a in stack ==> ActivationOk(a, Unwinding(native, true), thrownObj)
    modifies xh
    ensures
      var way := PassAll(stack, Unwinding(native, true), thrownObj);
      log == way.log && ending == if way.end.Some? then way.end.value else NoHandler
    ensures unchanged(xh)
  {
    var end;
    log, end := PassFrames(stack, Unwinding(native, true), xh, thrownObj, ttypeBase);
    ending := if end.Some? then end.value else NoHandler;
  }

  // Phase 1, which leaves what was found in the header of a native exception.
  method SearchFrames(stack: seq<Activation>, u: Unwinding, xh: ExceptionHeader, thrownObj: nat, ttypeBase: nat)
    returns (h: nat)
    requires forall a :: a in stack ==> FrameOk(a.frame)
    modifies xh
    ensures h == Stop(stack, u, thrownObj)
    ensures if h < |stack| && u.native then xh.Holds(WantsFor(stack[h].frame, u, thrownObj)) else unchanged(xh)
  {
    h := 0;
    while h < |stack|
      invariant 0 <= h <= |stack|
      invariant forall i :: 0 <= i < h ==> !Stops(WantsFor(stack[i].frame, u, thrownObj))
      invariant unchanged(xh)
    {
      var reply := Personality(stack[h].frame, SearchPhase, u, xh, thrownObj, ttypeBase);
      if reply == HandlerFound {
        break;
      }
      h := h + 1;
    }
    StopIs(stack, u, thrownObj, h);
  }

  // The second phase, up to the handler frame.
  method PassFrames(stack: seq<Activation>, u: Unwinding, xh: ExceptionHeader, thrownObj: nat, ttypeBase: nat)
    returns (log: Log, end: Option<Ending>)
    requires forall a :: a in stack ==> ActivationOk(a, u, thrownObj)
    modifies xh
    ensures Passage(log, end) == PassAll(stack, u, thrownObj)
    ensures end.None? || !Ordinary(u) ==> unchanged(xh)
  {
    log, end := [], None;
    var i := 0;
    while i < |stack|
      invariant 0 <= i <= |stack| && end.None? && unchanged(xh)
      invariant
        var rest := PassAll(stack[i..], u, thrownObj);
        PassAll(stack, u, thrownObj) == Passage(log + rest.log, rest.end)
    {
      assert stack[i..][1..] == stack[i + 1..];
      var entered;
      entered, end := PassFrame(stack[i], u, xh, thrownObj, ttypeBase);
      log := log + entered;
      if end.Some? {
        return;
      }
      i := i + 1;
    }
  }

  // The cleanups of one frame, each of which resumes the unwinding in the same frame.
  method PassFrame(a: Activation, u: Unwinding, xh: ExceptionHeader, thrownObj: nat, ttypeBase: nat)
    returns (log: Log, end: Option<Ending>)
    requires ActivationOk(a, u, thrownObj)
    modifies xh
    ensures Passage(log, end) == Pass(a, u, thrownObj, 0)
    ensures end.None? || !Ordinary(u) ==> unchanged(xh)
  {
    log, end := [], None;
    var k := 0;
    while true
      invariant 0 <= k <= |a.resumes| && unchanged(xh)
      invariant Leaving(a, u, thrownObj, k, log)
      decreases |a.resumes| - k
    {
      var reply := PassStation(a, u, xh, thrownObj, ttypeBase, k);
      match reply
      case InstallContext(switchValue, landingPad) =>
        if switchValue != 0 && !u.forced {
          return log, Some(Caught(switchValue, landingPad));
        }
        LeavingOn(a, u, thrownObj, k, log, (switchValue, landingPad));
        log := log + [(switchValue, landingPad)];
        k := k + 1;
      case ContinueUnwind => return log, None;
      case CallUnexpected => return log, Some(Unexpected);
      case _ => return log, Some(Terminates);
    }
  }

  // The routine at one station, and what its reply makes of the way out of the frame.
  method PassStation(a: Activation, u: Unwinding, xh: ExceptionHeader, thrownObj: nat, ttypeBase: nat, k: nat)
    returns (reply: Reply)
    requires k <= |a.resumes| && ActivationOk(a, u, thrownObj)
    modifies xh
    ensures
      var way := Pass(a, u, thrownObj, k);
      match reply
      case InstallContext(switchValue, lp) =>
        if switchValue != 0 && !u.forced then way == Passage([], Some(Caught(switchValue, lp)))
        else
          && k < |a.resumes| && unchanged(xh)
          && var rest := Pass(a, u, thrownObj, k + 1);
             way == Passage([(switchValue, lp)] + rest.log, rest.end)
      case ContinueUnwind => way == Passage([], None) && unchanged(xh)
      case CallUnexpected => way == Passage([], Some(Unexpected))
      case _ => way == Passage([], Some(Terminates))
    ensures !Ordinary(u) ==> unchanged(xh)
  {
    PassStep(a, u, thrownObj, k);
    reply := Personality(Station(a, k), CleanupPhase, u, xh, thrownObj, ttypeBase);
  }

  // The log is what has been entered before the k-th station.
  ghost predicate Leaving(a: Activation, u: Unwinding, thrownObj: nat, k: nat, log: Log)
    requires k <= |a.resumes|
  {
    var rest := Pass(a, u, thrownObj, k);
    Pass(a, u, thrownObj, 0) == Passage(log + rest.log, rest.end)
  }

  lemma LeavingOn(a: Activation, u: Unwinding, thrownObj: nat, k: nat, log: Log, entry: (int, nat))
    requires k < |a.resumes| && Leaving(a, u, thrownObj, k, log)
    requires
      var rest := Pass(a, u, thrownObj, k + 1);
      Pass(a, u, thrownObj, k) == Passage([entry] + rest.log, rest.end)
    ensures Leaving(a, u, thrownObj, k + 1, log + [entry])
  {
    var rest := Pass(a, u, thrownObj, k + 1);
    assert log + ([entry] + rest.log) == log + [entry] + rest.log;
  }

  lemma PassStep(a: Activation, u: Unwinding, thrownObj: nat, k: nat)
    requires k <= |a.resumes| && ActivationOk(a, u, thrownObj)
    ensures
      var way := Pass(a, u, thrownObj, k);
      match WantsFor(Station(a, k), u, thrownObj)
      case Nothing => way == Passage([], None)
      case Terminate => way == Passage([], Some(Terminates))
      case Cleanup(lp) =>
        && k < |a.resumes|
        && var rest := Pass(a, u, thrownObj, k + 1);
           way == Passage([(0, lp)] + rest.log, rest.end)
      case Handler(lp, filter, _) =>
        && filter != 0
        && if filter < 0 && (u.forced || !u.native) then way == Passage([], Some(Unexpected))
           else if !u.forced then way == Passage([], Some(Caught(filter, lp)))
           else
             && k < |a.resumes|
             && var rest := Pass(a, u, thrownObj, k + 1);
                way == Passage([(filter, lp)] + rest.log, rest.end)
  {
    HandlerIsReal(Applied(Station(a, k), u), ObjectOf(u, thrownObj));
  }

  // The way out of a frame enters what its stations want, one after the other, up to the first station
  // at which nothing is entered, and ends there exactly if the frame handles or terminates.
  lemma {:induction false} PassIs(a: Activation, u: Unwinding, thrownObj: nat, k: nat)
    requires k <= |a.resumes| && ActivationOk(a, u, thrownObj)
    ensures
      var way := Pass(a, u, thrownObj, k);
      var last := k + |way.log|;
      && last <= |a.resumes| && AllEntered(a, u, thrownObj, k, way.log)
      && EndsAt(a, u, thrownObj, last, way.end)
    decreases |a.resumes| - k
  {
    if Enters(u, WantsFor(Station(a, k), u, thrownObj)) {
      PassIs(a, u, thrownObj, k + 1);
      EnteredBefore(a, u, thrownObj, k, Pass(a, u, thrownObj, k).log[0], Pass(a, u, thrownObj, k + 1).log);
    }
  }

  // Nothing is entered at the k-th station, and the unwinding goes on to the next frame, or ends.
  ghost predicate EndsAt(a: Activation, u: Unwinding, thrownObj: nat, k: nat, end: Option<Ending>) {
    && k <= |a.resumes|
    && match WantsFor(Station(a, k), u, thrownObj)
       case Nothing => end == None
       case Terminate => end == Some(Terminates)
       case Handler(lp, filter, _) =>
         && !(u.forced && filter > 0)
         && end == Some(if filter < 0 && (u.forced || !u.native) then Unexpected else Caught(filter, lp))
       case Cleanup(_) => false
  }

  ghost predicate AllEntered(a: Activation, u: Unwinding, thrownObj: nat, k: nat, log: Log) {
    forall i :: 0 <= i < |log| ==> EnteredAt(a, u, thrownObj, k + i, log[i])
  }

  lemma EnteredBefore(a: Activation, u: Unwinding, thrownObj: nat, k: nat, entry: (int, nat), log: Log)
    requires EnteredAt(a, u, thrownObj, k, entry) && AllEntered(a, u, thrownObj, k + 1, log)
    ensures AllEntered(a, u, thrownObj, k, [entry] + log)
  {
    forall i | 0 <= i < |log| + 1 ensures EnteredAt(a, u, thrownObj, k + i, ([entry] + log)[i]) {
      if i > 0 {
        assert EnteredAt(a, u, thrownObj, k + 1 + (i - 1), log[i - 1]);
      }
    }
  }

  ghost predicate EnteredAt(a: Activation, u: Unwinding, thrownObj: nat, k: nat, entry: (int, nat)) {
    && k <= |a.resumes|
    && match WantsFor(Station(a, k), u, thrownObj)
       case Cleanup(lp) => entry == (0, lp)
       case Handler(lp, filter, _) => u.forced && filter > 0 && entry == (filter, lp)
       case _ => false
  }

  // The ways out of two stacks make the way out of both.
  lemma {:induction false} PassBoth(inner: seq<Activation>, outer: seq<Activation>, u: Unwinding, thrownObj: nat)
    ensures
      var first, second := PassAll(inner, u, thrownObj), PassAll(outer, u, thrownObj);
      PassAll(inner + outer, u, thrownObj) ==
      if first.end.Some? then first else Passage(first.log + second.log, second.end)
  {
    if inner == [] {
      assert inner + outer == outer;
    } else {
      assert (inner + outer)[1..] == inner[1..] + outer;
      PassBoth(inner[1..], outer, u, thrownObj);
      var first, rest, second := Pass(inner[0], u, thrownObj, 0), PassAll(inner[1..], u, thrownObj),
        PassAll(outer, u, thrownObj);
      assert first.log + (rest.log + second.log) == first.log + rest.log + second.log;
    }
  }

  lemma PassOne(a: Activation, u: Unwinding, thrownObj: nat)
    ensures PassAll([a], u, thrownObj) == Pass(a, u, thrownObj, 0)
  {
    assert [a][1..] == [];
  }

  // Forced unwinding is never caught; and an exception enters nothing but cleanups before it is.
  ghost predicate OnTheWay(u: Unwinding, way: Passage) {
    if u.forced then way.end != None ==> !way.end.value.Caught?
    else forall i :: 0 <= i < |way.log| ==> way.log[i].0 == 0
  }

  ghost predicate NoStop(a: Activation, u: Unwinding, thrownObj: nat) {
    forall k :: 0 <= k <= |a.resumes| ==> !Stops(WantsFor(Station(a, k), u, thrownObj))
  }

  lemma {:induction false} EnteredOnTheWay(stack: seq<Activation>, u: Unwinding, thrownObj: nat)
    requires forall a :: a in stack ==> ActivationOk(a, u, thrownObj)
    ensures OnTheWay(u, PassAll(stack, u, thrownObj))
    ensures (forall a :: a in stack ==> NoStop(a, u, thrownObj)) ==> PassAll(stack, u, thrownObj).end == None
  {
    if stack != [] {
      FrameOnTheWay(stack[0], u, thrownObj);
      EnteredOnTheWay(stack[1..], u, thrownObj);
    }
  }

  lemma FrameOnTheWay(a: Activation, u: Unwinding, thrownObj: nat)
    requires ActivationOk(a, u, thrownObj)
    ensures OnTheWay(u, Pass(a, u, thrownObj, 0))
    ensures NoStop(a, u, thrownObj) ==> Pass(a, u, thrownObj, 0).end == None
  {
    var way := Pass(a, u, thrownObj, 0);
    PassIs(a, u, thrownObj, 0);
    HandlerIsReal(Applied(Station(a, |way.log|), u), ObjectOf(u, thrownObj));
    forall i | 0 <= i < |way.log| && !u.forced ensures way.log[i].0 == 0 {
      assert EnteredAt(a, u, thrownObj, 0 + i, way.log[i]);
    }
  }

  lemma HandlerIsReal(f: Frame, thrownPtr: nat)
    ensures
      var d := Wants(f, thrownPtr);
      d.Handler? ==> d.filter != 0 && d.landingPad > 0
  {
    if Wants(f, thrownPtr).Handler? {
      var l := f.lsda.value;
      var c := Scan(l, Address(f), 0).value;
      MatchNotZero(l, Follow(l.actions, c.action - 1, {}).value, thrownPtr, false);
    }
  }

  lemma MatchNotZero(l: Lsda, chain: seq<ActionRecord>, thrownPtr: nat, saw: bool)
    ensures Outcome(l, chain, thrownPtr, saw).Match? ==> Outcome(l, chain, thrownPtr, saw).filter != 0
  {
  }

  lemma StopIs(stack: seq<Activation>, u: Unwinding, thrownObj: nat, h: nat)
    requires h <= |stack| && (h < |stack| ==> Stops(WantsFor(stack[h].frame, u, thrownObj)))
    requires forall i :: 0 <= i < h ==> !Stops(WantsFor(stack[i].frame, u, thrownObj))
    ensures Stop(stack, u, thrownObj) == h
  {
  }

  // What is caught is the first match of the handler frame: the landing pad of the one call site
  // that covers the address, and the filter of the first matching record of its chain.
  lemma CaughtIsFirstMatch(f: Frame, thrownObj: nat, c: CallSite) returns (chain: seq<ActionRecord>, k: nat)
    requires FrameOk(f) && f.lsda.Some? && c in f.lsda.value.callSites && Covers(f.lsda.value, c, Address(f))
    requires Wants(f, thrownObj).Handler?
    ensures
      var l, d := f.lsda.value, Wants(f, thrownObj);
      && d.landingPad == l.lpStart + c.landingPad && c.landingPad != 0 && c.action != 0
      && Chain(l.actions, c.action - 1, chain)
      && SelectedBy(l, chain, k, d, thrownObj)
  {
    var l := f.lsda.value;
    ScanFinds(l, Address(f), 0);
    assert Scan(l, Address(f), 0) == Some(c);
    chain :| Chain(l.actions, c.action - 1, chain);
    FollowsExactly(l.actions, c.action - 1, chain);
    k := FirstSelection(l, chain, Wants(f, thrownObj), thrownObj);
  }

  lemma FirstSelection(l: Lsda, chain: seq<ActionRecord>, d: Decision, thrownObj: nat) returns (first: nat)
    requires d.Handler? && Outcome(l, chain, thrownObj, false) == Match(d.filter, d.ptr)
    ensures SelectedBy(l, chain, first, d, thrownObj)
  {
    SelectsFirst(l, chain, thrownObj, false);
    var k: nat :| k < |chain| && Matches(l, chain[k]);
    first := LeastMatch(l, chain, k);
  }

  // The handler runs with the filter, and the pointer, of record k, the first that matches.
  ghost predicate SelectedBy(l: Lsda, chain: seq<ActionRecord>, k: nat, d: Decision, thrownObj: nat) {
    && d.Handler? && FirstMatch(l, chain, k) && chain[k].filter == d.filter
    && d.ptr == if d.filter > 0 then l.catches(d.filter).value else thrownObj
  }

  lemma LeastMatch(l: Lsda, chain: seq<ActionRecord>, k: nat) returns (first: nat)
    requires k < |chain| && Matches(l, chain[k])
    ensures FirstMatch(l, chain, first)
  {
    first := 0;
    while !Matches(l, chain[first])
      invariant first <= k && forall j :: 0 <= j < first ==> !Matches(l, chain[j])
      decreases k - first
    {
      first := first + 1;
    }
  }
}
