// From a handler's type to the object it gets: the matcher, the upcast and the personality routine
// put together.
module Catching {
  import opened ClassTypes
  import Upcast
  import PointerCatch
  import Personality

  // The upcasts that the matcher asks for are those of an object at p, whose class goes by a name.
  ghost predicate Answers(upcasts: PointerCatch.Upcasts, vb: VirtualBases, classOf: nat -> ClassType, p: int) {
    forall thrown, handler :: upcasts(thrown, handler) <==> Upcast.Succeeds(vb, classOf(handler), classOf(thrown), p)
  }

  // The handler's class is the thrown one, or an unambiguous public base of it.
  ghost predicate IsBase(vb: VirtualBases, handler: ClassType, thrown: ClassType, p: int) {
    Upcast.UnambiguousPublic(vb, handler, thrown, p)
  }

  // The two cases in which an upcast is wrong.
  ghost predicate Misjudged(vb: VirtualBases, handler: ClassType, thrown: ClassType, p: int) {
    Upcast.LatePublic(vb, handler, thrown, p) || Upcast.HiddenRival(vb, handler, thrown, p)
  }

  lemma ItsOwnBase(vb: VirtualBases, c: ClassType, p: int)
    ensures IsBase(vb, c, c, p) && Upcast.Succeeds(vb, c, c, p) && !Misjudged(vb, c, c, p)
  {
    OnlyItself(vb, true, c, p);
    OnlyItself(vb, false, c, p);
    Upcast.SucceedsIff(vb, c, c, p);
  }

  // ---------- Objects and pointers to objects ----------

  // __class_type_info::__do_catch for an object of class type.
  method CatchObject(vb: VirtualBases, classOf: nat -> ClassType, handler: nat, thrown: nat, p: int,
                     ghost upcasts: PointerCatch.Upcasts)
    returns (caught: bool, ptr: int)
    requires Answers(upcasts, vb, classOf, p)
    requires Upcast.NonNull(vb, classOf(thrown), p) && FlagsSound(vb, classOf(thrown), p)
    ensures caught == PointerCatch.DoCatch(upcasts, PointerCatch.Class(handler), PointerCatch.Class(thrown), 1)
    ensures (caught <==> IsBase(vb, classOf(handler), classOf(thrown), p)) <==>
            !Misjudged(vb, classOf(handler), classOf(thrown), p)
    ensures caught && !Misjudged(vb, classOf(handler), classOf(thrown), p) ==>
      Places(vb, false, classOf(thrown), p, classOf(handler)) == {ptr}
    ensures !caught ==> ptr == p
  {
    if handler == thrown {
      ItsOwnBase(vb, classOf(thrown), p);
      OnlyItself(vb, false, classOf(thrown), p);
      return true, p;
    }
    caught, ptr := Upcast.Upcast(vb, classOf(handler), classOf(thrown), p);
  }

  // A handler of pointer type catches pointers to the objects that upcast to its class, if no
  // qualifier is lost; which is right exactly if the upcast is, or a qualifier is lost.
  lemma CatchesObjectPointers(upcasts: PointerCatch.Upcasts, vb: VirtualBases, classOf: nat -> ClassType,
                              handler: nat, to: PointerCatch.Flags, thrown: nat, from: PointerCatch.Flags, p: int)
    requires Answers(upcasts, vb, classOf, p) && to <= 7 && from <= 7
    ensures
      var h := PointerCatch.Pointer(to, PointerCatch.Class(handler));
      var t := PointerCatch.Pointer(from, PointerCatch.Class(thrown));
      (PointerCatch.DoCatch(upcasts, h, t, 1) <==>
       PointerCatch.Includes(from, to) && IsBase(vb, classOf(handler), classOf(thrown), p)) <==>
      PointerCatch.Includes(from, to) ==> !Misjudged(vb, classOf(handler), classOf(thrown), p)
  {
    var h := PointerCatch.Pointer(to, PointerCatch.Class(handler));
    var t := PointerCatch.Pointer(from, PointerCatch.Class(thrown));
    ItsOwnBase(vb, classOf(thrown), p);
    Upcast.SucceedsIff(vb, classOf(handler), classOf(thrown), p);
    assert PointerCatch.Quals(h) == [to] && PointerCatch.Quals(t) == [from];
    assert PointerCatch.Target(h) == h.pointee && PointerCatch.Target(t) == t.pointee;
    PointerCatch.CatchesPointers(upcasts, h, t);
    if PointerCatch.QualificationConversion([from], [to]) {
      assert PointerCatch.Includes([from][0], [to][0]);
    }
  }

  // ---------- The handler that runs ----------

  // Some filters of a frame name classes, and match by upcasting the thrown object at p. The others
  // may match as they like; a clause that catches everything is one of them.
  ghost predicate CatchesByClass(l: Personality.Lsda, named: set<int>, vb: VirtualBases, classOf: int -> ClassType,
                                 thrown: ClassType, p: int) {
    forall filter :: filter in named ==>
      && filter > 0
      && (l.catches(filter).Some? <==> Upcast.Succeeds(vb, classOf(filter), thrown, p))
      && (l.catches(filter).Some? ==> l.catches(filter).value as int in Places(vb, false, thrown, p, classOf(filter)))
  }

  // Record k of a chain is the first one that names a class to which the thrown object upcasts.
  ghost predicate FirstUpcast(named: set<int>, vb: VirtualBases, classOf: int -> ClassType, thrown: ClassType, p: int,
                              chain: seq<Personality.ActionRecord>, k: nat) {
    && k < |chain| && Upcast.Succeeds(vb, classOf(chain[k].filter), thrown, p)
    && forall j :: 0 <= j < k && chain[j].filter in named ==> !Upcast.Succeeds(vb, classOf(chain[j].filter), thrown, p)
  }

  // The same for a base of the thrown class.
  ghost predicate FirstBase(named: set<int>, vb: VirtualBases, classOf: int -> ClassType, thrown: ClassType, p: int,
                            chain: seq<Personality.ActionRecord>, k: nat) {
    && k < |chain| && IsBase(vb, classOf(chain[k].filter), thrown, p)
    && forall j :: 0 <= j < k && chain[j].filter in named ==> !IsBase(vb, classOf(chain[j].filter), thrown, p)
  }

  ghost predicate NoneMisjudged(named: set<int>, vb: VirtualBases, classOf: int -> ClassType, thrown: ClassType, p: int)
  {
    forall filter :: filter in named ==> !Misjudged(vb, classOf(filter), thrown, p)
  }

  // A catch clause that names a class runs only if it is the first one to which the thrown object
  // upcasts. Where no clause is misjudged, it is the first one to name a base of the thrown class, and
  // it gets the address of that base.
  lemma CaughtByFirstBase(f: Personality.Frame, thrownObj: nat, c: Personality.CallSite,
                          named: set<int>, vb: VirtualBases, classOf: int -> ClassType, thrown: ClassType)
    returns (chain: seq<Personality.ActionRecord>, k: nat)
    requires Personality.FrameOk(f) && f.lsda.Some? && c in f.lsda.value.callSites
    requires Personality.Covers(f.lsda.value, c, Personality.Address(f))
    requires CatchesByClass(f.lsda.value, named, vb, classOf, thrown, thrownObj)
    requires Personality.Wants(f, thrownObj).Handler? && Personality.Wants(f, thrownObj).filter in named
    ensures
      var d := Personality.Wants(f, thrownObj);
      && c.action != 0 && Personality.Chain(f.lsda.value.actions, c.action - 1, chain)
      && FirstUpcast(named, vb, classOf, thrown, thrownObj, chain, k) && chain[k].filter == d.filter
      && d.ptr as int in Places(vb, false, thrown, thrownObj, classOf(d.filter))
      && (NoneMisjudged(named, vb, classOf, thrown, thrownObj) ==>
            FirstBase(named, vb, classOf, thrown, thrownObj, chain, k)
              && Places(vb, false, thrown, thrownObj, classOf(d.filter)) == {d.ptr as int})
  {
    chain, k := Personality.CaughtIsFirstMatch(f, thrownObj, c);
    FirstMatchIsFirstUpcast(f.lsda.value, named, vb, classOf, thrown, thrownObj, chain, k);
    if NoneMisjudged(named, vb, classOf, thrown, thrownObj) {
      FirstUpcastIsFirstBase(named, vb, classOf, thrown, thrownObj, chain, k);
    }
  }

  lemma FirstMatchIsFirstUpcast(l: Personality.Lsda, named: set<int>, vb: VirtualBases, classOf: int -> ClassType,
                                thrown: ClassType, p: int, chain: seq<Personality.ActionRecord>, k: nat)
    requires CatchesByClass(l, named, vb, classOf, thrown, p)
    requires Personality.FirstMatch(l, chain, k) && chain[k].filter in named
    ensures FirstUpcast(named, vb, classOf, thrown, p, chain, k)
    ensures l.catches(chain[k].filter).Some?
    ensures l.catches(chain[k].filter).value as int in Places(vb, false, thrown, p, classOf(chain[k].filter))
  {
    forall j | 0 <= j < k && chain[j].filter in named
      ensures !Upcast.Succeeds(vb, classOf(chain[j].filter), thrown, p)
    {
      assert !Personality.Matches(l, chain[j]);
    }
  }

  lemma FirstUpcastIsFirstBase(named: set<int>, vb: VirtualBases, classOf: int -> ClassType, thrown: ClassType, p: int,
                               chain: seq<Personality.ActionRecord>, k: nat)
    requires FirstUpcast(named, vb, classOf, thrown, p, chain, k) && chain[k].filter in named
    requires NoneMisjudged(named, vb, classOf, thrown, p)
    ensures FirstBase(named, vb, classOf, thrown, p, chain, k)
    ensures exists d :: Places(vb, false, thrown, p, classOf(chain[k].filter)) == {d}
  {
    forall j | 0 <= j <= k && chain[j].filter in named
      ensures Upcast.Succeeds(vb, classOf(chain[j].filter), thrown, p) <==>
              IsBase(vb, classOf(chain[j].filter), thrown, p)
    {
      Upcast.SucceedsIff(vb, classOf(chain[j].filter), thrown, p);
    }
  }
}
