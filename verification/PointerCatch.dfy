// Matching a thrown type against a handler: pointers, their qualifiers, and what they point to.
module PointerCatch {

  // Qualifiers of the pointed-to type.
  type Flags = bv8
  const CONST_MASK: Flags := 0x1
  const VOLATILE_MASK: Flags := 0x2
  const RESTRICT_MASK: Flags := 0x4
  const TRANSACTION_SAFE_MASK: Flags := 0x20
  const NOEXCEPT_MASK: Flags := 0x40

  datatype TypeInfo =
    | Plain(name: nat)
    | Void
    | NullptrT
    | Function(name: nat)
    | Class(name: nat)
    | Pointer(flags: Flags, pointee: TypeInfo)

  // Whether the upcast of an object of the first class to the second succeeds.
  type Upcasts = (nat, nat) -> bool

  // ---------- The matcher ----------

  // The number outer holds the depth of the pointers passed so far, doubled, and in its lowest
  // bit whether all of them were const.
  function DoCatch(upcasts: Upcasts, handler: TypeInfo, thrown: TypeInfo, outer: nat): bool
    decreases handler, 1
  {
    match handler
    case Pointer(_, _) => PbaseCatch(upcasts, handler, thrown, outer)
    case Class(name) => handler == thrown || (outer < 4 && thrown.Class? && upcasts(thrown.name, name))
    case _ => handler == thrown
  }

  function PbaseCatch(upcasts: Upcasts, handler: TypeInfo, thrown: TypeInfo, outer: nat): bool
    requires handler.Pointer?
    decreases handler, 0
  {
    if handler == thrown then true
    else if thrown.NullptrT? then true
    else if !thrown.Pointer? then false
    else if outer % 2 == 0 then false
    else
      var fqualMask := TRANSACTION_SAFE_MASK | NOEXCEPT_MASK;
      var throwFqual := thrown.flags & fqualMask;
      var catchFqual := handler.flags & fqualMask;
      var tflags := if throwFqual & !catchFqual != 0 then thrown.flags & catchFqual else thrown.flags;
      if catchFqual & !throwFqual != 0 then false
      else if tflags & !handler.flags != 0 then false
      else
        var outer' := if handler.flags & CONST_MASK == 0 then outer - 1 else outer;
        if outer' < 2 && handler.pointee.Void? then !thrown.pointee.Function?
        else DoCatch(upcasts, handler.pointee, thrown.pointee, outer' + 2)
  }

  // ---------- The conversions of the standard ----------

  // The flags of a pointer type are const, volatile and restrict, or those of the function it points to.
  predicate WellFormed(t: TypeInfo) {
    t.Pointer? ==>
      && (if t.pointee.Function? then t.flags in {0, 0x20, 0x40, 0x60} else t.flags <= 7)
      && WellFormed(t.pointee)
  }

  function Quals(t: TypeInfo): seq<Flags> {
    if t.Pointer? then [t.flags] + Quals(t.pointee) else []
  }

  function Target(t: TypeInfo): TypeInfo {
    if t.Pointer? then Target(t.pointee) else t
  }

  // Every qualifier of the first is one of the second; and the second promises no more of a function
  // than the first.
  predicate Includes(from: Flags, target: Flags) {
    && (from & CONST_MASK != 0 ==> target & CONST_MASK != 0)
    && (from & VOLATILE_MASK != 0 ==> target & VOLATILE_MASK != 0)
    && (from & RESTRICT_MASK != 0 ==> target & RESTRICT_MASK != 0)
    && SamePromises(from, from | target)
  }

  // What is promised of a function: that it does not throw, and that it is safe in transactions.
  predicate SamePromises(f: Flags, g: Flags) {
    && (f & NOEXCEPT_MASK != 0 <==> g & NOEXCEPT_MASK != 0)
    && (f & TRANSACTION_SAFE_MASK != 0 <==> g & TRANSACTION_SAFE_MASK != 0)
  }

  predicate IsConst(q: Flags) { q & CONST_MASK != 0 }

  // A qualification conversion between similar types (section 4.4 paragraph 4 of ISO C++14): no
  // level loses a qualifier, and where a level differs, every level outside it is const.
  predicate QualificationConversion(from: seq<Flags>, target: seq<Flags>) {
    && |from| == |target|
    && (forall j :: 0 <= j < |target| ==> Includes(from[j], target[j]))
    && (forall j, k :: 0 <= k < j < |target| && from[j] != target[j] ==> IsConst(target[k]))
  }

  // A conversion to a pointer to cv void (section 4.10 paragraph 2).
  predicate VoidConversion(from: TypeInfo, target: TypeInfo) {
    && from.Pointer? && target.Pointer? && target.pointee.Void?
    && !from.pointee.Function?
    && Includes(from.flags, target.flags)
  }

  // A conversion to a pointer to an unambiguous public base class (section 4.10 paragraph 3).
  predicate BaseConversion(upcasts: Upcasts, from: TypeInfo, target: TypeInfo) {
    && from.Pointer? && target.Pointer? && from.pointee.Class? && target.pointee.Class?
    && upcasts(from.pointee.name, target.pointee.name)
    && Includes(from.flags, target.flags)
  }

  // What a handler of pointer type may catch (section 15.3 paragraph 3 of ISO C++14). Promises of a
  // function may be dropped on the outermost level only (section 7.13 of ISO C++17).
  predicate Convertible(upcasts: Upcasts, from: TypeInfo, target: TypeInfo) {
    || (from.NullptrT? && target.Pointer?)
    || (from.Pointer? && target.Pointer? && Qualified(from, target) && !FunctionInside(from, target))
    || VoidConversion(from, target)
    || BaseConversion(upcasts, from, target)
  }

  // The two types differ in their qualifiers only, and as a qualification conversion allows.
  predicate Qualified(thrown: TypeInfo, handler: TypeInfo) {
    Target(thrown) == Target(handler) && QualificationConversion(Quals(thrown), Quals(handler))
  }

  // ---------- Where the matcher goes further than the standard ----------

  // On some level below the outermost one, the two types promise different things of a function.
  predicate FunctionInside(from: TypeInfo, target: TypeInfo) {
    var f, t := Quals(from), Quals(target);
    exists j :: 0 < j < |f| && j < |t| && !SamePromises(f[j], t[j])
  }

  // The thrown type is a pointer to std::nullptr_t, of some depth, and the handler has a pointer
  // at that depth where nullptr_t has none.
  predicate NullptrInside(from: TypeInfo, target: TypeInfo) {
    var f, t := Quals(from), Quals(target);
    && from.Pointer? && Target(from).NullptrT? && |f| < |t|
    && (forall j :: 0 <= j < |f| ==> Includes(f[j], t[j]))
    && (forall k :: 0 <= k < |f| - 1 ==> IsConst(t[k]))
  }

  // The matcher's test of the flags of one level.
  predicate LevelTest(from: Flags, target: Flags) {
    var fqualMask := TRANSACTION_SAFE_MASK | NOEXCEPT_MASK;
    var throwFqual, catchFqual := from & fqualMask, target & fqualMask;
    var tflags := if throwFqual & !catchFqual != 0 then from & catchFqual else from;
    catchFqual & !throwFqual == 0 && tflags & !target == 0
  }

  predicate LevelFlags(f: Flags) { f <= 7 || f in {0x20, 0x40, 0x60} }

  lemma IncludesIsMask(from: Flags, target: Flags)
    requires LevelFlags(from) && LevelFlags(target)
    ensures Includes(from, target) <==> LevelTest(from, target)
  {
  }

  // One level of the matcher below the outermost pointer.
  ghost predicate Matches(upcasts: Upcasts, handler: TypeInfo, thrown: TypeInfo, outer: nat) {
    || handler == thrown
    || (outer < 4 && handler.Class? && thrown.Class? && upcasts(thrown.name, handler.name))
    || (handler.Pointer? && thrown.NullptrT?)
    || (outer % 2 == 1 && MatchesPointers(handler, thrown))
  }

  ghost predicate MatchesPointers(handler: TypeInfo, thrown: TypeInfo) {
    handler.Pointer? && thrown.Pointer? && (NullptrInside(thrown, handler) || Qualified(thrown, handler))
  }

  // What one pointer level asks for.
  lemma PointerLevel(upcasts: Upcasts, handler: TypeInfo, thrown: TypeInfo, outer: nat)
    requires WellFormed(handler) && WellFormed(thrown) && handler.Pointer? && thrown.Pointer?
    ensures DoCatch(upcasts, handler, thrown, outer) <==>
      || handler == thrown
      || (&& outer % 2 == 1
          && Includes(thrown.flags, handler.flags)
          && Pointees(upcasts, handler, thrown, if IsConst(handler.flags) then outer else outer - 1))
  {
    IncludesIsMask(thrown.flags, handler.flags);
  }

  ghost predicate Pointees(upcasts: Upcasts, handler: TypeInfo, thrown: TypeInfo, outer: nat)
    requires handler.Pointer? && thrown.Pointer?
  {
    if outer < 2 && handler.pointee.Void? then !thrown.pointee.Function?
    else DoCatch(upcasts, handler.pointee, thrown.pointee, outer + 2)
  }

  lemma {:induction false} InnerLevels(upcasts: Upcasts, handler: TypeInfo, thrown: TypeInfo, outer: nat)
    requires WellFormed(handler) && WellFormed(thrown) && outer >= 2
    ensures DoCatch(upcasts, handler, thrown, outer) <==> Matches(upcasts, handler, thrown, outer)
    decreases handler
  {
    if handler.Pointer? && thrown.Pointer? {
      var outer' := if IsConst(handler.flags) then outer else outer - 1;
      if outer % 2 == 1 {
        InnerLevels(upcasts, handler.pointee, thrown.pointee, outer' + 2);
      }
      OneLevel(upcasts, handler, thrown, outer, outer');
    }
  }

  lemma OneLevel(upcasts: Upcasts, handler: TypeInfo, thrown: TypeInfo, outer: nat, outer': nat)
    requires WellFormed(handler) && WellFormed(thrown) && outer >= 2
    requires handler.Pointer? && thrown.Pointer? && outer' == if IsConst(handler.flags) then outer else outer - 1
    requires outer % 2 == 1 ==>
      (DoCatch(upcasts, handler.pointee, thrown.pointee, outer' + 2) <==>
        Matches(upcasts, handler.pointee, thrown.pointee, outer' + 2))
    ensures DoCatch(upcasts, handler, thrown, outer) <==> Matches(upcasts, handler, thrown, outer)
  {
    PointerLevel(upcasts, handler, thrown, outer);
    if outer % 2 == 1 {
      assert outer' + 2 >= 4 && ((outer' + 2) % 2 == 1 <==> IsConst(handler.flags));
      PeelMatch(handler, thrown);
    }
  }

  lemma PeelMatch(handler: TypeInfo, thrown: TypeInfo)
    requires handler.Pointer? && thrown.Pointer?
    ensures MatchesPointers(handler, thrown) <==>
      && Includes(thrown.flags, handler.flags)
      && (|| handler.pointee == thrown.pointee
          || (thrown.pointee.NullptrT? && handler.pointee.Pointer?)
          || (IsConst(handler.flags) && MatchesPointers(handler.pointee, thrown.pointee)))
    ensures handler == thrown ==> MatchesPointers(handler, thrown)
  {
    PeelNullptr(thrown, handler);
    PeelQualified(thrown, handler);
  }

  lemma PeelQualified(thrown: TypeInfo, handler: TypeInfo)
    requires thrown.Pointer? && handler.Pointer?
    ensures Qualified(thrown, handler) <==>
      && Includes(thrown.flags, handler.flags)
      && (|| handler.pointee == thrown.pointee
          || (IsConst(handler.flags) && handler.pointee.Pointer? && thrown.pointee.Pointer?
              && Qualified(thrown.pointee, handler.pointee)))
  {
    PeelQuals(Quals(thrown), Quals(handler));
    SameQuals(thrown.pointee, handler.pointee);
    assert Quals(thrown)[1..] == Quals(thrown.pointee) && Quals(handler)[1..] == Quals(handler.pointee);
    assert Quals(thrown)[0] == thrown.flags && Quals(handler)[0] == handler.flags;
  }

  lemma {:induction false} SameQuals(s: TypeInfo, t: TypeInfo)
    ensures s == t <==> Quals(s) == Quals(t) && Target(s) == Target(t)
  {
    if s.Pointer? && t.Pointer? {
      SameQuals(s.pointee, t.pointee);
      assert Quals(s)[1..] == Quals(s.pointee) && Quals(t)[1..] == Quals(t.pointee);
      assert Quals(s)[0] == s.flags && Quals(t)[0] == t.flags;
    }
  }

  // A qualification conversion, told level by level.
  lemma PeelQuals(f: seq<Flags>, t: seq<Flags>)
    requires |f| > 0 && |t| > 0
    ensures QualificationConversion(f, t) <==>
      Includes(f[0], t[0]) && QualificationConversion(f[1..], t[1..]) && (IsConst(t[0]) || f[1..] == t[1..])
  {
    var f', t' := f[1..], t[1..];
    if QualificationConversion(f, t) {
      forall j | 0 <= j < |t'| ensures Includes(f'[j], t'[j]) {
        assert f'[j] == f[j + 1] && t'[j] == t[j + 1];
      }
      forall j, k | 0 <= k < j < |t'| && f'[j] != t'[j] ensures IsConst(t'[k]) {
        assert f[j + 1] != t[j + 1];
      }
      if !IsConst(t[0]) {
        forall j | 0 <= j < |t'| ensures f'[j] == t'[j] {
          assert f[j + 1] == t[j + 1];
        }
      }
    } else if Includes(f[0], t[0]) && QualificationConversion(f', t') && (IsConst(t[0]) || f' == t') {
      forall j | 0 <= j < |t| ensures Includes(f[j], t[j]) {
        assert j > 0 ==> Includes(f'[j - 1], t'[j - 1]);
      }
      forall j, k | 0 <= k < j < |t| && f[j] != t[j] ensures IsConst(t[k]) {
        assert f'[j - 1] != t'[j - 1];
        assert k > 0 ==> IsConst(t'[k - 1]);
      }
    }
  }

  lemma PeelNullptr(thrown: TypeInfo, handler: TypeInfo)
    requires thrown.Pointer? && handler.Pointer?
    ensures NullptrInside(thrown, handler) <==>
      && Includes(thrown.flags, handler.flags)
      && (|| (thrown.pointee.NullptrT? && handler.pointee.Pointer?)
          || (IsConst(handler.flags) && NullptrInside(thrown.pointee, handler.pointee)))
  {
    var f, t, f', t' := Quals(thrown), Quals(handler), Quals(thrown.pointee), Quals(handler.pointee);
    assert f[0] == thrown.flags && t[0] == handler.flags && f[1..] == f' && t[1..] == t';
    if NullptrInside(thrown, handler) {
      forall j | 0 <= j < |f'| ensures Includes(f'[j], t'[j]) {
        assert Includes(f[j + 1], t[j + 1]);
      }
      forall k | 0 <= k < |f'| - 1 ensures IsConst(t'[k]) {
        assert IsConst(t[k + 1]);
      }
      if !thrown.pointee.Pointer? {
        assert Target(thrown.pointee) == thrown.pointee && |t'| > 0;
      } else {
        assert IsConst(t[0]) && NullptrInside(thrown.pointee, handler.pointee);
      }
    } else if thrown.pointee.NullptrT? && handler.pointee.Pointer? && Includes(thrown.flags, handler.flags) {
      assert |f| == 1 && |t'| > 0 && Target(thrown).NullptrT?;
    } else if IsConst(handler.flags) && NullptrInside(thrown.pointee, handler.pointee)
      && Includes(thrown.flags, handler.flags) {
      forall j | 0 <= j < |f| ensures Includes(f[j], t[j]) {
        assert j > 0 ==> Includes(f'[j - 1], t'[j - 1]);
      }
      forall k | 0 <= k < |f| - 1 ensures IsConst(t[k]) {
        assert k > 0 ==> IsConst(t'[k - 1]);
      }
    }
  }

  // ---------- What a handler catches ----------

  // A handler of pointer type, matched from the outside in, catches what the standard lets it
  // catch, and besides that some pointers to nullptr_t, and some to pointers to functions.
  lemma CatchesPointers(upcasts: Upcasts, handler: TypeInfo, thrown: TypeInfo)
    requires handler.Pointer? && WellFormed(handler) && WellFormed(thrown)
    ensures DoCatch(upcasts, handler, thrown, 1) <==>
            || Convertible(upcasts, thrown, handler) || NullptrInside(thrown, handler)
            || (thrown.Pointer? && Qualified(thrown, handler) && FunctionInside(thrown, handler))
  {
    if thrown.Pointer? {
      var outer := if IsConst(handler.flags) then 1 else 0;
      PointerLevel(upcasts, handler, thrown, 1);
      InnerLevels(upcasts, handler.pointee, thrown.pointee, outer + 2);
      PeelNullptr(thrown, handler);
      PeelQualified(thrown, handler);
    }
  }

  // The matcher agrees with the standard exactly where no pointer to nullptr_t meets a deeper handler,
  // and no promise of a function is dropped below the outermost level.
  lemma StandardIff(upcasts: Upcasts, handler: TypeInfo, thrown: TypeInfo)
    requires handler.Pointer? && WellFormed(handler) && WellFormed(thrown)
    ensures (DoCatch(upcasts, handler, thrown, 1) <==> Convertible(upcasts, thrown, handler)) <==>
            !NullptrInside(thrown, handler)
              && !(thrown.Pointer? && Qualified(thrown, handler) && FunctionInside(thrown, handler))
  {
    CatchesPointers(upcasts, handler, thrown);
    assert handler.pointee.Void? ==> |Quals(handler)| == 1;
    assert thrown.Pointer? && thrown.pointee.Class? ==> Target(thrown) == thrown.pointee && |Quals(thrown)| == 1;
  }

  // A handler for int** catches a thrown nullptr_t*, which does not convert to it.
  lemma NullptrPointerCaught(upcasts: Upcasts)
    ensures
      var handler, thrown := Pointer(0, Pointer(0, Plain(1))), Pointer(0, NullptrT);
      DoCatch(upcasts, handler, thrown, 1) && !Convertible(upcasts, thrown, handler)
  {
    var handler, thrown := Pointer(0, Pointer(0, Plain(1))), Pointer(0, NullptrT);
    assert Quals(thrown) == [0] && Quals(handler) == [0, 0];
    StandardIff(upcasts, handler, thrown);
  }

  // A handler for a pointer to const pointers to functions catches a pointer to pointers to functions
  // that do not throw; to such a function itself, a plain pointer may point.
  lemma NoexceptInsideCaught(upcasts: Upcasts)
    ensures
      var f, g := Pointer(0, Function(1)), Pointer(0x40, Function(1));
      && DoCatch(upcasts, f, g, 1) && Convertible(upcasts, g, f) && !DoCatch(upcasts, g, f, 1)
      && DoCatch(upcasts, Pointer(1, f), Pointer(0, g), 1) && !Convertible(upcasts, Pointer(0, g), Pointer(1, f))
  {
    var f, g := Pointer(0, Function(1)), Pointer(0x40, Function(1));
    assert Quals(f) == [0] && Quals(g) == [0x40];
    assert Quals(Pointer(1, f)) == [1, 0] && Quals(Pointer(0, g)) == [0, 0x40];
    CatchesPointers(upcasts, f, g);
    CatchesPointers(upcasts, g, f);
    assert !SamePromises([0, 0x40][1], [1, 0][1]);
    StandardIff(upcasts, Pointer(1, f), Pointer(0, g));
  }

  lemma QualificationIsPreorder(f: seq<Flags>, g: seq<Flags>, h: seq<Flags>)
    ensures QualificationConversion(f, f)
    ensures QualificationConversion(f, g) && QualificationConversion(g, h) ==> QualificationConversion(f, h)
  {
    if QualificationConversion(f, g) && QualificationConversion(g, h) {
      forall j | 0 <= j < |h| ensures Includes(f[j], h[j]) {
        assert Includes(f[j], g[j]) && Includes(g[j], h[j]);
      }
      forall j, k | 0 <= k < j < |h| && f[j] != h[j] ensures IsConst(h[k]) {
        assert f[j] != g[j] || g[j] != h[j];
        assert Includes(g[k], h[k]);
      }
    }
  }

  // Matching pointers with the same ultimate target is a preorder, at any depth.
  lemma CatchIsPreorder(upcasts: Upcasts, s: TypeInfo, t: TypeInfo, u: TypeInfo)
    requires s.Pointer? && t.Pointer? && u.Pointer? && WellFormed(s) && WellFormed(t) && WellFormed(u)
    requires Target(s) == Target(t) == Target(u) && Target(s).Plain?
    ensures DoCatch(upcasts, s, s, 1)
    ensures DoCatch(upcasts, t, s, 1) && DoCatch(upcasts, u, t, 1) ==> DoCatch(upcasts, u, s, 1)
  {
    CatchesPointers(upcasts, t, s);
    CatchesPointers(upcasts, u, t);
    CatchesPointers(upcasts, u, s);
    QualificationIsPreorder(Quals(s), Quals(t), Quals(u));
    forall v | v in {s, t, u} ensures !v.pointee.Void? && !v.pointee.Class? {
      assert Target(v) == Target(v.pointee);
    }
  }
}
