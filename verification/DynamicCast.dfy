// dynamic_cast, and the rule of ISO C++14 section 5.2.7 paragraph 8 that it implements.
module DynamicCast {
  import opened ClassTypes
  import opened Subobjects
  import opened FindPublicSrc
  import opened DyncastSearch

  // ---------- The rule ----------

  // The first case of paragraph 8: d is the one object of class dst derived from the source, and
  // the source is a public base class subobject of it.
  ghost predicate IsDowncast(query: Query, whole: ClassType, wholePtr: int, d: int) {
    && d in Places(query.vb, false, whole, wholePtr, query.dst)
    && query.srcPtr in Places(query.vb, true, query.dst, d, query.src)
    && forall e :: e in Places(query.vb, false, whole, wholePtr, query.dst) && InDst(query, e) ==> e == d
  }

  // The second case: the source is a public base class subobject of the most derived object, which
  // has an unambiguous and public base of class dst, at d.
  ghost predicate IsCrosscast(query: Query, whole: ClassType, wholePtr: int, d: int) {
    && query.srcPtr in Places(query.vb, true, whole, wholePtr, query.src)
    && whole != query.dst
    && Places(query.vb, false, whole, wholePtr, query.dst) == {d}
    && d in Places(query.vb, true, whole, wholePtr, query.dst)
  }

  ghost predicate Prescribed(query: Query, whole: ClassType, wholePtr: int, r: int) {
    if exists d :: IsDowncast(query, whole, wholePtr, d) then IsDowncast(query, whole, wholePtr, r)
    else if exists d :: IsCrosscast(query, whole, wholePtr, d) then IsCrosscast(query, whole, wholePtr, r)
    else r == NULL
  }

  // The hint says the truth about the public bases of dst.
  ghost predicate ValidHint(query: Query) {
    && (query.hint >= 0 ==> forall p :: Places(query.vb, true, query.dst, p, query.src) == {p + query.hint})
    && (query.hint == -2 ==> forall p :: Places(query.vb, true, query.dst, p, query.src) == {})
    && (query.hint == -3 ==> SrcNeverVirtual(query, query.dst))
  }

  // A source subobject of a complete object without virtual bases, asked for a class that is
  // neither its own nor one of its bases.
  ghost predicate CastSetting(query: Query, whole: ClassType, wholePtr: int) {
    && NoVirtual(whole) && NoVirtual(query.dst)
    && Distinct(query.vb, whole, wholePtr) && FlagsSound(query.vb, whole, wholePtr)
    && query.srcPtr in Places(query.vb, false, whole, wholePtr, query.src)
    && query.dst != query.src
    && (forall q :: Places(query.vb, false, query.src, q, query.dst) == {})
    && ValidHint(query)
    && NULL !in Places(query.vb, false, whole, wholePtr, query.dst)
    && OffsetsBelow(query)
  }

  // A source subobject of a complete object that may have virtual bases, but only public ones and
  // none that is repeated.
  ghost predicate OpenSetting(query: Query, whole: ClassType, wholePtr: int) {
    && AllPublic(whole) && NoRepeats(query.vb, whole, wholePtr) && FlagsSound(query.vb, whole, wholePtr)
    && query.srcPtr in Places(query.vb, false, whole, wholePtr, query.src)
    && query.dst != query.src
    && (forall q :: Places(query.vb, false, query.src, q, query.dst) == {})
    && ValidHint(query)
    && NULL !in Places(query.vb, false, whole, wholePtr, query.dst)
  }

  // Addresses are above every offset: nothing in a dst object at NULL would lie at the source.
  ghost predicate OffsetsBelow(query: Query) {
    forall x :: query.srcPtr !in Places(query.vb, false, query.dst, NULL, x)
  }

  ghost predicate NoDecoys(query: Query, whole: ClassType, wholePtr: int) {
    forall d :: d in Places(query.vb, false, whole, wholePtr, query.dst) ==> !Misleads(query, d)
  }

  ghost predicate OneTarget(query: Query, whole: ClassType, wholePtr: int) {
    AtMostOne(Places(query.vb, false, whole, wholePtr, query.dst))
  }

  // The source lies non-publicly in a target that misleads.
  ghost predicate Misled(query: Query, whole: ClassType, wholePtr: int) {
    exists d :: d in Places(query.vb, false, whole, wholePtr, query.dst) && InDst(query, d) && Misleads(query, d)
  }

  // The search never compares targets of which one misleads: there is a hint that answers, or one
  // target, or none that misleads, or the source turns up outside the targets in time.
  ghost predicate FairSearch(query: Query, whole: ClassType, wholePtr: int) {
    HintAnswers(query) || Guarded(query, whole, wholePtr)
  }

  // The answer is the prescribed one, except exactly when the one target there is misleads about a
  // source inside it; then that target is the answer.
  method DynamicCast(query: Query, whole: ClassType, wholePtr: int, wholeAtWhole: ClassType) returns (r: int)
    requires OpenSetting(query, whole, wholePtr) ||
             (CastSetting(query, whole, wholePtr) && FairSearch(query, whole, wholePtr))
    ensures wholeAtWhole != whole ==> r == NULL
    ensures wholeAtWhole == whole ==> (Prescribed(query, whole, wholePtr, r) <==> !Misled(query, whole, wholePtr))
    ensures wholeAtWhole == whole && Misled(query, whole, wholePtr) ==>
        Places(query.vb, false, whole, wholePtr, query.dst) == {r}
  {
    if wholeAtWhole != whole {
      // The object is still under construction.
      return NULL;
    }
    ghost var kind := if OpenSetting(query, whole, wholePtr) then OnlyPublicBases else NoVirtualBases;
    GetEitherReady(query, kind, whole, wholePtr);
    var result := new DyncastResult(FLAGS_UNKNOWN_MASK);
    var ambig := DoDyncast(query, kind, CONTAINED_PUBLIC, whole, wholePtr, result);
    DecideEither(query, kind, whole, wholePtr, result.View(), ambig);
    if result.dstPtr == NULL {
      return NULL;
    }
    if ContainedPublic(result.dst2src) {
      // A down cast that the search has settled.
      return result.dstPtr;
    }
    if ContainedPublic(result.whole2src & result.whole2dst) {
      // A cross cast: source and target are both public in the whole.
      return result.dstPtr;
    }
    if ContainedNonvirtual(result.whole2src) {
      return NULL;
    }
    if result.dst2src == UNKNOWN {
      result.dst2src := FindSrc(query, result.dstPtr);
    }
    if ContainedPublic(result.dst2src) {
      // A down cast that only the helper could settle.
      return result.dstPtr;
    }
    return NULL;
  }

  // What the final decisions make of a finding.
  ghost function Decision(query: Query, v: Finding): int {
    if v.dstPtr == NULL then NULL
    else if ContainedPublic(v.dst2src) then v.dstPtr
    else if ContainedPublic(v.whole2src & v.whole2dst) then v.dstPtr
    else if ContainedNonvirtual(v.whole2src) then NULL
    else if v.dst2src == UNKNOWN && FindsSrc(query, v.dstPtr) then v.dstPtr
    else NULL
  }

  ghost predicate SettingOfKind(query: Query, kind: Kind, whole: ClassType, wholePtr: int) {
    match kind
    case NoVirtualBases =>
      CastSetting(query, whole, wholePtr) && FairSearch(query, whole, wholePtr)
    case OnlyPublicBases => OpenSetting(query, whole, wholePtr)
  }

  lemma GetEitherReady(query: Query, kind: Kind, whole: ClassType, wholePtr: int)
    requires SettingOfKind(query, kind, whole, wholePtr)
    ensures Searchable(query, kind, whole, wholePtr, CONTAINED_PUBLIC)
  {
    match kind
    case NoVirtualBases => GetReady(query, whole, wholePtr);
    case OnlyPublicBases => GetOpenReady(query, whole, wholePtr);
  }

  // A hint that answers does so rightly.
  lemma HintIsRight(query: Query, d: int)
    requires ValidHint(query) && HintAnswers(query)
    ensures FindsRight(query, d)
  {
    if query.hint >= 0 {
      assert Places(query.vb, true, query.dst, d, query.src) == {d + query.hint};
    } else {
      assert Places(query.vb, true, query.dst, d, query.src) == {};
    }
  }

  lemma GetOpenReady(query: Query, whole: ClassType, wholePtr: int)
    requires OpenSetting(query, whole, wholePtr)
    ensures OpenReady(query, whole, wholePtr)
    ensures forall d :: Holds(query, d) ==> FindsSrc(query, d)
  {
    forall d ensures Holds(query, d) ==> FindsSrc(query, d) {
      if HintAnswers(query) {
        HintIsRight(query, d);
      } else if query.hint == -3 {
        FindsOutsideVirtual(query, query.dst, d);
      } else {
        FindsExactly(query, query.dst, d);
      }
    }
    forall d | HintAnswers(query) ensures FindsRight(query, d) {
      HintIsRight(query, d);
    }
  }

  lemma DecideEither(query: Query, kind: Kind, whole: ClassType, wholePtr: int, v: Finding, ambig: bool)
    requires SettingOfKind(query, kind, whole, wholePtr)
    requires Found(query, kind, SkipsPrivate(query, EffectiveDetails(whole, FLAGS_UNKNOWN_MASK)), whole, wholePtr,
                   CONTAINED_PUBLIC, v, ambig)
    ensures Prescribed(query, whole, wholePtr, Decision(query, v)) <==> !Misled(query, whole, wholePtr)
    ensures Misled(query, whole, wholePtr) ==>
        Places(query.vb, false, whole, wholePtr, query.dst) == {Decision(query, v)}
  {
    match kind
    case NoVirtualBases =>
      Decide(query, SkipsPrivate(query, EffectiveDetails(whole, FLAGS_UNKNOWN_MASK)), whole, wholePtr, v, ambig);
    case OnlyPublicBases =>
      GetOpenReady(query, whole, wholePtr);
      OpenDecide(query, whole, wholePtr, v, ambig);
      NeverMisled(query, whole, wholePtr);
  }

  // With only public bases and nothing repeated, the answer is the one target there is.
  lemma OpenDecide(query: Query, whole: ClassType, wholePtr: int, v: Finding, ambig: bool)
    requires OpenReady(query, whole, wholePtr) && OpenOutcome(query, whole, wholePtr, v, ambig)
    requires query.srcPtr in Places(query.vb, false, whole, wholePtr, query.src)
    requires forall d :: Holds(query, d) ==> FindsSrc(query, d)
    ensures Prescribed(query, whole, wholePtr, Decision(query, v))
  {
    AllPublicPlaces(query.vb, whole, wholePtr, query.src);
    AllPublicPlaces(query.vb, whole, wholePtr, query.dst);
    if v.dstPtr != NULL {
      var d := v.dstPtr;
      OpenStop(query, whole, wholePtr, d);
      OnlyItself(query.vb, false, whole, wholePtr);
      PublicInside(query.vb, whole, wholePtr, query.dst, d);
      AllPublicPlaces(query.vb, query.dst, d, query.src);
      assert Holds(query, d) <==> InDst(query, d);
      assert Decision(query, v) == d;
      if InDst(query, d) {
        assert IsDowncast(query, whole, wholePtr, d);
      } else {
        assert whole != query.dst;
        assert IsCrosscast(query, whole, wholePtr, d);
      }
    }
  }

  lemma NeverMisled(query: Query, whole: ClassType, wholePtr: int)
    requires AllPublic(whole)
    ensures !Misled(query, whole, wholePtr)
  {
    forall d | d in Places(query.vb, false, whole, wholePtr, query.dst) && InDst(query, d) ensures Holds(query, d) {
      PublicInside(query.vb, whole, wholePtr, query.dst, d);
      AllPublicPlaces(query.vb, query.dst, d, query.src);
    }
  }

  lemma PublicInside(vb: VirtualBases, c: ClassType, p: int, x: ClassType, q: int)
    requires AllPublic(c) && q in Places(vb, false, c, p, x)
    ensures AllPublic(x)
    decreases c
  {
    if c != x {
      match c
      case SiClass(_, base) => PublicInside(vb, base, p, x, q);
      case VmiClass(_, _, bases) =>
        var i := ChooseBase(vb, false, c, p, x, q);
        PublicInside(vb, bases[i].cls, ConvertToBase(vb, p, bases[i]), x, q);
    }
  }

  // The helper is right about a target exactly if that target does not mislead.
  lemma RightIffNotMisled(query: Query, d: int)
    requires NoVirtual(query.dst) && ValidHint(query)
    ensures FindsRight(query, d) <==> !Misleads(query, d)
  {
    if HintAnswers(query) {
      HintIsRight(query, d);
    } else {
      FindsExactly(query, query.dst, d);
    }
  }

  lemma GetReady(query: Query, whole: ClassType, wholePtr: int)
    requires CastSetting(query, whole, wholePtr) && FairSearch(query, whole, wholePtr)
    ensures Ready(query, whole, wholePtr)
  {
    forall d ensures FindsRight(query, d) <==> !Misleads(query, d) {
      RightIffNotMisled(query, d);
    }
    PlacesMonotone(query.vb, query.dst, NULL, query.src);
    if Decoy(query, query.dst, NULL) {
      var x := DecoyIsThere(query, query.dst, NULL);
      PlacesMonotone(query.vb, query.dst, NULL, x);
    }
  }

  lemma DecoyIsThere(query: Query, c: ClassType, p: int) returns (x: ClassType)
    requires Decoy(query, c, p)
    ensures query.srcPtr in Places(query.vb, true, c, p, x)
    decreases c
  {
    match c
    case Class(_) => x := c;
    case SiClass(_, base) => x := DecoyIsThere(query, base, p);
    case VmiClass(_, _, bases) =>
      var i: nat :| i < |bases| && DecoyInBase(query, p, bases[i]);
      x := DecoyIsThere(query, bases[i].cls, ConvertToBase(query.vb, p, bases[i]));
      assert query.srcPtr in PlacesInBase(query.vb, true, p, bases[i], x);
  }

  lemma Decide(query: Query, skip: bool, whole: ClassType, wholePtr: int, v: Finding, ambig: bool)
    requires CastSetting(query, whole, wholePtr) && FairSearch(query, whole, wholePtr)
    requires skip == SkipsPrivate(query, EffectiveDetails(whole, FLAGS_UNKNOWN_MASK))
    requires Outcome(query, skip, whole, wholePtr, CONTAINED_PUBLIC, v, ambig)
    ensures Prescribed(query, whole, wholePtr, Decision(query, v)) <==> !Misled(query, whole, wholePtr)
    ensures Misled(query, whole, wholePtr) ==>
        Places(query.vb, false, whole, wholePtr, query.dst) == {Decision(query, v)}
  {
    if HitTarget(query, Places(query.vb, skip, whole, wholePtr, query.dst), v, ambig) {
      FoundDowncast(query, skip, whole, wholePtr, v.dstPtr);
    } else if HitPrivateSrc(query, whole, wholePtr, CONTAINED_PUBLIC, v) {
      NoDowncast(query, whole, wholePtr);
    } else if SawSrc(query, whole, wholePtr, CONTAINED_PUBLIC, v.whole2src) {
      NoDowncast(query, whole, wholePtr);
      DecideCrosscast(query, skip, whole, wholePtr, v, ambig);
    } else if NoDecoys(query, whole, wholePtr) {
      DecideMissed(query, skip, whole, wholePtr, v, ambig);
    } else {
      SourceInside(query, whole, wholePtr);
      DecideMisled(query, whole, wholePtr, v, ambig);
    }
  }

  lemma FoundDowncast(query: Query, skip: bool, whole: ClassType, wholePtr: int, d: int)
    requires Distinct(query.vb, whole, wholePtr)
    requires d in Places(query.vb, skip, whole, wholePtr, query.dst)
    requires Holds(query, d)
    ensures IsDowncast(query, whole, wholePtr, d)
  {
    PlacesMonotone(query.vb, whole, wholePtr, query.dst);
    PlacesMonotone(query.vb, query.dst, d, query.src);
    forall e | e in Places(query.vb, false, whole, wholePtr, query.dst) && InDst(query, e) ensures e == d {
      OneHolder(query.vb, whole, wholePtr, query.dst, d, e, query.src, query.srcPtr);
    }
  }

  lemma NoDowncast(query: Query, whole: ClassType, wholePtr: int)
    requires SrcFree(query, whole, wholePtr)
    ensures forall d :: !IsDowncast(query, whole, wholePtr, d)
  {
    forall d ensures !IsDowncast(query, whole, wholePtr, d) {
      PlacesMonotone(query.vb, query.dst, d, query.src);
    }
  }

  // A cross cast can only lead to a target the search has seen.
  lemma CrosscastSeen(query: Query, skip: bool, whole: ClassType, wholePtr: int, d: int)
    requires IsCrosscast(query, whole, wholePtr, d)
    ensures Places(query.vb, skip, whole, wholePtr, query.dst) == {d}
  {
    PlacesMonotone(query.vb, whole, wholePtr, query.dst);
  }

  lemma DecideCrosscast(query: Query, skip: bool, whole: ClassType, wholePtr: int, v: Finding, ambig: bool)
    requires CastSetting(query, whole, wholePtr)
    requires skip == SkipsPrivate(query, EffectiveDetails(whole, FLAGS_UNKNOWN_MASK))
    requires Tally(query, whole, wholePtr, CONTAINED_PUBLIC, Places(query.vb, skip, whole, wholePtr, query.dst), v,
                   ambig)
    requires SawSrc(query, whole, wholePtr, CONTAINED_PUBLIC, v.whole2src)
    ensures
      if exists d :: IsCrosscast(query, whole, wholePtr, d) then IsCrosscast(query, whole, wholePtr, Decision(query, v))
      else Decision(query, v) == NULL
  {
    if d :| IsCrosscast(query, whole, wholePtr, d) {
      CrosscastSeen(query, skip, whole, wholePtr, d);
    } else if v.dstPtr != NULL && v.whole2dst == CONTAINED_PUBLIC {
      PlacesMonotone(query.vb, whole, wholePtr, query.dst);
      if skip {
        FirstFlagsSound(query.vb, whole, wholePtr);
      }
      assert whole != query.dst;
      assert Places(query.vb, false, whole, wholePtr, query.dst) == {v.dstPtr};
      assert IsCrosscast(query, whole, wholePtr, v.dstPtr);
    }
  }

  lemma DecideMissed(query: Query, skip: bool, whole: ClassType, wholePtr: int, v: Finding, ambig: bool)
    requires CastSetting(query, whole, wholePtr) && NoDecoys(query, whole, wholePtr)
    requires skip == SkipsPrivate(query, EffectiveDetails(whole, FLAGS_UNKNOWN_MASK))
    requires Tally(query, whole, wholePtr, CONTAINED_PUBLIC, Places(query.vb, skip, whole, wholePtr, query.dst), v,
                   ambig)
    requires MissedSrc(query, skip, whole, wholePtr, v.whole2src)
    ensures Prescribed(query, whole, wholePtr, Decision(query, v))
  {
    PlacesMonotone(query.vb, whole, wholePtr, query.dst);
    forall d | d in Places(query.vb, false, whole, wholePtr, query.dst) ensures FindsRight(query, d) {
      RightIffNotMisled(query, d);
    }
    if v.dstPtr != NULL && Holds(query, v.dstPtr) {
      FoundDowncast(query, skip, whole, wholePtr, v.dstPtr);
    } else {
      assert Decision(query, v) == NULL;
      forall d ensures !IsDowncast(query, whole, wholePtr, d) {
        assert d in Places(query.vb, false, whole, wholePtr, query.dst) ==> FindsRight(query, d);
      }
      forall d ensures !IsCrosscast(query, whole, wholePtr, d) {
        assert d in Places(query.vb, false, whole, wholePtr, query.dst) ==> FindsRight(query, d);
        if IsCrosscast(query, whole, wholePtr, d) {
          CrosscastSeen(query, skip, whole, wholePtr, d);
          PlacesMonotone(query.vb, whole, wholePtr, query.src);
          PublicThrough(query.vb, whole, wholePtr, query.dst, d, query.src, query.srcPtr);
        }
      }
    }
  }

  // A source inside a target never turns up outside, so then all targets may be compared.
  lemma SourceInside(query: Query, c: ClassType, p: int)
    requires Distinct(query.vb, c, p) && Guarded(query, c, p)
    requires exists d :: d in Places(query.vb, false, c, p, query.dst) && InDst(query, d)
    ensures Comparable(query, Places(query.vb, false, c, p, query.dst))
    decreases c
  {
    if c == query.dst {
      OnlyItself(query.vb, false, c, p);
    } else {
      var d :| d in Places(query.vb, false, c, p, query.dst) && InDst(query, d);
      match c
      case SiClass(_, base) => SourceInside(query, base, p);
      case VmiClass(_, _, bases) =>
        var i := ChooseBase(query.vb, false, c, p, query.dst, d);
        PlacesTransitive(query.vb, false, bases[i].cls, ConvertToBase(query.vb, p, bases[i]), query.dst, d,
                         query.src, query.srcPtr);
        forall j: nat | j < |bases| && SeenIn(query, p, bases[j]) ensures false {
          SameBase(query.vb, c, p, i, j, query.src, query.srcPtr);
        }
        assert !SeenFrom(query, c, p, 0);
        AllIndices(query, c, p);
    }
  }

  lemma AllIndices(query: Query, c: ClassType, p: int)
    requires c.VmiClass? && c != query.dst
    ensures FoundIn(query, false, c, p, IndicesFrom(c, 0)) == Places(query.vb, false, c, p, query.dst)
  {
    forall j: nat | j < |c.bases| ensures j in IndicesFrom(c, 0) {
      assert AtOrBehind(0, j);
    }
  }

  // The simple cases.
  lemma {:induction false} FewOrFair(query: Query, c: ClassType, p: int)
    requires Comparable(query, Places(query.vb, false, c, p, query.dst))
    ensures Guarded(query, c, p)
    decreases c
  {
    match c
    case Class(_) =>
    case SiClass(_, base) => FewOrFair(query, base, p);
    case VmiClass(_, _, bases) =>
      forall i | 0 <= i < |bases|
        ensures Guarded(query, bases[i].cls, ConvertToBase(query.vb, p, bases[i]))
        ensures Comparable(query, FoundIn(query, false, c, p, IndicesFrom(c, i)))
      {
        forall d | d in PlacesInBase(query.vb, false, p, bases[i], query.dst)
          ensures d in Places(query.vb, false, c, p, query.dst)
        {
        }
        FewOrFair(query, bases[i].cls, ConvertToBase(query.vb, p, bases[i]));
        forall d | d in FoundIn(query, false, c, p, IndicesFrom(c, i))
          ensures d in Places(query.vb, false, c, p, query.dst)
        {
          var j :| j in IndicesFrom(c, i) && d in PlacesInBase(query.vb, false, p, bases[j], query.dst);
        }
      }
  }

  // One target, which misleads: if the source is in it, the answer is wrong.
  lemma DecideMisled(query: Query, whole: ClassType, wholePtr: int, v: Finding, ambig: bool)
    requires CastSetting(query, whole, wholePtr)
    requires OneTarget(query, whole, wholePtr) && !HintAnswers(query)
    requires Tally(query, whole, wholePtr, CONTAINED_PUBLIC, Places(query.vb, false, whole, wholePtr, query.dst), v,
                   ambig)
    requires MissedSrc(query, false, whole, wholePtr, v.whole2src)
    ensures Prescribed(query, whole, wholePtr, Decision(query, v)) <==> !Misled(query, whole, wholePtr)
    ensures Misled(query, whole, wholePtr) ==>
        Places(query.vb, false, whole, wholePtr, query.dst) == {Decision(query, v)}
  {
    var d := v.dstPtr;
    assert Places(query.vb, false, whole, wholePtr, query.dst) == {d} && InDst(query, d);
    RightIffNotMisled(query, d);
    if Holds(query, d) {
      FoundDowncast(query, false, whole, wholePtr, d);
    } else {
      NothingPrescribed(query, whole, wholePtr, d);
    }
  }

  // A source that lies non-publicly in the one target cannot be cast to it.
  lemma NothingPrescribed(query: Query, whole: ClassType, wholePtr: int, d: int)
    requires Distinct(query.vb, whole, wholePtr)
    requires Places(query.vb, false, whole, wholePtr, query.dst) == {d} && InDst(query, d) && !Holds(query, d)
    ensures forall r :: Prescribed(query, whole, wholePtr, r) <==> r == NULL
  {
    forall e ensures !IsCrosscast(query, whole, wholePtr, e) {
      if IsCrosscast(query, whole, wholePtr, e) {
        PublicThrough(query.vb, whole, wholePtr, query.dst, d, query.src, query.srcPtr);
      }
    }
  }

  // ---------- Consequences ----------

  lemma RuleIgnoresHint(query: Query, hint: int, whole: ClassType, wholePtr: int, r: int)
    ensures Prescribed(query, whole, wholePtr, r) <==> Prescribed(query.(hint := hint), whole, wholePtr, r)
  {
    forall d ensures IsDowncast(query, whole, wholePtr, d) <==> IsDowncast(query.(hint := hint), whole, wholePtr, d) {}
    forall d ensures IsCrosscast(query, whole, wholePtr, d) <==>
        IsCrosscast(query.(hint := hint), whole, wholePtr, d) {}
  }

  // The rule has one answer, and the hint is not part of it.
  lemma OneAnswer(query: Query, hint: int, whole: ClassType, wholePtr: int, r: int, r': int)
    requires Prescribed(query, whole, wholePtr, r)
    requires Prescribed(query.(hint := hint), whole, wholePtr, r')
    ensures r == r'
  {
    RuleIgnoresHint(query, hint, whole, wholePtr, r');
    PlacesMonotone(query.vb, query.dst, r, query.src);
    PlacesMonotone(query.vb, query.dst, r', query.src);
  }

  lemma DecoyIgnoresHint(query: Query, hint: int, c: ClassType, p: int)
    ensures Decoy(query.(hint := hint), c, p) == Decoy(query, c, p)
    decreases c
  {
    match c
    case Class(_) =>
    case SiClass(_, base) => DecoyIgnoresHint(query, hint, base, p);
    case VmiClass(_, _, bases) =>
      forall i | 0 <= i < |bases|
        ensures DecoyInBase(query.(hint := hint), p, bases[i]) == DecoyInBase(query, p, bases[i])
      {
        DecoyIgnoresHint(query, hint, bases[i].cls, ConvertToBase(query.vb, p, bases[i]));
      }
  }

  lemma MisleadsIgnoresHint(query: Query, hint: int, d: int)
    requires !HintAnswers(query) && hint == -1
    ensures Misleads(query.(hint := hint), d) == Misleads(query, d)
  {
    DecoyIgnoresHint(query, hint, query.dst, d);
  }

  lemma SettingIgnoresHint(query: Query, hint: int, whole: ClassType, wholePtr: int)
    requires hint == -1
    ensures CastSetting(query, whole, wholePtr) ==> CastSetting(query.(hint := hint), whole, wholePtr)
    ensures OpenSetting(query, whole, wholePtr) ==> OpenSetting(query.(hint := hint), whole, wholePtr)
  {
    var plain := query.(hint := hint);
    forall q
      ensures Places(plain.vb, false, plain.src, q, plain.dst) == Places(query.vb, false, query.src, q, query.dst) {}
    forall x ensures Places(plain.vb, false, plain.dst, NULL, x) == Places(query.vb, false, query.dst, NULL, x) {}
  }

  lemma GuardedIgnoresHint(query: Query, hint: int, c: ClassType, p: int)
    requires !HintAnswers(query) && hint == -1
    ensures Guarded(query.(hint := hint), c, p) == Guarded(query, c, p)
    decreases c
  {
    var plain := query.(hint := hint);
    forall d ensures Misleads(plain, d) == Misleads(query, d) {
      MisleadsIgnoresHint(query, hint, d);
    }
    match c
    case Class(_) =>
    case SiClass(_, base) => GuardedIgnoresHint(query, hint, base, p);
    case VmiClass(_, _, bases) =>
      forall i | 0 <= i < |bases|
        ensures Guarded(plain, bases[i].cls, ConvertToBase(query.vb, p, bases[i])) ==
                Guarded(query, bases[i].cls, ConvertToBase(query.vb, p, bases[i]))
        ensures SeenFrom(plain, c, p, i) == SeenFrom(query, c, p, i)
        ensures FoundIn(plain, false, c, p, IndicesFrom(c, i)) == FoundIn(query, false, c, p, IndicesFrom(c, i))
      {
        GuardedIgnoresHint(query, hint, bases[i].cls, ConvertToBase(query.vb, p, bases[i]));
        forall j: nat | j < |bases| ensures SeenIn(plain, p, bases[j]) == SeenIn(query, p, bases[j]) {}
      }
  }

  // A valid hint, with the different order and the skipped bases it brings, gives the answer of a
  // cast without a hint, except exactly where the cast without a hint is misled.
  method CastWithAndWithoutHint(query: Query, whole: ClassType, wholePtr: int) returns (guided: int, plain: int)
    requires OpenSetting(query, whole, wholePtr) ||
             (CastSetting(query, whole, wholePtr) && Guarded(query.(hint := -1), whole, wholePtr))
    ensures guided == plain <==> !(HintAnswers(query) && Misled(query.(hint := -1), whole, wholePtr))
  {
    SettingIgnoresHint(query, -1, whole, wholePtr);
    if !HintAnswers(query) {
      GuardedIgnoresHint(query, -1, whole, wholePtr);
    }
    forall d | !HintAnswers(query) ensures Misleads(query.(hint := -1), d) == Misleads(query, d) {
      MisleadsIgnoresHint(query, -1, d);
    }
    guided := DynamicCast(query, whole, wholePtr, whole);
    plain := DynamicCast(query.(hint := -1), whole, wholePtr, whole);
    RuleIgnoresHint(query, -1, whole, wholePtr, guided);
    if Prescribed(query, whole, wholePtr, guided) && Prescribed(query.(hint := -1), whole, wholePtr, plain) {
      OneAnswer(query, -1, whole, wholePtr, guided, plain);
    }
  }

  // struct Target : private Source, public Empty {}, with both bases at the start.
  function SourceBase(): BaseInfo { BaseInfo(Class(1), false, false, 0) }

  function EmptyBase(): BaseInfo { BaseInfo(Class(2), true, false, 0) }

  function Target(): ClassType { VmiClass(3, 0, [SourceBase(), EmptyBase()]) }

  function PrivateCast(): Query { Query((c: ClassType) => 0, -1, Target(), Class(1), 4096) }

  lemma PlacesInTarget(vb: VirtualBases, po: bool, p: int, x: ClassType)
    ensures Places(vb, po, Target(), p, x) ==
            if x == Target() || x == Class(2) || (x == Class(1) && !po) then {p} else {}
    ensures PlacesInBase(vb, po, p, SourceBase(), x) == if x == Class(1) && !po then {p} else {}
    ensures PlacesInBase(vb, po, p, EmptyBase(), x) == if x == Class(2) then {p} else {}
  {
    assert PlacesInBase(vb, po, p, SourceBase(), x) == if x == Class(1) && !po then {p} else {};
    assert PlacesInBase(vb, po, p, EmptyBase(), x) == if x == Class(2) then {p} else {};
    assert Target().bases[0] == SourceBase() && Target().bases[1] == EmptyBase();
  }

  // The cast from the private source without a hint succeeds, against the rule.
  method PrivateSourceFound() returns (r: int)
    ensures CastSetting(PrivateCast(), Target(), 4096)
    ensures r == 4096 && !Prescribed(PrivateCast(), Target(), 4096, r)
  {
    PrivateSetting();
    FewOrFair(PrivateCast(), Target(), 4096);
    r := DynamicCast(PrivateCast(), Target(), 4096, Target());
  }

  lemma PrivateSetting()
    ensures CastSetting(PrivateCast(), Target(), 4096)
    ensures Places(PrivateCast().vb, false, Target(), 4096, Target()) == {4096}
    ensures InDst(PrivateCast(), 4096) && Misleads(PrivateCast(), 4096)
  {
    var query, target := PrivateCast(), Target();
    forall p, po, x {
      PlacesInTarget(query.vb, po, p, x);
    }
    assert Distinct(query.vb, target, 4096);
    assert FlagsSound(query.vb, target, 4096);
    assert DecoyInBase(query, 4096, target.bases[1]);
  }
}
