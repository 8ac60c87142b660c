// The helper that asks whether the source subobject is publicly contained in a candidate.
module FindPublicSrc {
  import opened ClassTypes

  // What a dynamic cast is asked: how the compiler says src lies in dst (the hint), the two
  // classes, and the address of the source subobject.
  datatype Query = Query(vb: VirtualBases, hint: int, dst: ClassType, src: ClassType, srcPtr: int)

  // What the search of one class finds.
  ghost predicate Finds(query: Query, c: ClassType, p: int)
    decreases c
  {
    match c
    case Class(_) => p == query.srcPtr
    case SiClass(_, base) => (p == query.srcPtr && c == query.src) || Finds(query, base, p)
    case VmiClass(_, _, bases) =>
      || (p == query.srcPtr && c == query.src)
      || exists i :: 0 <= i < |bases| && FindsInBase(query, p, bases[i])
  }

  ghost predicate FindsInBase(query: Query, p: int, b: BaseInfo)
    decreases b
  {
    && b.isPublic
    && !(b.isVirtual && query.hint == -3)
    && Finds(query, b.cls, ConvertToBase(query.vb, p, b))
  }

  method DoFindPublicSrc(query: Query, c: ClassType, objPtr: int) returns (kind: SubKind)
    ensures Contained(kind) <==> Finds(query, c, objPtr)
    ensures Contained(kind) ==> ContainedPublic(kind)
    ensures !Contained(kind) ==> kind == NOT_CONTAINED
    ensures NoVirtual(c) ==> !Virtual(kind) || kind == NOT_CONTAINED
    decreases c
  {
    match c
    case Class(_) =>
      // The classes are not compared: an object without bases at the address is taken for src.
      return if query.srcPtr == objPtr then CONTAINED_PUBLIC else NOT_CONTAINED;
    case SiClass(_, base) =>
      if query.srcPtr == objPtr && c == query.src {
        return CONTAINED_PUBLIC;
      }
      kind := DoFindPublicSrc(query, base, objPtr);
    case VmiClass(_, _, bases) =>
      if objPtr == query.srcPtr && c == query.src {
        return CONTAINED_PUBLIC;
      }
      var i := |bases|;
      while i > 0
        invariant 0 <= i <= |bases|
        invariant forall j :: i <= j < |bases| ==> !FindsInBase(query, objPtr, bases[j])
      {
        i := i - 1;
        var b := bases[i];
        if !b.isPublic {
          continue;
        }
        if b.isVirtual && query.hint == -3 {
          continue;
        }
        var baseKind := DoFindPublicSrc(query, b.cls, ConvertToBase(query.vb, objPtr, b));
        if Contained(baseKind) {
          assert FindsInBase(query, objPtr, bases[i]);
          if b.isVirtual {
            baseKind := baseKind | CONTAINED_VIRTUAL_MASK;
          }
          return baseKind;
        }
      }
      return NOT_CONTAINED;
  }

  // __find_public_src: the hint answers without a search where it can.
  ghost predicate FindsSrc(query: Query, objPtr: int) {
    if query.hint >= 0 then objPtr + query.hint == query.srcPtr
    else if query.hint == -2 then false
    else Finds(query, query.dst, objPtr)
  }

  method FindSrc(query: Query, objPtr: int) returns (kind: SubKind)
    ensures Contained(kind) <==> FindsSrc(query, objPtr)
    ensures Contained(kind) ==> ContainedPublic(kind)
    ensures !Contained(kind) ==> kind == NOT_CONTAINED
    ensures NoVirtual(query.dst) ==> kind == if FindsSrc(query, objPtr) then CONTAINED_PUBLIC else NOT_CONTAINED
  {
    if query.hint >= 0 {
      return if objPtr + query.hint == query.srcPtr then CONTAINED_PUBLIC else NOT_CONTAINED;
    }
    if query.hint == -2 {
      return NOT_CONTAINED;
    }
    kind := DoFindPublicSrc(query, query.dst, objPtr);
  }

  // ---------- When the search is right ----------

  // The source is a public base class subobject of the target at d.
  ghost predicate Holds(query: Query, d: int) {
    query.srcPtr in Places(query.vb, true, query.dst, d, query.src)
  }

  ghost predicate FindsRight(query: Query, d: int) {
    FindsSrc(query, d) <==> Holds(query, d)
  }

  // The hint alone says whether a target holds the source.
  predicate HintAnswers(query: Query) { query.hint >= 0 || query.hint == -2 }

  // A class without bases, other than src and not inside it, lies publicly at the source address.
  ghost predicate Decoy(query: Query, c: ClassType, p: int)
    decreases c
  {
    && !(c == query.src && p == query.srcPtr)
    && match c
       case Class(_) => p == query.srcPtr
       case SiClass(_, base) => Decoy(query, base, p)
       case VmiClass(_, _, bases) => exists i :: 0 <= i < |bases| && DecoyInBase(query, p, bases[i])
  }

  ghost predicate DecoyInBase(query: Query, p: int, b: BaseInfo)
    decreases b
  {
    b.isPublic && Decoy(query, b.cls, ConvertToBase(query.vb, p, b))
  }

  // The search answers yes exactly for a public source subobject or a decoy.
  lemma {:induction false} FindsExactly(query: Query, c: ClassType, p: int)
    requires NoVirtual(c) || query.hint != -3
    ensures Finds(query, c, p) <==> query.srcPtr in Places(query.vb, true, c, p, query.src) || Decoy(query, c, p)
    decreases c
  {
    match c
    case Class(_) =>
    case SiClass(_, base) => FindsExactly(query, base, p);
    case VmiClass(_, _, bases) =>
      forall i | 0 <= i < |bases|
        ensures FindsInBase(query, p, bases[i]) <==>
                query.srcPtr in PlacesInBase(query.vb, true, p, bases[i], query.src) || DecoyInBase(query, p, bases[i])
      {
        FindsExactly(query, bases[i].cls, ConvertToBase(query.vb, p, bases[i]));
      }
  }

  // No virtual base in c holds src: this is what hint -3 says of dst.
  ghost predicate SrcNeverVirtual(query: Query, c: ClassType) {
    match c
    case Class(_) => true
    case SiClass(_, base) => SrcNeverVirtual(query, base)
    case VmiClass(_, _, bases) =>
      forall i :: 0 <= i < |bases| ==>
        && (bases[i].isVirtual ==> forall p :: Places(query.vb, true, bases[i].cls, p, query.src) == {})
        && SrcNeverVirtual(query, bases[i].cls)
  }

  // Under hint -3 virtual bases are not entered, and nothing is missed by that.
  lemma {:induction false} FindsOutsideVirtual(query: Query, c: ClassType, p: int)
    requires query.hint == -3 && SrcNeverVirtual(query, c)
    ensures query.srcPtr in Places(query.vb, true, c, p, query.src) ==> Finds(query, c, p)
    ensures Finds(query, c, p) ==> query.srcPtr in Places(query.vb, true, c, p, query.src) || Decoy(query, c, p)
    decreases c
  {
    match c
    case Class(_) =>
    case SiClass(_, base) => FindsOutsideVirtual(query, base, p);
    case VmiClass(_, _, bases) =>
      forall i | 0 <= i < |bases|
        ensures query.srcPtr in PlacesInBase(query.vb, true, p, bases[i], query.src) ==> FindsInBase(query, p, bases[i])
        ensures FindsInBase(query, p, bases[i]) ==>
                  query.srcPtr in PlacesInBase(query.vb, true, p, bases[i], query.src)
                    || DecoyInBase(query, p, bases[i])
      {
        FindsOutsideVirtual(query, bases[i].cls, ConvertToBase(query.vb, p, bases[i]));
      }
  }

  // A target that does not hold the source publicly, but another class without bases at its address,
  // while there is no hint to tell.
  ghost predicate Misleads(query: Query, d: int) {
    !HintAnswers(query) && !Holds(query, d) && Decoy(query, query.dst, d)
  }
}
