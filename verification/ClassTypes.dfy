// Run-time class descriptions, the subobjects of an object, and the addresses at which
// the search functions find them.
module ClassTypes {

  // How a base is contained in a derived object: a word of three mask bits.
  type SubKind = bv3
  const UNKNOWN: SubKind := 0
  const NOT_CONTAINED: SubKind := 1
  const CONTAINED_AMBIG: SubKind := 2
  const CONTAINED_VIRTUAL_MASK: SubKind := 1
  const CONTAINED_PUBLIC_MASK: SubKind := 2
  const CONTAINED_MASK: SubKind := 4
  const CONTAINED_PRIVATE: SubKind := 4
  const CONTAINED_PUBLIC: SubKind := 6

  predicate Contained(k: SubKind) { k >= CONTAINED_MASK }

  predicate Public(k: SubKind) { k & CONTAINED_PUBLIC_MASK != 0 }

  predicate Virtual(k: SubKind) { k & CONTAINED_VIRTUAL_MASK != 0 }

  predicate ContainedPublic(k: SubKind) { k & CONTAINED_PUBLIC == CONTAINED_PUBLIC }

  predicate ContainedNonvirtual(k: SubKind) {
    k & (CONTAINED_MASK | CONTAINED_VIRTUAL_MASK) == CONTAINED_MASK
  }

  // Details of a class hierarchy, as the compiler records them.
  type Details = bv8
  const NON_DIAMOND_REPEAT_MASK: Details := 0x1
  const DIAMOND_SHAPED_MASK: Details := 0x2
  const FLAGS_UNKNOWN_MASK: Details := 0x10

  // One value per class: the type_info objects of one class are merged, so comparing names
  // and comparing these records is the same thing.
  datatype ClassType =
    | Class(name: nat)
    | SiClass(name: nat, base: ClassType)
    | VmiClass(name: nat, flags: Details, bases: seq<BaseInfo>)

  datatype BaseInfo = BaseInfo(cls: ClassType, isPublic: bool, isVirtual: bool, offset: int)

  // Where the complete object keeps its one virtual base of each class. The program reads
  // this through the vtable of the object being converted.
  type VirtualBases = ClassType -> int

  const NULL := 0

  function ConvertToBase(vb: VirtualBases, addr: int, b: BaseInfo): int {
    if b.isVirtual then vb(b.cls) else addr + b.offset
  }

  // ---------- Subobjects ----------

  // The addresses of the subobjects of class x in an object of class c at address p. With
  // publicOnly, only those reached through public bases.
  ghost function Places(vb: VirtualBases, publicOnly: bool, c: ClassType, p: int, x: ClassType): set<int>
    decreases c
  {
    (if c == x then {p} else {}) +
    match c
    case Class(_) => {}
    case SiClass(_, base) => Places(vb, publicOnly, base, p, x)
    case VmiClass(_, _, bases) =>
      set i: nat, q | i < |bases| && q in PlacesInBase(vb, publicOnly, p, bases[i], x) :: q
  }

  ghost function PlacesInBase(vb: VirtualBases, publicOnly: bool, p: int, b: BaseInfo, x: ClassType): set<int>
    decreases b
  {
    if publicOnly && !b.isPublic then {} else Places(vb, publicOnly, b.cls, ConvertToBase(vb, p, b), x)
  }

  ghost predicate NoVirtual(c: ClassType) {
    match c
    case Class(_) => true
    case SiClass(_, base) => NoVirtual(base)
    case VmiClass(_, _, bases) => forall i :: 0 <= i < |bases| ==> !bases[i].isVirtual && NoVirtual(bases[i].cls)
  }

  ghost predicate AllPublic(c: ClassType) {
    match c
    case Class(_) => true
    case SiClass(_, base) => AllPublic(base)
    case VmiClass(_, _, bases) => forall i :: 0 <= i < |bases| ==> bases[i].isPublic && AllPublic(bases[i].cls)
  }

  // No class occurs as two distinct subobjects.
  ghost predicate NoRepeats(vb: VirtualBases, c: ClassType, p: int) {
    forall x, q, r :: q in Places(vb, false, c, p, x) && r in Places(vb, false, c, p, x) ==> q == r
  }

  // The flags tell the truth: where bit 0 is clear, nothing is repeated; and bit 4 is not for the
  // compiler to set (section 2.9.5 of the Itanium C++ ABI).
  ghost predicate FlagsSound(vb: VirtualBases, c: ClassType, p: int)
    decreases c
  {
    match c
    case Class(_) => true
    case SiClass(_, base) => FlagsSound(vb, base, p)
    case VmiClass(_, flags, bases) =>
      && flags & 0x10 == 0
      && (flags & 0x1 == 0 ==> NoRepeats(vb, c, p))
      && forall i :: 0 <= i < |bases| ==> FlagsSound(vb, bases[i].cls, ConvertToBase(vb, p, bases[i]))
  }

  // No two subobjects of one class share an address (only used without virtual bases, where
  // different base lists lead to different subobjects).
  ghost predicate Distinct(vb: VirtualBases, c: ClassType, p: int)
    decreases c
  {
    match c
    case Class(_) => true
    case SiClass(_, base) => Distinct(vb, base, p)
    case VmiClass(_, _, bases) =>
      && (forall i :: 0 <= i < |bases| ==> Distinct(vb, bases[i].cls, ConvertToBase(vb, p, bases[i])))
      && (forall i, j, x :: 0 <= i < j < |bases| ==>
           PlacesInBase(vb, false, p, bases[i], x) !! PlacesInBase(vb, false, p, bases[j], x))
  }

  // The flags a search starts with: those of the first class with a base list.
  function FirstFlags(c: ClassType): Details {
    match c
    case Class(_) => FLAGS_UNKNOWN_MASK
    case SiClass(_, base) => FirstFlags(base)
    case VmiClass(_, flags, _) => flags
  }

  function EffectiveDetails(c: ClassType, details: Details): Details {
    if details & FLAGS_UNKNOWN_MASK != 0 then FirstFlags(c) else details
  }

  // ---------- Facts about subobjects ----------

  lemma PlacesMonotone(vb: VirtualBases, c: ClassType, p: int, x: ClassType)
    ensures Places(vb, true, c, p, x) <= Places(vb, false, c, p, x)
    decreases c
  {
    match c
    case Class(_) =>
    case SiClass(_, base) => PlacesMonotone(vb, base, p, x);
    case VmiClass(_, _, bases) =>
      forall i | 0 <= i < |bases|
        ensures PlacesInBase(vb, true, p, bases[i], x) <= PlacesInBase(vb, false, p, bases[i], x)
      {
        PlacesMonotone(vb, bases[i].cls, ConvertToBase(vb, p, bases[i]), x);
      }
  }

  lemma PlacesTransitive(vb: VirtualBases, po: bool, c: ClassType, p: int, x: ClassType, q: int, y: ClassType, r: int)
    requires q in Places(vb, po, c, p, x)
    requires r in Places(vb, po, x, q, y)
    ensures r in Places(vb, po, c, p, y)
    decreases c
  {
    if c == x && p == q {
    } else {
      match c
      case SiClass(_, base) => PlacesTransitive(vb, po, base, p, x, q, y, r);
      case VmiClass(_, _, bases) =>
        var i: nat :| i < |bases| && q in PlacesInBase(vb, po, p, bases[i], x);
        PlacesTransitive(vb, po, bases[i].cls, ConvertToBase(vb, p, bases[i]), x, q, y, r);
        assert r in PlacesInBase(vb, po, p, bases[i], y);
    }
  }

  ghost function Height(c: ClassType): nat
    decreases c, 0
  {
    match c
    case Class(_) => 0
    case SiClass(_, base) => 1 + Height(base)
    case VmiClass(_, _, bases) => 1 + MaxHeight(c, bases)
  }

  ghost function MaxHeight(c: ClassType, bases: seq<BaseInfo>): (m: nat)
    requires forall b :: b in bases ==> b.cls < c
    ensures forall b :: b in bases ==> Height(b.cls) <= m
    decreases c, 0, |bases|
  {
    if bases == [] then 0
    else
      var rest := MaxHeight(c, bases[1..]);
      assert forall b :: b in bases ==> b == bases[0] || b in bases[1..];
      if Height(bases[0].cls) > rest then Height(bases[0].cls) else rest
  }

  // A class is higher than everything it contains, so it never contains itself.
  lemma ContainedIsLower(vb: VirtualBases, po: bool, c: ClassType, p: int, x: ClassType, q: int)
    requires q in Places(vb, po, c, p, x)
    ensures (c == x && p == q) || Height(x) < Height(c)
    decreases c
  {
    if c == x && p == q {
    } else {
      match c
      case SiClass(_, base) => ContainedIsLower(vb, po, base, p, x, q);
      case VmiClass(_, _, bases) =>
        var i: nat :| i < |bases| && q in PlacesInBase(vb, po, p, bases[i], x);
        ContainedIsLower(vb, po, bases[i].cls, ConvertToBase(vb, p, bases[i]), x, q);
        assert bases[i] in bases;
    }
  }

  lemma OnlyItself(vb: VirtualBases, po: bool, c: ClassType, p: int)
    ensures Places(vb, po, c, p, c) == {p}
  {
    forall q | q in Places(vb, po, c, p, c) ensures q == p {
      ContainedIsLower(vb, po, c, p, c, q);
    }
  }
}
