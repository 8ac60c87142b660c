// Facts about hierarchies without virtual bases, where every subobject is reached by exactly
// one path of bases.
module Subobjects {
  import opened ClassTypes

  lemma ChooseBase(vb: VirtualBases, po: bool, c: ClassType, p: int, x: ClassType, q: int) returns (i: nat)
    requires c.VmiClass? && c != x && q in Places(vb, po, c, p, x)
    ensures i < |c.bases| && q in PlacesInBase(vb, po, p, c.bases[i], x)
    ensures q in PlacesInBase(vb, false, p, c.bases[i], x)
    ensures po ==> c.bases[i].isPublic
    ensures q in Places(vb, po, c.bases[i].cls, ConvertToBase(vb, p, c.bases[i]), x)
  {
    i :| i < |c.bases| && q in PlacesInBase(vb, po, p, c.bases[i], x);
    PlacesMonotone(vb, c.bases[i].cls, ConvertToBase(vb, p, c.bases[i]), x);
  }

  lemma SameBase(vb: VirtualBases, c: ClassType, p: int, i: nat, j: nat, x: ClassType, q: int)
    requires c.VmiClass? && Distinct(vb, c, p) && i < |c.bases| && j < |c.bases|
    requires q in PlacesInBase(vb, false, p, c.bases[i], x) && q in PlacesInBase(vb, false, p, c.bases[j], x)
    ensures i == j
    ensures Distinct(vb, c.bases[i].cls, ConvertToBase(vb, p, c.bases[i]))
  {
  }

  // An object lies inside at most one subobject of a given class.
  lemma OneHolder(vb: VirtualBases, c: ClassType, p: int, x: ClassType, q: int, q': int, y: ClassType, r: int)
    requires Distinct(vb, c, p)
    requires q in Places(vb, false, c, p, x) && r in Places(vb, false, x, q, y)
    requires q' in Places(vb, false, c, p, x) && r in Places(vb, false, x, q', y)
    ensures q == q'
    decreases c
  {
    ContainedIsLower(vb, false, c, p, x, q);
    ContainedIsLower(vb, false, c, p, x, q');
    if c != x {
      match c
      case SiClass(_, base) => OneHolder(vb, base, p, x, q, q', y, r);
      case VmiClass(_, _, bases) =>
        var i := ChooseBase(vb, false, c, p, x, q);
        var j := ChooseBase(vb, false, c, p, x, q');
        PlacesTransitive(vb, false, bases[i].cls, ConvertToBase(vb, p, bases[i]), x, q, y, r);
        PlacesTransitive(vb, false, bases[j].cls, ConvertToBase(vb, p, bases[j]), x, q', y, r);
        SameBase(vb, c, p, i, j, y, r);
        OneHolder(vb, bases[i].cls, ConvertToBase(vb, p, bases[i]), x, q, q', y, r);
    }
  }

  // The only path to something inside a subobject leads through that subobject, so when it is
  // public, both parts of it are.
  lemma PublicThrough(vb: VirtualBases, c: ClassType, p: int, x: ClassType, q: int, y: ClassType, r: int)
    requires Distinct(vb, c, p)
    requires q in Places(vb, false, c, p, x) && r in Places(vb, false, x, q, y)
    requires r in Places(vb, true, c, p, y)
    ensures q in Places(vb, true, c, p, x) && r in Places(vb, true, x, q, y)
    decreases c
  {
    ContainedIsLower(vb, false, c, p, x, q);
    if c != x {
      ContainedIsLower(vb, false, x, q, y, r);
      match c
      case SiClass(_, base) => PublicThrough(vb, base, p, x, q, y, r);
      case VmiClass(_, _, bases) =>
        var i := ChooseBase(vb, false, c, p, x, q);
        var j := ChooseBase(vb, true, c, p, y, r);
        PlacesTransitive(vb, false, bases[i].cls, ConvertToBase(vb, p, bases[i]), x, q, y, r);
        SameBase(vb, c, p, i, j, y, r);
        PublicThrough(vb, bases[i].cls, ConvertToBase(vb, p, bases[i]), x, q, y, r);
        assert q in PlacesInBase(vb, true, p, bases[i], x);
    }
  }

  // Whether a subobject found in a base is public in the derived object depends on that base.
  lemma PublicInBase(vb: VirtualBases, c: ClassType, p: int, i: nat, x: ClassType, q: int)
    requires c.VmiClass? && i < |c.bases| && Distinct(vb, c, p)
    requires q in PlacesInBase(vb, false, p, c.bases[i], x)
    ensures q in Places(vb, true, c, p, x) <==> q in PlacesInBase(vb, true, p, c.bases[i], x)
    ensures c != x
  {
    ContainedIsLower(vb, false, c.bases[i].cls, ConvertToBase(vb, p, c.bases[i]), x, q);
    assert c.bases[i] in c.bases;
    if q in Places(vb, true, c, p, x) {
      var j := ChooseBase(vb, true, c, p, x, q);
      SameBase(vb, c, p, i, j, x, q);
    }
  }

  // Where the flags a search starts with say that nothing is repeated, nothing is.
  lemma FirstFlagsSound(vb: VirtualBases, c: ClassType, p: int)
    requires FlagsSound(vb, c, p) && FirstFlags(c) & NON_DIAMOND_REPEAT_MASK == 0
    ensures NoRepeats(vb, c, p)
    decreases c
  {
    if c.SiClass? {
      FirstFlagsSound(vb, c.base, p);
      forall x, q, r | q in Places(vb, false, c, p, x) && r in Places(vb, false, c, p, x) ensures q == r {
        ContainedIsLower(vb, false, c, p, x, q);
        ContainedIsLower(vb, false, c, p, x, r);
      }
    }
  }

  lemma AllPublicPlaces(vb: VirtualBases, c: ClassType, p: int, x: ClassType)
    requires AllPublic(c)
    ensures Places(vb, true, c, p, x) == Places(vb, false, c, p, x)
    decreases c
  {
    match c
    case Class(_) =>
    case SiClass(_, base) => AllPublicPlaces(vb, base, p, x);
    case VmiClass(_, _, bases) =>
      forall i | 0 <= i < |bases|
        ensures PlacesInBase(vb, true, p, bases[i], x) == PlacesInBase(vb, false, p, bases[i], x)
      {
        AllPublicPlaces(vb, bases[i].cls, ConvertToBase(vb, p, bases[i]), x);
      }
  }
}
