// The search used when an exception is caught by the type of a base class.
module Upcast {
  import opened ClassTypes
  import opened Subobjects
  import opened Paths
  import opened Options

  // Where the target was found: nowhere, outside virtual bases, or inside one.
  datatype Mark = NoBase | NonvirtualBase | InVirtualBase(cls: ClassType)

  class UpcastResult {
    var dstPtr: int
    var part2dst: SubKind
    var srcDetails: Details
    var baseType: Mark

    constructor (details: Details)
      ensures Fresh() && srcDetails == details
    {
      dstPtr, part2dst, srcDetails, baseType := NULL, UNKNOWN, details, NoBase;
    }

    ghost predicate Fresh()
      reads this
    {
      View() == Upcasting(NULL, UNKNOWN, NoBase)
    }

    ghost function View(): Upcasting
      reads this
    {
      Upcasting(dstPtr, part2dst, baseType)
    }

    method CopyFrom(that: UpcastResult)
      requires that != this
      modifies this
      ensures View() == that.View()
    {
      dstPtr, part2dst, srcDetails, baseType := that.dstPtr, that.part2dst, that.srcDetails, that.baseType;
    }
  }

  datatype Upcasting = Upcasting(dstPtr: int, part2dst: SubKind, baseType: Mark)

  const NOTHING := Upcasting(NULL, UNKNOWN, NoBase)

  // ---------- The search as a function ----------

  predicate SkipsPrivate(details: Details) { details & NON_DIAMOND_REPEAT_MASK == 0 }

  function Search(vb: VirtualBases, dst: ClassType, c: ClassType, p: int, details: Details): (v: Upcasting)
    ensures v.part2dst == UNKNOWN <==> v == NOTHING
    ensures v.baseType == NoBase <==> v == NOTHING
    decreases c, 1
  {
    if c == dst then Upcasting(p, CONTAINED_PUBLIC, NonvirtualBase)
    else
      match c
      case Class(_) => NOTHING
      case SiClass(_, base) => Search(vb, dst, base, p, details)
      case VmiClass(_, flags, bases) =>
        SearchFrom(vb, dst, c, p, if details & FLAGS_UNKNOWN_MASK != 0 then flags else details, |bases|, NOTHING)
  }

  // The search of the bases below i, with what was found in the others.
  function SearchFrom(vb: VirtualBases, dst: ClassType, c: ClassType, p: int, details: Details, i: nat, acc: Upcasting)
    : (v: Upcasting)
    requires c.VmiClass? && i <= |c.bases|
    requires acc.part2dst == UNKNOWN <==> acc == NOTHING
    requires acc.baseType == NoBase <==> acc == NOTHING
    ensures v.part2dst == UNKNOWN <==> v == NOTHING
    ensures v.baseType == NoBase <==> v == NOTHING
    decreases c, 0, i
  {
    if i == 0 then acc
    else
      var b := c.bases[i - 1];
      if !b.isPublic && SkipsPrivate(details) then SearchFrom(vb, dst, c, p, details, i - 1, acc)
      else
        var v := Search(vb, dst, b.cls, if p != NULL then ConvertToBase(vb, p, b) else p, details);
        var merged := Merged(c.flags, acc, ThroughBase(b, v));
        if v == NOTHING then SearchFrom(vb, dst, c, p, details, i - 1, acc)
        else if merged.1 then merged.0
        else SearchFrom(vb, dst, c, p, details, i - 1, merged.0)
  }

  // What was found in a base, seen from the derived class.
  function ThroughBase(b: BaseInfo, v: Upcasting): (r: Upcasting)
    ensures v.part2dst != UNKNOWN ==> r.part2dst != UNKNOWN
    ensures v.baseType != NoBase ==> r.baseType != NoBase
  {
    Upcasting(v.dstPtr,
              if Contained(v.part2dst) && !b.isPublic then v.part2dst & !CONTAINED_PUBLIC_MASK else v.part2dst,
              if v.baseType == NonvirtualBase && b.isVirtual then InVirtualBase(b.cls) else v.baseType)
  }

  // Two findings made one, and whether the search is over.
  function Merged(flags: Details, acc: Upcasting, v: Upcasting): (r: (Upcasting, bool))
    ensures v.part2dst != UNKNOWN ==> r.0.part2dst != UNKNOWN
    ensures v.baseType != NoBase ==> r.0.baseType != NoBase
  {
    if acc.baseType == NoBase then
      (v, if !Contained(v.part2dst) then true
          else if Public(v.part2dst) then flags & NON_DIAMOND_REPEAT_MASK == 0
          else !Virtual(v.part2dst) || flags & DIAMOND_SHAPED_MASK == 0)
    else if acc.dstPtr != v.dstPtr then (Upcasting(NULL, CONTAINED_AMBIG, acc.baseType), true)
    else if acc.dstPtr == NULL
            && (v.baseType == NonvirtualBase || acc.baseType == NonvirtualBase || v.baseType != acc.baseType) then
      (acc.(part2dst := CONTAINED_AMBIG), true)
    else (acc.(part2dst := acc.part2dst | v.part2dst), false)
  }

  // ---------- The search ----------

  method DoUpcast(vb: VirtualBases, dst: ClassType, c: ClassType, objPtr: int, result: UpcastResult)
    returns (found: bool)
    requires result.View() == NOTHING
    modifies result
    ensures result.View() == Search(vb, dst, c, objPtr, old(result.srcDetails))
    ensures found <==> result.View() != NOTHING
    decreases c, 2
  {
    if c == dst {
      result.dstPtr := objPtr;
      result.baseType := NonvirtualBase;
      result.part2dst := CONTAINED_PUBLIC;
      return true;
    }
    match c
    case Class(_) => return false;
    case SiClass(_, base) => found := DoUpcast(vb, dst, base, objPtr, result);
    case VmiClass(_, _, _) => found := VmiUpcast(vb, dst, c, objPtr, result);
  }

  method VmiUpcast(vb: VirtualBases, dst: ClassType, c: ClassType, objPtr: int, result: UpcastResult)
    returns (found: bool)
    requires c.VmiClass? && c != dst && result.View() == NOTHING
    modifies result
    ensures result.View() == Search(vb, dst, c, objPtr, old(result.srcDetails))
    ensures found <==> result.View() != NOTHING
    decreases c, 1
  {
    var srcDetails := result.srcDetails;
    if srcDetails & FLAGS_UNKNOWN_MASK != 0 {
      srcDetails := c.flags;
    }
    ghost var all := Search(vb, dst, c, objPtr, result.srcDetails);
    var i: nat := |c.bases|;
    while i > 0
      invariant i <= |c.bases|
      invariant Consistent(result.View())
      invariant all == SearchFrom(vb, dst, c, objPtr, srcDetails, i, result.View())
    {
      i := i - 1;
      if !c.bases[i].isPublic && srcDetails & NON_DIAMOND_REPEAT_MASK == 0 {
        continue;
      }
      var stop := UpcastBase(vb, dst, c, objPtr, i, srcDetails, result);
      if stop {
        return true;
      }
    }
    return result.part2dst != UNKNOWN;
  }

  ghost predicate Consistent(v: Upcasting) {
    (v.part2dst == UNKNOWN <==> v == NOTHING) && (v.baseType == NoBase <==> v == NOTHING)
  }

  // The search of one more base.
  method UpcastBase(vb: VirtualBases, dst: ClassType, c: ClassType, objPtr: int, i: nat, srcDetails: Details,
                    result: UpcastResult)
    returns (stop: bool)
    requires c.VmiClass? && i < |c.bases| && Consistent(result.View())
    requires c.bases[i].isPublic || !SkipsPrivate(srcDetails)
    modifies result
    ensures Consistent(result.View())
    ensures SearchFrom(vb, dst, c, objPtr, srcDetails, i + 1, old(result.View())) ==
            if stop then result.View() else SearchFrom(vb, dst, c, objPtr, srcDetails, i, result.View())
    ensures stop ==> result.View() != NOTHING
    decreases c, 0
  {
    var result2 := new UpcastResult(srcDetails);
    var b := c.bases[i];
    var base := objPtr;
    if base != NULL {
      base := ConvertToBase(vb, base, b);
    }
    var found := DoUpcast(vb, dst, b.cls, base, result2);
    if !found {
      return false;
    }
    stop := Join(b, c.flags, result, result2);
  }

  // Adds what was found in one base to what was found before; true when the search is over.
  method Join(b: BaseInfo, flags: Details, result: UpcastResult, result2: UpcastResult) returns (stop: bool)
    requires result != result2
    modifies result, result2
    ensures (result.View(), stop) == Merged(flags, old(result.View()), ThroughBase(b, old(result2.View())))
  {
    if result2.baseType == NonvirtualBase && b.isVirtual {
      result2.baseType := InVirtualBase(b.cls);
    }
    if Contained(result2.part2dst) && !b.isPublic {
      result2.part2dst := result2.part2dst & !CONTAINED_PUBLIC_MASK;
    }
    stop := Merge(flags, result, result2);
  }

  method Merge(flags: Details, result: UpcastResult, result2: UpcastResult) returns (stop: bool)
    requires result != result2
    modifies result
    ensures (result.View(), stop) == Merged(flags, old(result.View()), result2.View())
  {
    if result.baseType == NoBase {
      result.CopyFrom(result2);
      if !Contained(result.part2dst) {
        return true;  // several targets in this one base
      }
      if Public(result.part2dst) {
        if flags & NON_DIAMOND_REPEAT_MASK == 0 {
          return true;  // nothing is repeated, so there is no rival
        }
      } else {
        if !Virtual(result.part2dst) {
          return true;  // taken to be reached in this way only
        }
        if flags & DIAMOND_SHAPED_MASK == 0 {
          return true;  // private on every way to it
        }
      }
    } else if result.dstPtr != result2.dstPtr {
      // Two targets, and no way to tell them apart.
      result.dstPtr := NULL;
      result.part2dst := CONTAINED_AMBIG;
      return true;
    } else if result.dstPtr != NULL {
      // The real object, by a virtual path.
      result.part2dst := result.part2dst | result2.part2dst;
    } else {
      // A null pointer: look at the virtual base that contains each of the two choices.
      if result2.baseType == NonvirtualBase || result.baseType == NonvirtualBase
          || result2.baseType != result.baseType {
        result.part2dst := CONTAINED_AMBIG;
        return true;
      }
      result.part2dst := result.part2dst | result2.part2dst;
    }
    return false;
  }

  // ---------- What the search sees ----------

  // No subobject at NULL.
  ghost predicate NonNull(vb: VirtualBases, c: ClassType, p: int) {
    forall x :: NULL !in Places(vb, false, c, p, x)
  }

  ghost predicate Any(found: set<int>) {
    exists d :: d in found
  }

  ghost predicate Several(found: set<int>) {
    exists d, e :: d in found && e in found && d != e
  }

  // The first base, in the order of the search, that holds the target; -1 if there is none below i.
  ghost function FirstBase(vb: VirtualBases, skip: bool, dst: ClassType, c: ClassType, p: int, i: nat): (j: int)
    requires c.VmiClass? && i <= |c.bases|
    ensures -1 <= j < i && (j >= 0 ==> Any(PlacesInBase(vb, skip, p, c.bases[j], dst)))
    ensures forall k :: j < k < i ==> !Any(PlacesInBase(vb, skip, p, c.bases[k], dst))
  {
    if i == 0 then -1
    else if Any(PlacesInBase(vb, skip, p, c.bases[i - 1], dst)) then i - 1
    else FirstBase(vb, skip, dst, c, p, i - 1)
  }

  // The first path to the target, in the order of the search, is one of public bases.
  ghost predicate FirstPublic(vb: VirtualBases, skip: bool, dst: ClassType, c: ClassType, p: int)
    decreases c
  {
    || c == dst
    || match c
       case Class(_) => false
       case SiClass(_, base) => FirstPublic(vb, skip, dst, base, p)
       case VmiClass(_, _, bases) =>
         var j := FirstBase(vb, skip, dst, c, p, |bases|);
         j >= 0 && bases[j].isPublic && FirstPublic(vb, skip, dst, bases[j].cls, ConvertToBase(vb, p, bases[j]))
  }

  // The targets seen. Behind a first path that is not public, the search looks no further.
  ghost function Seen(vb: VirtualBases, skip: bool, dst: ClassType, c: ClassType, p: int): set<int>
    decreases c
  {
    if c == dst then {p}
    else
      match c
      case Class(_) => {}
      case SiClass(_, base) => Seen(vb, skip, dst, base, p)
      case VmiClass(_, _, bases) =>
        var j := FirstBase(vb, skip, dst, c, p, |bases|);
        if FirstPublic(vb, skip, dst, c, p) then
          set k: nat, q | k < |bases| && q in SeenInBase(vb, skip, dst, p, bases[k]) :: q
        else if j >= 0 then SeenInBase(vb, skip, dst, p, bases[j])
        else {}
  }

  ghost function SeenInBase(vb: VirtualBases, skip: bool, dst: ClassType, p: int, b: BaseInfo): set<int>
    decreases b
  {
    if skip && !b.isPublic then {} else Seen(vb, skip, dst, b.cls, ConvertToBase(vb, p, b))
  }

  // Of the targets, the search sees some, if there are any.
  lemma SeenSome(vb: VirtualBases, skip: bool, dst: ClassType, c: ClassType, p: int)
    ensures Seen(vb, skip, dst, c, p) <= Places(vb, skip, c, p, dst)
    ensures !Any(Seen(vb, skip, dst, c, p)) <==> !Any(Places(vb, skip, c, p, dst))
    decreases c
  {
    if c == dst {
      OnlyItself(vb, skip, c, p);
    } else {
      match c
      case Class(_) =>
      case SiClass(_, base) => SeenSome(vb, skip, dst, base, p);
      case VmiClass(_, _, bases) => SeenInSomeBase(vb, skip, dst, c, p);
    }
  }

  lemma SeenInSomeBase(vb: VirtualBases, skip: bool, dst: ClassType, c: ClassType, p: int)
    requires c.VmiClass? && c != dst
    ensures Seen(vb, skip, dst, c, p) <= Places(vb, skip, c, p, dst)
    ensures !Any(Seen(vb, skip, dst, c, p)) <==> !Any(Places(vb, skip, c, p, dst))
    decreases c.bases
  {
    var bases := c.bases;
    var j := FirstBase(vb, skip, dst, c, p, |bases|);
    forall q | q in Seen(vb, skip, dst, c, p) ensures q in Places(vb, skip, c, p, dst) {
      var k: nat :| k < |bases| && q in SeenInBase(vb, skip, dst, p, bases[k]);
      SomeInBase(vb, skip, dst, p, bases[k]);
    }
    if j >= 0 {
      SomeInBase(vb, skip, dst, p, bases[j]);
      var q :| q in SeenInBase(vb, skip, dst, p, bases[j]);
      assert q in Seen(vb, skip, dst, c, p);
    } else {
      forall q ensures q !in Places(vb, skip, c, p, dst) {}
    }
  }

  lemma SomeInBase(vb: VirtualBases, skip: bool, dst: ClassType, p: int, b: BaseInfo)
    ensures SeenInBase(vb, skip, dst, p, b) <= PlacesInBase(vb, skip, p, b, dst)
    ensures !Any(SeenInBase(vb, skip, dst, p, b)) <==> !Any(PlacesInBase(vb, skip, p, b, dst))
    decreases b
  {
    if !skip || b.isPublic {
      SeenSome(vb, skip, dst, b.cls, ConvertToBase(vb, p, b));
    }
  }

  // The result of a search, by what it sees.
  ghost predicate Shows(vb: VirtualBases, skip: bool, dst: ClassType, c: ClassType, p: int, v: Upcasting) {
    Judged(Seen(vb, skip, dst, c, p), FirstPublic(vb, skip, dst, c, p), v)
  }

  ghost predicate Judged(seen: set<int>, public: bool, v: Upcasting) {
    if !Any(seen) then v == NOTHING
    else
      && v.baseType != NoBase
      && if Several(seen) then v.part2dst == CONTAINED_AMBIG && v.dstPtr == NULL
         else v.dstPtr in seen && v.part2dst == if public then CONTAINED_PUBLIC else CONTAINED_PRIVATE
  }

  lemma {:induction false} SearchShows(vb: VirtualBases, dst: ClassType, c: ClassType, p: int, details: Details)
    requires NonNull(vb, c, p) && FlagsSound(vb, c, p)
    ensures Shows(vb, SkipsPrivate(EffectiveDetails(c, details)), dst, c, p, Search(vb, dst, c, p, details))
    decreases c, 1
  {
    if c != dst {
      match c
      case Class(_) =>
      case SiClass(_, base) =>
        forall x ensures Places(vb, false, base, p, x) <= Places(vb, false, c, p, x) {}
        SearchShows(vb, dst, base, p, details);
      case VmiClass(_, _, bases) =>
        RestShows(vb, dst, c, p, EffectiveDetails(c, details), |bases|, NOTHING);
    }
  }

  // What is known when the bases from i on have been searched and the search goes on.
  ghost predicate Going(vb: VirtualBases, skip: bool, dst: ClassType, c: ClassType, p: int, i: nat, v: Upcasting)
    requires c.VmiClass? && i <= |c.bases|
  {
    var seen := SeenFrom(vb, skip, dst, c, p, i);
    if !Any(seen) then v == NOTHING
    else FirstPublic(vb, skip, dst, c, p) && !Several(seen) && Judged(seen, true, v)
  }

  ghost function SeenFrom(vb: VirtualBases, skip: bool, dst: ClassType, c: ClassType, p: int, i: nat): set<int>
    requires c.VmiClass?
  {
    set k: nat, q | i <= k < |c.bases| && q in SeenInBase(vb, skip, dst, p, c.bases[k]) :: q
  }

  ghost predicate Searching(vb: VirtualBases, dst: ClassType, c: ClassType, p: int, details: Details) {
    c.VmiClass? && c != dst && NonNull(vb, c, p) && FlagsSound(vb, c, p) && details & FLAGS_UNKNOWN_MASK == 0
  }

  lemma {:induction false} RestShows(vb: VirtualBases, dst: ClassType, c: ClassType, p: int, details: Details, i: nat,
                                     acc: Upcasting)
    requires Searching(vb, dst, c, p, details) && i <= |c.bases| && Consistent(acc)
    requires Going(vb, SkipsPrivate(details), dst, c, p, i, acc)
    ensures Shows(vb, SkipsPrivate(details), dst, c, p, SearchFrom(vb, dst, c, p, details, i, acc))
    decreases c, 0, i
  {
    var skip := SkipsPrivate(details);
    if i == 0 {
      EndShows(vb, skip, dst, c, p, acc);
    } else if !c.bases[i - 1].isPublic && skip {
      NothingInBase(vb, skip, dst, c, p, i, acc);
      RestShows(vb, dst, c, p, details, i - 1, acc);
    } else {
      var b := c.bases[i - 1];
      IntoBase(vb, c, p, i - 1);
      SearchShows(vb, dst, b.cls, ConvertToBase(vb, p, b), details);
      var v := Search(vb, dst, b.cls, ConvertToBase(vb, p, b), details);
      if v == NOTHING {
        NothingInBase(vb, skip, dst, c, p, i, acc);
        RestShows(vb, dst, c, p, details, i - 1, acc);
      } else {
        BaseMerged(vb, dst, c, p, skip, i, acc, v);
        var merged := Merged(c.flags, acc, ThroughBase(b, v));
        if !merged.1 {
          RestShows(vb, dst, c, p, details, i - 1, merged.0);
        }
      }
    }
  }

  lemma EndShows(vb: VirtualBases, skip: bool, dst: ClassType, c: ClassType, p: int, acc: Upcasting)
    requires c.VmiClass? && c != dst && Going(vb, skip, dst, c, p, 0, acc)
    ensures Shows(vb, skip, dst, c, p, acc)
  {
    forall q | q in Seen(vb, skip, dst, c, p) ensures q in SeenFrom(vb, skip, dst, c, p, 0) {
      var k: nat :| k < |c.bases| && q in SeenInBase(vb, skip, dst, p, c.bases[k]);
    }
    if Any(SeenFrom(vb, skip, dst, c, p, 0)) {
      assert Seen(vb, skip, dst, c, p) == SeenFrom(vb, skip, dst, c, p, 0);
    }
  }

  lemma NothingInBase(vb: VirtualBases, skip: bool, dst: ClassType, c: ClassType, p: int, i: nat, acc: Upcasting)
    requires c.VmiClass? && 0 < i <= |c.bases| && Going(vb, skip, dst, c, p, i, acc)
    requires !Any(SeenInBase(vb, skip, dst, p, c.bases[i - 1]))
    ensures Going(vb, skip, dst, c, p, i - 1, acc)
  {
    SeenStep(vb, skip, dst, c, p, i - 1);
    assert SeenFrom(vb, skip, dst, c, p, i - 1) == SeenFrom(vb, skip, dst, c, p, i);
  }

  lemma IntoBase(vb: VirtualBases, c: ClassType, p: int, i: nat)
    requires c.VmiClass? && i < |c.bases| && NonNull(vb, c, p) && FlagsSound(vb, c, p)
    ensures
      var b := c.bases[i];
      p != NULL && NonNull(vb, b.cls, ConvertToBase(vb, p, b)) && FlagsSound(vb, b.cls, ConvertToBase(vb, p, b))
  {
    assert p in Places(vb, false, c, p, c);
    forall x ensures NULL !in Places(vb, false, c.bases[i].cls, ConvertToBase(vb, p, c.bases[i]), x) {
      assert NULL in PlacesInBase(vb, false, p, c.bases[i], x) ==> NULL in Places(vb, false, c, p, x);
    }
  }

  lemma SeenStep(vb: VirtualBases, skip: bool, dst: ClassType, c: ClassType, p: int, i: nat)
    requires c.VmiClass? && i < |c.bases|
    ensures SeenFrom(vb, skip, dst, c, p, i) ==
            SeenFrom(vb, skip, dst, c, p, i + 1) + SeenInBase(vb, skip, dst, p, c.bases[i])
  {
    var after, before := SeenFrom(vb, skip, dst, c, p, i), SeenFrom(vb, skip, dst, c, p, i + 1);
    forall q | q in after ensures q in before + SeenInBase(vb, skip, dst, p, c.bases[i]) {
      var k: nat :| i <= k < |c.bases| && q in SeenInBase(vb, skip, dst, p, c.bases[k]);
    }
    forall q | q in SeenInBase(vb, skip, dst, p, c.bases[i]) ensures q in after {}
    forall q | q in before ensures q in after {
      var k: nat :| i + 1 <= k < |c.bases| && q in SeenInBase(vb, skip, dst, p, c.bases[k]);
    }
  }

  // One more base with a target in it: the search ends with what it shows, or goes on.
  lemma BaseMerged(vb: VirtualBases, dst: ClassType, c: ClassType, p: int, skip: bool, i: nat, acc: Upcasting,
                   v: Upcasting)
    requires c.VmiClass? && c != dst && NonNull(vb, c, p) && FlagsSound(vb, c, p) && 0 < i <= |c.bases|
    requires Going(vb, skip, dst, c, p, i, acc) && Consistent(acc) && (skip ==> c.bases[i - 1].isPublic)
    requires
      var b := c.bases[i - 1];
      v != NOTHING && Consistent(v) && Shows(vb, skip, dst, b.cls, ConvertToBase(vb, p, b), v)
    ensures
      var merged := Merged(c.flags, acc, ThroughBase(c.bases[i - 1], v));
      if merged.1 then Shows(vb, skip, dst, c, p, merged.0) else Going(vb, skip, dst, c, p, i - 1, merged.0)
  {
    SeenStep(vb, skip, dst, c, p, i - 1);
    SeenInto(vb, skip, dst, c, p, i - 1);
    if !Any(SeenFrom(vb, skip, dst, c, p, i)) {
      FirstBaseMerged(vb, dst, c, p, skip, i, v);
    } else {
      NextBaseMerged(vb, dst, c, p, skip, i, acc, v);
    }
  }

  lemma FirstBaseMerged(vb: VirtualBases, dst: ClassType, c: ClassType, p: int, skip: bool, i: nat, v: Upcasting)
    requires c.VmiClass? && c != dst && FlagsSound(vb, c, p) && 0 < i <= |c.bases|
    requires !Any(SeenFrom(vb, skip, dst, c, p, i)) && (skip ==> c.bases[i - 1].isPublic)
    requires SeenFrom(vb, skip, dst, c, p, i - 1) == SeenInBase(vb, skip, dst, p, c.bases[i - 1])
    requires
      var b := c.bases[i - 1];
      v != NOTHING && Shows(vb, skip, dst, b.cls, ConvertToBase(vb, p, b), v)
    ensures
      var merged := Merged(c.flags, NOTHING, ThroughBase(c.bases[i - 1], v));
      if merged.1 then Shows(vb, skip, dst, c, p, merged.0) else Going(vb, skip, dst, c, p, i - 1, merged.0)
  {
    var b := c.bases[i - 1];
    var more, all := SeenInBase(vb, skip, dst, p, b), Seen(vb, skip, dst, c, p);
    FirstMerged(c.flags, b, more, FirstPublic(vb, skip, dst, b.cls, ConvertToBase(vb, p, b)), v);
    FirstIs(vb, skip, dst, c, p, i);
    assert more <= all;
    if c.flags & NON_DIAMOND_REPEAT_MASK == 0 {
      SeenInSomeBase(vb, skip, dst, c, p);
      PlacesMonotone(vb, c, p, dst);
      assert !Several(all);
    }
  }

  lemma NextBaseMerged(vb: VirtualBases, dst: ClassType, c: ClassType, p: int, skip: bool, i: nat, acc: Upcasting,
                       v: Upcasting)
    requires c.VmiClass? && c != dst && NonNull(vb, c, p) && 0 < i <= |c.bases|
    requires Going(vb, skip, dst, c, p, i, acc) && (skip ==> c.bases[i - 1].isPublic)
    requires Any(SeenFrom(vb, skip, dst, c, p, i))
    requires SeenFrom(vb, skip, dst, c, p, i - 1) ==
             SeenFrom(vb, skip, dst, c, p, i) + SeenInBase(vb, skip, dst, p, c.bases[i - 1])
    requires
      var b := c.bases[i - 1];
      v != NOTHING && Shows(vb, skip, dst, b.cls, ConvertToBase(vb, p, b), v)
    ensures
      var merged := Merged(c.flags, acc, ThroughBase(c.bases[i - 1], v));
      if merged.1 then Shows(vb, skip, dst, c, p, merged.0) else Going(vb, skip, dst, c, p, i - 1, merged.0)
  {
    var b := c.bases[i - 1];
    var before, more, all := SeenFrom(vb, skip, dst, c, p, i), SeenInBase(vb, skip, dst, p, b),
      Seen(vb, skip, dst, c, p);
    assert before + more <= all;
    SeenInSomeBase(vb, skip, dst, c, p);
    PlacesMonotone(vb, c, p, dst);
    NextMerged(c.flags, acc, b, before, more, FirstPublic(vb, skip, dst, b.cls, ConvertToBase(vb, p, b)), v);
  }

  lemma SeenInto(vb: VirtualBases, skip: bool, dst: ClassType, c: ClassType, p: int, i: nat)
    requires c.VmiClass? && i < |c.bases|
    ensures SeenInBase(vb, skip, dst, p, c.bases[i]) <= Places(vb, false, c, p, dst)
  {
    var b := c.bases[i];
    SeenSome(vb, skip, dst, b.cls, ConvertToBase(vb, p, b));
    PlacesMonotone(vb, b.cls, ConvertToBase(vb, p, b), dst);
    forall q | q in SeenInBase(vb, skip, dst, p, b) ensures q in Places(vb, false, c, p, dst) {
      assert q in PlacesInBase(vb, false, p, b, dst);
    }
  }

  // The base just searched is the first one that holds the target.
  lemma FirstIs(vb: VirtualBases, skip: bool, dst: ClassType, c: ClassType, p: int, i: nat)
    requires c.VmiClass? && 0 < i <= |c.bases| && !Any(SeenFrom(vb, skip, dst, c, p, i))
    requires Any(SeenInBase(vb, skip, dst, p, c.bases[i - 1]))
    ensures FirstBase(vb, skip, dst, c, p, |c.bases|) == i - 1
  {
    SomeInBase(vb, skip, dst, p, c.bases[i - 1]);
    forall k | i <= k < |c.bases| ensures !Any(PlacesInBase(vb, skip, p, c.bases[k], dst)) {
      SeenIsSeen(vb, skip, dst, c, p, i, k);
      SomeInBase(vb, skip, dst, p, c.bases[k]);
    }
  }

  lemma SeenIsSeen(vb: VirtualBases, skip: bool, dst: ClassType, c: ClassType, p: int, i: nat, k: nat)
    requires c.VmiClass? && i <= k < |c.bases|
    ensures Any(SeenInBase(vb, skip, dst, p, c.bases[k])) ==> Any(SeenFrom(vb, skip, dst, c, p, i))
  {
    if q :| q in SeenInBase(vb, skip, dst, p, c.bases[k]) {
      assert q in SeenFrom(vb, skip, dst, c, p, i);
    }
  }

  lemma FirstMerged(flags: Details, b: BaseInfo, more: set<int>, public: bool, v: Upcasting)
    requires Judged(more, public, v) && Any(more)
    ensures
      var merged := Merged(flags, NOTHING, ThroughBase(b, v));
      && Judged(more, public && b.isPublic, merged.0)
      && (merged.1 <==> Several(more) || !(public && b.isPublic) || flags & NON_DIAMOND_REPEAT_MASK == 0)
  {
  }

  lemma NextMerged(flags: Details, acc: Upcasting, b: BaseInfo, before: set<int>, more: set<int>, public: bool,
                   v: Upcasting)
    requires Judged(more, public, v) && Any(more) && NULL !in before + more
    requires Judged(before, true, acc) && Any(before) && !Several(before)
    ensures
      var merged := Merged(flags, acc, ThroughBase(b, v));
      Judged(before + more, true, merged.0) && (merged.1 <==> Several(before + more))
  {
    if !Several(more) {
      assert v.dstPtr in before + more && acc.dstPtr in before + more;
      assert forall q :: q in more ==> q == v.dstPtr;
      assert forall q :: q in before ==> q == acc.dstPtr;
    } else {
      assert Several(before + more);
    }
  }

  // ---------- Catching by a base class ----------

  // dst is an unambiguous public base of c, or c itself (section 15.3 paragraph 3 of ISO C++14).
  ghost predicate UnambiguousPublic(vb: VirtualBases, dst: ClassType, c: ClassType, p: int) {
    exists d :: Places(vb, false, c, p, dst) == {d} && d in Places(vb, true, c, p, dst)
  }

  // What the search takes for that: a first path of public bases, and one target seen.
  ghost predicate Succeeds(vb: VirtualBases, dst: ClassType, c: ClassType, p: int) {
    var skip := SkipsPrivate(FirstFlags(c));
    FirstPublic(vb, skip, dst, c, p) && !Several(Seen(vb, skip, dst, c, p))
  }

  // There is one target and a public path to it, but the search takes another path first.
  ghost predicate LatePublic(vb: VirtualBases, dst: ClassType, c: ClassType, p: int) {
    && Any(Places(vb, true, c, p, dst)) && !Several(Places(vb, false, c, p, dst))
    && !FirstPublic(vb, SkipsPrivate(FirstFlags(c)), dst, c, p)
  }

  // There are several targets, but all but one are behind first paths that are not public.
  ghost predicate HiddenRival(vb: VirtualBases, dst: ClassType, c: ClassType, p: int) {
    var skip := SkipsPrivate(FirstFlags(c));
    && Several(Places(vb, false, c, p, dst))
    && FirstPublic(vb, skip, dst, c, p) && !Several(Seen(vb, skip, dst, c, p))
  }

  // The upcast of a thrown object: whether it succeeds, and the adjusted pointer.
  method Upcast(vb: VirtualBases, dst: ClassType, c: ClassType, objPtr: int) returns (ok: bool, ptr: int)
    ensures
      var v := Search(vb, dst, c, objPtr, FLAGS_UNKNOWN_MASK);
      (ok <==> ContainedPublic(v.part2dst)) && ptr == if ok then v.dstPtr else objPtr
    ensures NonNull(vb, c, objPtr) && FlagsSound(vb, c, objPtr) ==> (ok <==> Succeeds(vb, dst, c, objPtr))
    ensures NonNull(vb, c, objPtr) && FlagsSound(vb, c, objPtr) ==>
      ((ok <==> UnambiguousPublic(vb, dst, c, objPtr)) <==>
       !LatePublic(vb, dst, c, objPtr) && !HiddenRival(vb, dst, c, objPtr))
    ensures NonNull(vb, c, objPtr) && FlagsSound(vb, c, objPtr) && ok ==>
      && (exists path :: Leads(true, c, dst, path) && EndOfPath(vb, c, objPtr, path) == ptr)
      && (!HiddenRival(vb, dst, c, objPtr) ==>
            && Places(vb, false, c, objPtr, dst) == {ptr}
            && forall path :: Leads(false, c, dst, path) ==> EndOfPath(vb, c, objPtr, path) == ptr)
  {
    var result := new UpcastResult(FLAGS_UNKNOWN_MASK);
    var found := DoUpcast(vb, dst, c, objPtr, result);
    if NonNull(vb, c, objPtr) && FlagsSound(vb, c, objPtr) {
      SearchSucceeds(vb, dst, c, objPtr);
      SucceedsIff(vb, dst, c, objPtr);
      EndsOfPaths(vb, dst, c, objPtr);
    }
    if !ContainedPublic(result.part2dst) {
      return false, objPtr;
    }
    return true, result.dstPtr;
  }

  lemma EndsOfPaths(vb: VirtualBases, dst: ClassType, c: ClassType, p: int)
    ensures forall q :: q in Places(vb, true, c, p, dst) ==>
      exists path :: Leads(true, c, dst, path) && EndOfPath(vb, c, p, path) == q
    ensures forall path :: Leads(false, c, dst, path) ==> EndOfPath(vb, c, p, path) in Places(vb, false, c, p, dst)
  {
    forall q | q in Places(vb, true, c, p, dst)
      ensures exists path :: Leads(true, c, dst, path) && EndOfPath(vb, c, p, path) == q
    {
      PlacesByPaths(vb, true, c, p, dst, q);
    }
    forall path | Leads(false, c, dst, path) ensures EndOfPath(vb, c, p, path) in Places(vb, false, c, p, dst) {
      PlaceAtEnd(vb, false, c, p, dst, path);
    }
  }

  // On every hierarchy, the first path found decides.
  lemma SearchSucceeds(vb: VirtualBases, dst: ClassType, c: ClassType, p: int)
    requires NonNull(vb, c, p) && FlagsSound(vb, c, p)
    ensures
      var v := Search(vb, dst, c, p, FLAGS_UNKNOWN_MASK);
      && (ContainedPublic(v.part2dst) <==> Succeeds(vb, dst, c, p))
      && (ContainedPublic(v.part2dst) ==>
            v.dstPtr in Places(vb, true, c, p, dst)
              && (!HiddenRival(vb, dst, c, p) ==> Places(vb, false, c, p, dst) == {v.dstPtr}))
  {
    var skip, v := SkipsPrivate(FirstFlags(c)), Search(vb, dst, c, p, FLAGS_UNKNOWN_MASK);
    SearchShows(vb, dst, c, p, FLAGS_UNKNOWN_MASK);
    SeenSome(vb, skip, dst, c, p);
    PlacesMonotone(vb, c, p, dst);
    if FirstPublic(vb, skip, dst, c, p) {
      var q := FirstIsPublic(vb, skip, dst, c, p);
    }
    if ContainedPublic(v.part2dst) && !HiddenRival(vb, dst, c, p) {
      forall q | q in Places(vb, false, c, p, dst) ensures q == v.dstPtr {}
      assert Places(vb, false, c, p, dst) == {v.dstPtr};
    }
  }

  lemma FirstIsPublic(vb: VirtualBases, skip: bool, dst: ClassType, c: ClassType, p: int) returns (q: int)
    requires FirstPublic(vb, skip, dst, c, p)
    ensures q in Places(vb, true, c, p, dst) && q in Seen(vb, skip, dst, c, p)
    decreases c
  {
    if c == dst {
      q := p;
    } else {
      match c
      case SiClass(_, base) => q := FirstIsPublic(vb, skip, dst, base, p);
      case VmiClass(_, _, bases) =>
        var j := FirstBase(vb, skip, dst, c, p, |bases|);
        q := FirstIsPublic(vb, skip, dst, bases[j].cls, ConvertToBase(vb, p, bases[j]));
        assert q in PlacesInBase(vb, true, p, bases[j], dst) && q in SeenInBase(vb, skip, dst, p, bases[j]);
    }
  }

  // The upcast is right, on every hierarchy, exactly if a public path is not found too late and a
  // rival is not hidden.
  lemma SucceedsIff(vb: VirtualBases, dst: ClassType, c: ClassType, p: int)
    ensures (Succeeds(vb, dst, c, p) <==> UnambiguousPublic(vb, dst, c, p)) <==>
            !LatePublic(vb, dst, c, p) && !HiddenRival(vb, dst, c, p)
  {
    var skip := SkipsPrivate(FirstFlags(c));
    PlacesMonotone(vb, c, p, dst);
    SeenSome(vb, skip, dst, c, p);
    OneTarget(vb, dst, c, p);
    if FirstPublic(vb, skip, dst, c, p) {
      var q := FirstIsPublic(vb, skip, dst, c, p);
    }
  }

  lemma OneTarget(vb: VirtualBases, dst: ClassType, c: ClassType, p: int)
    ensures UnambiguousPublic(vb, dst, c, p) <==>
            Any(Places(vb, true, c, p, dst)) && !Several(Places(vb, false, c, p, dst))
  {
    PlacesMonotone(vb, c, p, dst);
    if d :| d in Places(vb, true, c, p, dst) {
      if !Several(Places(vb, false, c, p, dst)) {
        forall q | q in Places(vb, false, c, p, dst) ensures q == d {}
        assert Places(vb, false, c, p, dst) == {d};
      }
    }
  }

  // ---------- Hierarchies on which the upcast is right ----------

  // With only public bases, and where nothing is repeated, and without virtual bases.
  lemma NeverMisjudged(vb: VirtualBases, dst: ClassType, c: ClassType, p: int)
    requires FlagsSound(vb, c, p)
    requires AllPublic(c) || SkipsPrivate(FirstFlags(c)) || (NoVirtual(c) && Distinct(vb, c, p))
    ensures Succeeds(vb, dst, c, p) <==> UnambiguousPublic(vb, dst, c, p)
    ensures !LatePublic(vb, dst, c, p) && !HiddenRival(vb, dst, c, p)
  {
    var skip := SkipsPrivate(FirstFlags(c));
    SucceedsIff(vb, dst, c, p);
    if AllPublic(c) {
      AllPublicPlaces(vb, c, p, dst);
      AllSeen(vb, skip, dst, c, p);
    } else if skip {
      FirstFlagsSound(vb, c, p);
      if Any(Places(vb, true, c, p, dst)) {
        FirstOfPublic(vb, dst, c, p);
      }
    } else {
      OneWay(vb, dst, c, p);
    }
  }

  lemma AllSeen(vb: VirtualBases, skip: bool, dst: ClassType, c: ClassType, p: int)
    requires AllPublic(c)
    ensures Any(Places(vb, skip, c, p, dst)) ==> FirstPublic(vb, skip, dst, c, p)
    ensures Seen(vb, skip, dst, c, p) == Places(vb, skip, c, p, dst)
    decreases c, 1
  {
    if c == dst {
      OnlyItself(vb, skip, c, p);
    } else {
      match c
      case Class(_) =>
      case SiClass(_, base) => AllSeen(vb, skip, dst, base, p);
      case VmiClass(_, _, bases) =>
        var j := FirstBase(vb, skip, dst, c, p, |bases|);
        if j >= 0 {
          AllSeen(vb, skip, dst, bases[j].cls, ConvertToBase(vb, p, bases[j]));
          AllSeenInBases(vb, skip, dst, c, p);
        } else {
          forall q ensures q !in Places(vb, skip, c, p, dst) {}
        }
    }
  }

  lemma AllSeenInBases(vb: VirtualBases, skip: bool, dst: ClassType, c: ClassType, p: int)
    requires AllPublic(c) && c.VmiClass? && c != dst && FirstPublic(vb, skip, dst, c, p)
    ensures Seen(vb, skip, dst, c, p) == Places(vb, skip, c, p, dst)
    decreases c, 0
  {
    SeenInSomeBase(vb, skip, dst, c, p);
    forall q | q in Places(vb, skip, c, p, dst) ensures q in Seen(vb, skip, dst, c, p) {
      var k: nat :| k < |c.bases| && q in PlacesInBase(vb, skip, p, c.bases[k], dst);
      AllSeen(vb, skip, dst, c.bases[k].cls, ConvertToBase(vb, p, c.bases[k]));
      assert q in SeenInBase(vb, skip, dst, p, c.bases[k]);
    }
  }

  lemma FirstOfPublic(vb: VirtualBases, dst: ClassType, c: ClassType, p: int)
    requires Any(Places(vb, true, c, p, dst))
    ensures FirstPublic(vb, true, dst, c, p)
    decreases c
  {
    if c != dst {
      match c
      case SiClass(_, base) => FirstOfPublic(vb, dst, base, p);
      case VmiClass(_, _, bases) =>
        var j := FirstBase(vb, true, dst, c, p, |bases|);
        FirstOfPublic(vb, dst, bases[j].cls, ConvertToBase(vb, p, bases[j]));
    }
  }

  lemma OneWay(vb: VirtualBases, dst: ClassType, c: ClassType, p: int)
    requires NoVirtual(c) && Distinct(vb, c, p)
    ensures
      var places := Places(vb, false, c, p, dst);
      && (Any(Places(vb, true, c, p, dst)) && !Several(places) ==> FirstPublic(vb, false, dst, c, p))
      && (FirstPublic(vb, false, dst, c, p) && Several(places) ==> Several(Seen(vb, false, dst, c, p)))
    decreases c
  {
    if c == dst {
      OnlyItself(vb, false, c, p);
    } else {
      match c
      case Class(_) =>
      case SiClass(_, base) => OneWay(vb, dst, base, p);
      case VmiClass(_, _, bases) =>
        var j := FirstBase(vb, false, dst, c, p, |bases|);
        if j >= 0 {
          OneWay(vb, dst, bases[j].cls, ConvertToBase(vb, p, bases[j]));
          OneWayPublic(vb, dst, c, p, j);
          OneWaySeen(vb, dst, c, p, j);
        } else {
          NoneFound(vb, dst, c, p);
        }
    }
  }

  lemma OneWayPublic(vb: VirtualBases, dst: ClassType, c: ClassType, p: int, j: nat)
    requires c.VmiClass? && c != dst && Distinct(vb, c, p) && j == FirstBase(vb, false, dst, c, p, |c.bases|)
    requires
      var base, q := c.bases[j].cls, ConvertToBase(vb, p, c.bases[j]);
      Any(Places(vb, true, base, q, dst)) && !Several(Places(vb, false, base, q, dst)) ==>
        FirstPublic(vb, false, dst, base, q)
    ensures Any(Places(vb, true, c, p, dst)) && !Several(Places(vb, false, c, p, dst)) ==>
      FirstPublic(vb, false, dst, c, p)
  {
    PlacesMonotone(vb, c, p, dst);
    if !Several(Places(vb, false, c, p, dst)) {
      if q :| q in Places(vb, true, c, p, dst) {
        var i := ChooseBase(vb, true, c, p, dst, q);
        var d :| d in PlacesInBase(vb, false, p, c.bases[j], dst);
        assert d in Places(vb, false, c, p, dst);
        SameBase(vb, c, p, i, j, dst, q);
        forall e | e in Places(vb, false, c.bases[j].cls, ConvertToBase(vb, p, c.bases[j]), dst)
          ensures e in Places(vb, false, c, p, dst)
        {
          assert e in PlacesInBase(vb, false, p, c.bases[j], dst);
        }
      }
    }
  }

  lemma NoneFound(vb: VirtualBases, dst: ClassType, c: ClassType, p: int)
    requires c.VmiClass? && c != dst && FirstBase(vb, false, dst, c, p, |c.bases|) < 0
    ensures !Any(Places(vb, true, c, p, dst)) && !FirstPublic(vb, false, dst, c, p)
  {
    if q :| q in Places(vb, true, c, p, dst) {
      var i := ChooseBase(vb, true, c, p, dst, q);
      assert Any(PlacesInBase(vb, false, p, c.bases[i], dst));
    }
  }

  lemma OneWaySeen(vb: VirtualBases, dst: ClassType, c: ClassType, p: int, j: nat)
    requires c.VmiClass? && c != dst && Distinct(vb, c, p) && j == FirstBase(vb, false, dst, c, p, |c.bases|)
    requires
      var base, q := c.bases[j].cls, ConvertToBase(vb, p, c.bases[j]);
      FirstPublic(vb, false, dst, base, q) && Several(Places(vb, false, base, q, dst)) ==>
        Several(Seen(vb, false, dst, base, q))
    ensures FirstPublic(vb, false, dst, c, p) && Several(Places(vb, false, c, p, dst)) ==>
      Several(Seen(vb, false, dst, c, p))
  {
    if FirstPublic(vb, false, dst, c, p) && Several(Places(vb, false, c, p, dst)) {
      if k: nat :| k < |c.bases| && k != j && Any(PlacesInBase(vb, false, p, c.bases[k], dst)) {
        TwoSeen(vb, dst, c, p, j, k);
      } else {
        var d, e :| d in Places(vb, false, c, p, dst) && e in Places(vb, false, c, p, dst) && d != e;
        OnlyThere(vb, dst, c, p, j, d);
        OnlyThere(vb, dst, c, p, j, e);
        SeenThrough(vb, dst, c, p, j);
      }
    }
  }

  lemma OnlyThere(vb: VirtualBases, dst: ClassType, c: ClassType, p: int, j: nat, q: int)
    requires c.VmiClass? && c != dst && j < |c.bases| && q in Places(vb, false, c, p, dst)
    requires forall k: nat :: k < |c.bases| && k != j ==> !Any(PlacesInBase(vb, false, p, c.bases[k], dst))
    ensures q in Places(vb, false, c.bases[j].cls, ConvertToBase(vb, p, c.bases[j]), dst)
  {
    var k := ChooseBase(vb, false, c, p, dst, q);
    assert k == j || Any(PlacesInBase(vb, false, p, c.bases[k], dst));
  }

  lemma SeenThrough(vb: VirtualBases, dst: ClassType, c: ClassType, p: int, j: nat)
    requires c.VmiClass? && c != dst && j < |c.bases| && FirstPublic(vb, false, dst, c, p)
    requires Several(Seen(vb, false, dst, c.bases[j].cls, ConvertToBase(vb, p, c.bases[j])))
    ensures Several(Seen(vb, false, dst, c, p))
  {
    var seen := SeenInBase(vb, false, dst, p, c.bases[j]);
    var d, e :| d in seen && e in seen && d != e;
    assert d in Seen(vb, false, dst, c, p) && e in Seen(vb, false, dst, c, p);
  }

  lemma TwoSeen(vb: VirtualBases, dst: ClassType, c: ClassType, p: int, j: nat, k: nat)
    requires c.VmiClass? && c != dst && Distinct(vb, c, p) && FirstPublic(vb, false, dst, c, p)
    requires j < |c.bases| && Any(PlacesInBase(vb, false, p, c.bases[j], dst))
    requires k < |c.bases| && Any(PlacesInBase(vb, false, p, c.bases[k], dst)) && j != k
    ensures Several(Seen(vb, false, dst, c, p))
  {
    SomeInBase(vb, false, dst, p, c.bases[j]);
    SomeInBase(vb, false, dst, p, c.bases[k]);
    var d :| d in SeenInBase(vb, false, dst, p, c.bases[j]);
    var e :| e in SeenInBase(vb, false, dst, p, c.bases[k]);
    assert d in PlacesInBase(vb, false, p, c.bases[j], dst);
    assert e in PlacesInBase(vb, false, p, c.bases[k], dst);
    if d == e {
      SameBase(vb, c, p, j, k, dst, d);
    }
    assert d in Seen(vb, false, dst, c, p) && e in Seen(vb, false, dst, c, p);
  }

  // With only public bases, an upcast asks for exactly one subobject of the class.
  lemma AllPublicUpcast(vb: VirtualBases, dst: ClassType, c: ClassType, p: int)
    requires AllPublic(c)
    ensures UnambiguousPublic(vb, dst, c, p) <==> exists d :: Places(vb, false, c, p, dst) == {d}
  {
    AllPublicPlaces(vb, c, p, dst);
  }

  // Where nothing is repeated, an upcast asks for some path of public bases.
  lemma NoRepeatUpcast(vb: VirtualBases, dst: ClassType, c: ClassType, p: int)
    requires NoRepeats(vb, c, p)
    ensures UnambiguousPublic(vb, dst, c, p) <==> exists d :: d in Places(vb, true, c, p, dst)
  {
    OneTarget(vb, dst, c, p);
  }

  // An instance: a second base at offset 16.
  //   struct E: A, B {};
  lemma SecondBaseFound(vb: VirtualBases)
    ensures
      var e := VmiClass(3, 0, [BaseInfo(Class(1), true, false, 0), BaseInfo(Class(2), true, false, 16)]);
      && Search(vb, Class(2), e, 4096, FLAGS_UNKNOWN_MASK) == Upcasting(4112, CONTAINED_PUBLIC, NonvirtualBase)
      && Leads(true, e, Class(2), [1]) && EndOfPath(vb, e, 4096, [1]) == 4112
  {
    var e := VmiClass(3, 0, [BaseInfo(Class(1), true, false, 0), BaseInfo(Class(2), true, false, 16)]);
    var found := Upcasting(4112, CONTAINED_PUBLIC, NonvirtualBase);
    assert Search(vb, Class(2), Class(2), 4112, 0) == found;
    assert SearchFrom(vb, Class(2), e, 4096, 0, 2, NOTHING) == found;
    assert LastVirtual(e, [1]) == None && Offsets(e, [1]) == 16 by {
      assert [1][1..] == [];
    }
    assert Leads(true, Class(2), Class(2), [1][1..]);
  }

  // ---------- Hierarchies on which it is not ----------

  // T is a public virtual base, and once more a virtual base of a private one; X is there twice.
  //   struct A: X {};  struct B: X {};  struct P: virtual T {};  struct C: A, B, virtual T, private P {};
  function T(): ClassType { Class(1) }

  function X(): ClassType { Class(2) }

  function C(): ClassType {
    VmiClass(6, NON_DIAMOND_REPEAT_MASK | DIAMOND_SHAPED_MASK, [
               BaseInfo(SiClass(3, X()), true, false, 0), BaseInfo(SiClass(4, X()), true, false, 8),
               BaseInfo(T(), true, true, -24),
               BaseInfo(VmiClass(5, 0, [BaseInfo(T(), true, true, -24)]), false, false, 16)])
  }

  // The handler for the unambiguous public base T does not catch a C.
  lemma PublicBaseMissed(vb: VirtualBases, p: int)
    requires p > NULL
    ensures UnambiguousPublic(vb, T(), C(), p)
    ensures !ContainedPublic(Search(vb, T(), C(), p, FLAGS_UNKNOWN_MASK).part2dst)
  {
    var c, t := C(), T();
    var P := c.bases[3].cls;
    assert c.bases[2].cls == t;
    assert vb(t) in PlacesInBase(vb, true, p, c.bases[2], t);
    assert vb(t) in Places(vb, true, c, p, t);
    forall q | q in Places(vb, false, c, p, t) ensures q == vb(t) {
      var k: nat :| k < 4 && q in PlacesInBase(vb, false, p, c.bases[k], t);
    }
    OneTarget(vb, t, c, p);
    assert c.flags == 3 && P.bases[0] == BaseInfo(t, true, true, -24);
    assert Search(vb, t, t, vb(t), c.flags) == Upcasting(vb(t), CONTAINED_PUBLIC, NonvirtualBase);
    assert SearchFrom(vb, t, P, p + 16, c.flags, 1, NOTHING) == Upcasting(vb(t), CONTAINED_PUBLIC, InVirtualBase(t));
    assert Search(vb, t, P, p + 16, c.flags) == Upcasting(vb(t), CONTAINED_PUBLIC, InVirtualBase(t));
    assert SearchFrom(vb, t, c, p, c.flags, 4, NOTHING) == Upcasting(vb(t), CONTAINED_PRIVATE, InVirtualBase(t));
  }

  // T is there twice: as a virtual base, and in N, beside which T is a virtual base of B as well.
  //   struct N: T {};  struct B: N, virtual T {};  struct D: B, virtual T {};
  function B(publicly: bool): ClassType {
    VmiClass(8, NON_DIAMOND_REPEAT_MASK, [
               BaseInfo(SiClass(7, T()), true, false, 0), BaseInfo(T(), publicly, true, -24)])
  }

  function D(publicly: bool): ClassType {
    VmiClass(9, NON_DIAMOND_REPEAT_MASK, [BaseInfo(B(publicly), true, false, 0), BaseInfo(T(), true, true, -24)])
  }

  lemma TwiceThere(vb: VirtualBases, publicly: bool, p: int)
    requires vb(T()) != p
    ensures Several(Places(vb, false, D(publicly), p, T())) && !UnambiguousPublic(vb, T(), D(publicly), p)
  {
    var d, b, t := D(publicly), B(publicly), T();
    assert d.bases[0].cls == b && d.bases[1].cls == t && b.bases[0].cls.base == t;
    assert p in Places(vb, false, b.bases[0].cls, p, t);
    assert p in PlacesInBase(vb, false, p, b.bases[0], t);
    assert p in PlacesInBase(vb, false, p, d.bases[0], t);
    assert vb(t) in PlacesInBase(vb, false, p, d.bases[1], t);
    assert p in Places(vb, false, d, p, t) && vb(t) in Places(vb, false, d, p, t);
    OneTarget(vb, t, d, p);
  }

  // Where T is a private base of B, the handler for the ambiguous base T catches a D.
  lemma AmbiguousBaseCaught(vb: VirtualBases, p: int)
    requires p > NULL && vb(T()) != p
    ensures !UnambiguousPublic(vb, T(), D(false), p)
    ensures ContainedPublic(Search(vb, T(), D(false), p, FLAGS_UNKNOWN_MASK).part2dst)
  {
    var d, b, t := D(false), B(false), T();
    TwiceThere(vb, false, p);
    assert d.flags == 1 && b.flags == 1 && d.bases[0].cls == b;
    assert Search(vb, t, t, vb(t), d.flags) == Upcasting(vb(t), CONTAINED_PUBLIC, NonvirtualBase);
    assert SearchFrom(vb, t, b, p, d.flags, 2, NOTHING) == Upcasting(vb(t), CONTAINED_PRIVATE, InVirtualBase(t));
    assert Search(vb, t, b, p, d.flags) == Upcasting(vb(t), CONTAINED_PRIVATE, InVirtualBase(t));
    var found := Upcasting(vb(t), CONTAINED_PUBLIC, InVirtualBase(t));
    assert SearchFrom(vb, t, d, p, d.flags, 1, found) == found;
    assert SearchFrom(vb, t, d, p, d.flags, 2, NOTHING) == found;
  }

  // With only public bases, D converts to T if the pointer is null, and otherwise does not.
  lemma NullConverts(vb: VirtualBases, p: int)
    requires p > NULL && vb(T()) !in {p, NULL}
    ensures ContainedPublic(Search(vb, T(), D(true), NULL, FLAGS_UNKNOWN_MASK).part2dst)
    ensures !ContainedPublic(Search(vb, T(), D(true), p, FLAGS_UNKNOWN_MASK).part2dst)
  {
    var d, b, t := D(true), B(true), T();
    assert d.flags == 1 && b.flags == 1 && d.bases[0].cls == b && b.bases[0].cls.base == t;
    SearchOfB(vb, p);
    SearchOfB(vb, NULL);
    var found := Upcasting(NULL, CONTAINED_PUBLIC, InVirtualBase(t));
    assert Search(vb, t, t, NULL, d.flags) == Upcasting(NULL, CONTAINED_PUBLIC, NonvirtualBase);
    assert SearchFrom(vb, t, d, NULL, d.flags, 1, found) == found;
    assert SearchFrom(vb, t, d, NULL, d.flags, 2, NOTHING) == found;
    var found' := Upcasting(vb(t), CONTAINED_PUBLIC, InVirtualBase(t));
    assert Search(vb, t, t, vb(t), d.flags) == Upcasting(vb(t), CONTAINED_PUBLIC, NonvirtualBase);
    assert SearchFrom(vb, t, d, p, d.flags, 1, found') == Upcasting(NULL, CONTAINED_AMBIG, InVirtualBase(t));
    assert SearchFrom(vb, t, d, p, d.flags, 2, NOTHING) == Upcasting(NULL, CONTAINED_AMBIG, InVirtualBase(t));
  }

  lemma SearchOfB(vb: VirtualBases, p: int)
    requires vb(T()) !in {p, NULL} && p >= NULL
    ensures Search(vb, T(), B(true), p, 1) == Upcasting(NULL, CONTAINED_AMBIG, InVirtualBase(T()))
  {
    var b, t := B(true), T();
    var q := if p == NULL then NULL else vb(t);
    var found := Upcasting(q, CONTAINED_PUBLIC, InVirtualBase(t));
    assert Search(vb, t, t, q, 1) == Upcasting(q, CONTAINED_PUBLIC, NonvirtualBase);
    assert Search(vb, t, b.bases[0].cls, p, 1) == Upcasting(p, CONTAINED_PUBLIC, NonvirtualBase);
    assert SearchFrom(vb, t, b, p, 1, 1, found) == Upcasting(NULL, CONTAINED_AMBIG, InVirtualBase(t));
    assert SearchFrom(vb, t, b, p, 1, 2, NOTHING) == Upcasting(NULL, CONTAINED_AMBIG, InVirtualBase(t));
  }
}
