// The search behind dynamic_cast: it walks the bases of an object lazily, guided by a hint,
// in one or two passes, and stops as soon as the answer is certain.
module DyncastSearch {
  import opened ClassTypes
  import opened Subobjects
  import opened FindPublicSrc

  // What a search records while it walks a hierarchy.
  class DyncastResult {
    var dstPtr: int          // the target, or NULL
    var whole2dst: SubKind   // path from the most derived object to the target
    var whole2src: SubKind   // path from the most derived object to the source
    var dst2src: SubKind     // path from the target to the source
    var wholeDetails: Details

    constructor (details: Details)
      ensures Fresh() && wholeDetails == details
    {
      dstPtr, whole2dst, whole2src, dst2src := NULL, UNKNOWN, UNKNOWN, UNKNOWN;
      wholeDetails := details;
    }

    ghost predicate Fresh()
      reads this
    {
      View() == Finding(NULL, UNKNOWN, UNKNOWN, UNKNOWN)
    }

    ghost function View(): Finding
      reads this
    {
      Finding(dstPtr, whole2dst, whole2src, dst2src)
    }
  }

  datatype Finding = Finding(dstPtr: int, whole2dst: SubKind, whole2src: SubKind, dst2src: SubKind)

  // ---------- What a search of one subobject establishes ----------

  // How a subobject x at q of c at p is reached from the most derived object, when c itself is
  // reached with the given access.
  ghost function Access(query: Query, c: ClassType, p: int, access: SubKind, x: ClassType, q: int): SubKind {
    if access == CONTAINED_PUBLIC && q in Places(query.vb, true, c, p, x) then CONTAINED_PUBLIC else CONTAINED_PRIVATE
  }

  ghost predicate InDst(query: Query, d: int) {
    query.srcPtr in Places(query.vb, false, query.dst, d, query.src)
  }

  // The source lies in c, and in none of the targets in c.
  ghost predicate SrcFree(query: Query, c: ClassType, p: int) {
    && query.srcPtr in Places(query.vb, false, c, p, query.src)
    && forall d :: d in Places(query.vb, false, c, p, query.dst) ==> !InDst(query, d)
  }

  // The search need not enter private bases: src is not a public base of dst and no class is repeated.
  ghost predicate SkipsPrivate(query: Query, details: Details) {
    query.hint == -2 && details & (NON_DIAMOND_REPEAT_MASK | DIAMOND_SHAPED_MASK) == 0
  }

  // The finding v, with its ambiguity mark, sums up the targets in found without knowing that
  // one of them holds the source.
  ghost predicate Tally(query: Query, c: ClassType, p: int, access: SubKind, found: set<int>, v: Finding, ambig: bool) {
    && (v.dst2src == UNKNOWN || v.dst2src == NOT_CONTAINED)
    && (v.dstPtr == NULL && !ambig ==> found == {} && v.dst2src == UNKNOWN)
    && (v.dstPtr == NULL && ambig ==>
          && (exists d, e :: d in found && e in found && d != e)
          && forall d :: d in found ==> !Holds(query, d))
    && (v.dstPtr != NULL ==>
          && !ambig
          && found == {v.dstPtr}
          && v.whole2dst == Access(query, c, p, access, query.dst, v.dstPtr)
          && (v.dst2src == NOT_CONTAINED ==> KnownOutside(query, v.dstPtr)))
  }

  // The target at d is known not to hold the source publicly: because it does not hold it at all,
  // or by the hint.
  ghost predicate KnownOutside(query: Query, d: int) {
    !Holds(query, d) && (HintAnswers(query) || !InDst(query, d))
  }

  ghost predicate HitTarget(query: Query, found: set<int>, v: Finding, ambig: bool) {
    v.dst2src == CONTAINED_PUBLIC && !ambig && v.dstPtr in found && Holds(query, v.dstPtr)
  }

  // Two targets both claim the source, so neither is chosen.
  ghost predicate HitBoth(query: Query, found: set<int>, v: Finding, ambig: bool) {
    && v.dst2src == CONTAINED_AMBIG && ambig && v.dstPtr == NULL
    && exists d, e :: d in found && e in found && d != e && Holds(query, d) && Holds(query, e)
  }

  ghost predicate HitPrivateSrc(query: Query, c: ClassType, p: int, access: SubKind, v: Finding) {
    && (v.dst2src == UNKNOWN || v.dst2src == NOT_CONTAINED)
    && v.whole2src == CONTAINED_PRIVATE
    && SrcFree(query, c, p)
    && Access(query, c, p, access, query.src, query.srcPtr) == CONTAINED_PRIVATE
  }

  ghost predicate SawSrc(query: Query, c: ClassType, p: int, access: SubKind, whole2src: SubKind) {
    && whole2src == CONTAINED_PUBLIC
    && SrcFree(query, c, p)
    && Access(query, c, p, access, query.src, query.srcPtr) == CONTAINED_PUBLIC
  }

  ghost predicate MissedSrc(query: Query, skip: bool, c: ClassType, p: int, whole2src: SubKind) {
    && whole2src == UNKNOWN
    && (query.srcPtr in Places(query.vb, skip, c, p, query.src) ==>
          exists d :: d in Places(query.vb, skip, c, p, query.dst) && InDst(query, d))
  }

  ghost predicate Outcome(query: Query, skip: bool, c: ClassType, p: int, access: SubKind, v: Finding, ambig: bool) {
    var found := Places(query.vb, skip, c, p, query.dst);
    || HitTarget(query, found, v, ambig)
    || HitPrivateSrc(query, c, p, access, v)
    || (Tally(query, c, p, access, found, v, ambig)
        && (SawSrc(query, c, p, access, v.whole2src) || MissedSrc(query, skip, c, p, v.whole2src)))
  }

  // ---------- What a search may rely on ----------

  ghost predicate AtMostOne(s: set<int>) {
    forall d, e :: d in s && e in s ==> d == e
  }

  // Wherever the helper is asked about one of several targets, its answer is right.
  ghost predicate Reliable(query: Query, targets: set<int>) {
    (forall d :: d in targets ==> FindsRight(query, d)) || (!HintAnswers(query) && AtMostOne(targets))
  }

  ghost predicate Ready(query: Query, c: ClassType, p: int) {
    && NoVirtual(c) && NoVirtual(query.dst)
    && Distinct(query.vb, c, p) && FlagsSound(query.vb, c, p)
    && query.dst != query.src
    && (forall q :: Places(query.vb, false, query.src, q, query.dst) == {})
    && NULL !in Places(query.vb, false, c, p, query.dst)
    && (HintAnswers(query) ==> forall d :: d in Places(query.vb, false, c, p, query.dst) ==> FindsRight(query, d))
    && (!HintAnswers(query) ==> Guarded(query, c, p))
    && !Holds(query, NULL) && FindsRight(query, NULL)
  }

  // Wherever the search may compare targets, it has seen the source outside them, or there is one
  // target only, or none of them misleads.
  ghost predicate Guarded(query: Query, c: ClassType, p: int)
    decreases c
  {
    match c
    case Class(_) => true
    case SiClass(_, base) => Guarded(query, base, p)
    case VmiClass(_, _, bases) =>
      forall i :: 0 <= i < |bases| ==>
        && Guarded(query, bases[i].cls, ConvertToBase(query.vb, p, bases[i]))
        && (SeenFrom(query, c, p, i) || Comparable(query, FoundIn(query, false, c, p, IndicesFrom(c, i))))
  }

  ghost function IndicesFrom(c: ClassType, i: int): set<nat>
    requires c.VmiClass?
  {
    set j: nat | j < |c.bases| && AtOrBehind(i, j)
  }

  predicate AtOrBehind(i: int, j: nat) { i <= j }

  // The source lies in base i or a later one, which the search enters before, outside all targets.
  ghost predicate SeenFrom(query: Query, c: ClassType, p: int, i: int)
    requires c.VmiClass?
  {
    exists j: nat :: i <= j < |c.bases| && SeenIn(query, p, c.bases[j])
  }

  ghost predicate SeenIn(query: Query, p: int, b: BaseInfo) {
    && query.srcPtr in PlacesInBase(query.vb, false, p, b, query.src)
    && forall d :: d in PlacesInBase(query.vb, false, p, b, query.dst) ==> !InDst(query, d)
  }

  ghost predicate Comparable(query: Query, targets: set<int>) {
    AtMostOne(targets) || forall d :: d in targets ==> !Misleads(query, d)
  }

  lemma ComparableIsReliable(query: Query, targets: set<int>)
    requires NoVirtual(query.dst) && !HintAnswers(query) && Comparable(query, targets)
    ensures Reliable(query, targets)
  {
    forall d | d in targets && !Misleads(query, d) ensures FindsRight(query, d) {
      FindsExactly(query, query.dst, d);
    }
  }

  // ---------- Virtual bases ----------

  // Where virtual bases are allowed, every base is public and no class is repeated.
  ghost predicate OpenReady(query: Query, c: ClassType, p: int) {
    && AllPublic(c) && NoRepeats(query.vb, c, p) && FlagsSound(query.vb, c, p)
    && query.dst != query.src
    && (forall q :: Places(query.vb, false, query.src, q, query.dst) == {})
    && NULL !in Places(query.vb, false, c, p, query.dst)
    && (HintAnswers(query) ==> forall d :: d in Places(query.vb, false, c, p, query.dst) ==> FindsRight(query, d))
  }

  // The one target in found, if any, with what is known of it.
  ghost predicate OpenTally(query: Query, found: set<int>, v: Finding, ambig: bool) {
    && !ambig
    && (if v.dstPtr == NULL then found == {} else found == {v.dstPtr} && ContainedPublic(v.whole2dst))
    && (v.dst2src == UNKNOWN
        || (v.dstPtr != NULL && v.dst2src == if Holds(query, v.dstPtr) then CONTAINED_PUBLIC else NOT_CONTAINED))
  }

  ghost predicate OpenSaw(query: Query, c: ClassType, p: int, whole2src: SubKind) {
    ContainedPublic(whole2src) && query.srcPtr in Places(query.vb, false, c, p, query.src)
  }

  ghost predicate OpenOutcome(query: Query, c: ClassType, p: int, v: Finding, ambig: bool) {
    && OpenTally(query, Places(query.vb, false, c, p, query.dst), v, ambig)
    && (OpenSaw(query, c, p, v.whole2src) || MissedSrc(query, false, c, p, v.whole2src))
  }

  ghost predicate OpenProgress(query: Query, c: ClassType, p: int, done: set<nat>, v: Finding, ambig: bool)
    requires c.VmiClass?
  {
    && OpenTally(query, FoundIn(query, false, c, p, done), v, ambig) && v.dst2src != CONTAINED_PUBLIC
    && (OpenSaw(query, c, p, v.whole2src) || MissedIn(query, false, c, p, done, v.whole2src))
  }

  // ---------- Both kinds of hierarchy ----------

  datatype Kind = NoVirtualBases | OnlyPublicBases

  // What the search of a subobject reached with some access may rely on.
  ghost predicate Searchable(query: Query, kind: Kind, c: ClassType, p: int, access: SubKind) {
    match kind
    case NoVirtualBases => Ready(query, c, p) && (access == CONTAINED_PUBLIC || access == CONTAINED_PRIVATE)
    case OnlyPublicBases => OpenReady(query, c, p) && ContainedPublic(access)
  }

  // What the search of a subobject establishes.
  ghost predicate Found(query: Query, kind: Kind, skip: bool, c: ClassType, p: int, access: SubKind, v: Finding,
                        ambig: bool) {
    match kind
    case NoVirtualBases => Outcome(query, skip, c, p, access, v, ambig)
    case OnlyPublicBases => OpenOutcome(query, c, p, v, ambig)
  }

  // What is known while the search goes on, once the bases in done have been searched.
  ghost predicate Going(query: Query, kind: Kind, skip: bool, c: ClassType, p: int, access: SubKind, done: set<nat>,
                        v: Finding, ambig: bool)
    requires c.VmiClass?
  {
    match kind
    case NoVirtualBases => Progress(query, skip, c, p, access, done, v, ambig)
    case OnlyPublicBases => OpenProgress(query, c, p, done, v, ambig)
  }

  // ---------- The search ----------

  method DoDyncast(query: Query, ghost kind: Kind, access: SubKind, c: ClassType, objPtr: int, result: DyncastResult)
    returns (ambig: bool)
    requires Searchable(query, kind, c, objPtr, access) && result.Fresh()
    modifies result
    ensures Found(query, kind, SkipsPrivate(query, EffectiveDetails(c, old(result.wholeDetails))), c, objPtr, access,
                  result.View(), ambig)
    decreases c, 5
  {
    match c
    case Class(_) => ambig := LeafDyncast(query, kind, access, c, objPtr, result);
    case SiClass(_, _) => ambig := SiDyncast(query, kind, access, c, objPtr, result);
    case VmiClass(_, _, _) => ambig := VmiDyncast(query, kind, access, c, objPtr, result);
  }

  method LeafDyncast(query: Query, ghost kind: Kind, access: SubKind, c: ClassType, objPtr: int, result: DyncastResult)
    returns (ambig: bool)
    requires c.Class? && Searchable(query, kind, c, objPtr, access) && result.Fresh()
    modifies result
    ensures Found(query, kind, SkipsPrivate(query, EffectiveDetails(c, old(result.wholeDetails))), c, objPtr, access,
                  result.View(), ambig)
  {
    if objPtr == query.srcPtr && c == query.src {
      result.whole2src := access;
      FoundSource(query, kind, access, objPtr, result.View());
      return false;
    }
    if c == query.dst {
      result.dstPtr := objPtr;
      result.whole2dst := access;
      result.dst2src := NOT_CONTAINED;
      LeafTarget(query, kind, access, objPtr, result.View());
      return false;
    }
    return false;
  }

  // A target without bases does not contain the source.
  lemma LeafTarget(query: Query, kind: Kind, access: SubKind, p: int, v: Finding)
    requires query.dst.Class? && Searchable(query, kind, query.dst, p, access)
    requires v == Finding(p, access, UNKNOWN, NOT_CONTAINED)
    ensures forall skip :: Found(query, kind, skip, query.dst, p, access, v, false)
  {
    assert query.dst != query.src ==> Places(query.vb, true, query.dst, p, query.src) == {};
  }

  lemma FoundSource(query: Query, kind: Kind, access: SubKind, p: int, v: Finding)
    requires p == query.srcPtr && Searchable(query, kind, query.src, p, access)
    requires v == Finding(NULL, UNKNOWN, access, UNKNOWN)
    ensures forall skip :: Found(query, kind, skip, query.src, p, access, v, false)
  {
    PlacesMonotone(query.vb, query.src, p, query.dst);
  }

  method SiDyncast(query: Query, ghost kind: Kind, access: SubKind, c: ClassType, objPtr: int, result: DyncastResult)
    returns (ambig: bool)
    requires c.SiClass? && Searchable(query, kind, c, objPtr, access) && result.Fresh()
    modifies result
    ensures Found(query, kind, SkipsPrivate(query, EffectiveDetails(c, old(result.wholeDetails))), c, objPtr, access,
                  result.View(), ambig)
    decreases c, 0
  {
    if c == query.dst {
      FoundTarget(query, kind, access, objPtr, result);
      return false;
    }
    if objPtr == query.srcPtr && c == query.src {
      result.whole2src := access;
      FoundSource(query, kind, access, objPtr, result.View());
      return false;
    }
    ghost var skip := SkipsPrivate(query, EffectiveDetails(c, result.wholeDetails));
    IntoSi(query, c, objPtr);
    ambig := DoDyncast(query, kind, access, c.base, objPtr, result);
    ThroughSi(query, kind, skip, c, objPtr, access, result.View(), ambig);
  }

  lemma IntoSi(query: Query, c: ClassType, p: int)
    requires c.SiClass? && c != query.dst
    ensures Ready(query, c, p) ==> Ready(query, c.base, p)
    ensures OpenReady(query, c, p) ==> OpenReady(query, c.base, p)
  {
    forall x, q | q in Places(query.vb, false, c.base, p, x) ensures q in Places(query.vb, false, c, p, x) {}
  }

  lemma ThroughSi(query: Query, kind: Kind, skip: bool, c: ClassType, p: int, access: SubKind, v: Finding, ambig: bool)
    requires c.SiClass? && c != query.dst && !(p == query.srcPtr && c == query.src)
    requires Found(query, kind, skip, c.base, p, access, v, ambig)
    ensures Found(query, kind, skip, c, p, access, v, ambig)
  {
    forall po ensures Places(query.vb, po, c, p, query.dst) == Places(query.vb, po, c.base, p, query.dst) {}
    forall po ensures query.srcPtr in Places(query.vb, po, c, p, query.src)
                      <==> query.srcPtr in Places(query.vb, po, c.base, p, query.src) {}
  }

  // The lines shared by the searches of classes with bases once the target class is reached.
  method FoundTarget(query: Query, ghost kind: Kind, access: SubKind, objPtr: int, result: DyncastResult)
    requires !query.dst.Class? && Searchable(query, kind, query.dst, objPtr, access) && result.Fresh()
    modifies result
    ensures forall skip :: Found(query, kind, skip, query.dst, objPtr, access, result.View(), false)
  {
    result.dstPtr := objPtr;
    result.whole2dst := access;
    if query.hint >= 0 {
      result.dst2src := if objPtr + query.hint == query.srcPtr then CONTAINED_PUBLIC else NOT_CONTAINED;
    } else if query.hint == -2 {
      result.dst2src := NOT_CONTAINED;
    }
    TargetItself(query, kind, access, objPtr, result.View());
  }

  lemma TargetItself(query: Query, kind: Kind, access: SubKind, p: int, v: Finding)
    requires !query.dst.Class? && Searchable(query, kind, query.dst, p, access)
    requires v.dstPtr == p && v.whole2dst == access && v.whole2src == UNKNOWN
    requires v.dst2src == UNKNOWN ||
             (HintAnswers(query) && v.dst2src == if FindsSrc(query, p) then CONTAINED_PUBLIC else NOT_CONTAINED)
    ensures forall skip :: Found(query, kind, skip, query.dst, p, access, v, false)
  {
    forall skip ensures Found(query, kind, skip, query.dst, p, access, v, false) {
      OnlyItself(query.vb, skip, query.dst, p);
      OnlyItself(query.vb, true, query.dst, p);
      OnlyItself(query.vb, false, query.dst, p);
      PlacesMonotone(query.vb, query.dst, p, query.src);
    }
  }

  method VmiDyncast(query: Query, ghost kind: Kind, access: SubKind, c: ClassType, objPtr: int, result: DyncastResult)
    returns (ambig: bool)
    requires c.VmiClass? && Searchable(query, kind, c, objPtr, access) && result.Fresh()
    modifies result
    ensures Found(query, kind, SkipsPrivate(query, EffectiveDetails(c, old(result.wholeDetails))), c, objPtr, access,
                  result.View(), ambig)
    decreases c, 4
  {
    if result.wholeDetails & FLAGS_UNKNOWN_MASK != 0 {
      result.wholeDetails := c.flags;
    }
    if objPtr == query.srcPtr && c == query.src {
      result.whole2src := access;
      FoundSource(query, kind, access, objPtr, result.View());
      return false;
    }
    if c == query.dst {
      FoundTarget(query, kind, access, objPtr, result);
      return false;
    }

    ambig := SearchBases(query, kind, access, c, objPtr, result);
  }

  // The loop over the bases, which may run twice.
  method SearchBases(query: Query, ghost kind: Kind, access: SubKind, c: ClassType, objPtr: int, result: DyncastResult)
    returns (ambig: bool)
    requires c.VmiClass? && Searchable(query, kind, c, objPtr, access)
    requires result.Fresh() && result.wholeDetails & FLAGS_UNKNOWN_MASK == 0
    requires c != query.dst && !(objPtr == query.srcPtr && c == query.src)
    modifies result
    ensures Found(query, kind, SkipsPrivate(query, old(result.wholeDetails)), c, objPtr, access, result.View(), ambig)
    decreases c, 3
  {
    // An offset for a hint tells where the target should lie; bases that start beyond that address
    // wait for the second pass.
    var dstCand := NULL;
    if query.hint >= 0 {
      dstCand := query.srcPtr - query.hint;
    }
    var firstPass := true;
    var skipped := false;
    ambig := false;

    ghost var details := result.wholeDetails;
    ghost var skip := SkipsPrivate(query, details);
    var again := true;
    while again
      invariant result.wholeDetails == details
      invariant skipped ==> dstCand != NULL
      invariant again ==>
        && (!firstPass ==> dstCand != NULL)
        && Going(query, kind, skip, c, objPtr, access, Searched(query, dstCand, objPtr, c.bases, firstPass, |c.bases|),
          result.View(), ambig)
      invariant !again ==> Found(query, kind, skip, c, objPtr, access, result.View(), ambig)
      decreases firstPass, again
    {
      again := false;
      var passSkipped, stop;
      ambig, passSkipped, stop := SearchPass(query, kind, access, c, objPtr, dstCand, firstPass, result, ambig, skip);
      if stop {
        return;
      }
      skipped := skipped || passSkipped;
      if skipped && firstPass {
        // The target is not where the hint has it: now the bases left out.
        TwoPasses(query, dstCand, objPtr, c.bases);
        firstPass := false;
        again := true;
      } else {
        AllSearched(query, kind, skip, c, objPtr, access, Searched(query, dstCand, objPtr, c.bases, firstPass, 0),
          result.View(), ambig);
      }
    }
  }

  // One pass over the bases: those the hint points to, or all the others.
  method SearchPass(query: Query, ghost kind: Kind, access: SubKind, c: ClassType, objPtr: int, dstCand: int,
                    firstPass: bool, result: DyncastResult, ambig0: bool, ghost skip: bool)
    returns (ambig: bool, skipped: bool, stop: bool)
    requires c.VmiClass? && c != query.dst && Searchable(query, kind, c, objPtr, access)
    requires result.wholeDetails & FLAGS_UNKNOWN_MASK == 0 && skip == SkipsPrivate(query, result.wholeDetails)
    requires (!firstPass ==> dstCand != NULL) && (!HintAnswers(query) ==> dstCand == NULL)
    requires Going(query, kind, skip, c, objPtr, access,
                   Searched(query, dstCand, objPtr, c.bases, firstPass, |c.bases|), result.View(), ambig0)
    modifies result
    ensures result.wholeDetails == old(result.wholeDetails)
    ensures stop ==> Found(query, kind, skip, c, objPtr, access, result.View(), ambig)
    ensures !stop ==>
      Going(query, kind, skip, c, objPtr, access, Searched(query, dstCand, objPtr, c.bases, firstPass, 0),
            result.View(), ambig)
    ensures !stop && !(skipped && firstPass) ==>
      AllFrom(0, c.bases, Searched(query, dstCand, objPtr, c.bases, firstPass, 0))
    ensures skipped ==> dstCand != NULL
    decreases c, 2
  {
    ambig, skipped, stop := ambig0, false, false;
    ghost var done := Searched(query, dstCand, objPtr, c.bases, firstPass, |c.bases|);
    var i: nat := |c.bases|;
    while i > 0
      invariant i <= |c.bases| && done == Searched(query, dstCand, objPtr, c.bases, firstPass, i)
      invariant Going(query, kind, skip, c, objPtr, access, done, result.View(), ambig)
      invariant result.wholeDetails == old(result.wholeDetails)
      invariant !skipped && firstPass ==> AllFrom(i, c.bases, done)
      invariant skipped ==> dstCand != NULL
    {
      i := i - 1;
      SearchedStep(query, dstCand, objPtr, c, firstPass, i, done);
      var base := ConvertToBase(query.vb, objPtr, c.bases[i]);
      if dstCand != NULL {
        var skipOnFirstPass := base > dstCand;
        if skipOnFirstPass == firstPass {
          skipped := true;
          continue;
        }
      }
      assert i !in done;  // no base is searched twice
      ambig, stop := SearchBase(query, kind, access, c, objPtr, i, base, result, ambig, skip, done);
      if stop {
        return;
      }
      done := done + {i};
    }
  }

  ghost predicate AllFrom(i: int, bases: seq<BaseInfo>, done: set<nat>) {
    forall j: nat :: i <= j < |bases| ==> j in done
  }

  lemma SearchedStep(query: Query, dstCand: int, objPtr: int, c: ClassType, firstPass: bool, i: nat, done: set<nat>)
    requires c.VmiClass? && i < |c.bases| && done == Searched(query, dstCand, objPtr, c.bases, firstPass, i + 1)
    ensures
      var after := Searched(query, dstCand, objPtr, c.bases, firstPass, i);
      if OnFirstPass(query, dstCand, objPtr, c.bases[i]) == firstPass then i !in done && after == done + {i}
      else after == done
    ensures AllFrom(i + 1, c.bases, done) ==> AllFrom(i, c.bases, done + {i})
    ensures dstCand == NULL && firstPass ==> done == IndicesFrom(c, i + 1)
  {
  }

  lemma TwoPasses(query: Query, dstCand: int, objPtr: int, bases: seq<BaseInfo>)
    ensures Searched(query, dstCand, objPtr, bases, true, 0) == Searched(query, dstCand, objPtr, bases, false, |bases|)
  {
  }

  // The bases searched when a pass has come down to index i.
  ghost function Searched(query: Query, dstCand: int, objPtr: int, bases: seq<BaseInfo>, firstPass: bool,
                          i: int): set<nat> {
    set j: nat | j < |bases| &&
      if OnFirstPass(query, dstCand, objPtr, bases[j]) then i <= j || !firstPass else i <= j && !firstPass
  }

  lemma AllSearched(query: Query, kind: Kind, skip: bool, c: ClassType, p: int, access: SubKind, done: set<nat>,
                    v: Finding, ambig: bool)
    requires c.VmiClass? && c != query.dst && !(p == query.srcPtr && c == query.src)
    requires AllFrom(0, c.bases, done)
    requires Going(query, kind, skip, c, p, access, done, v, ambig)
    ensures Found(query, kind, skip, c, p, access, v, ambig)
  {
    AllSearchedFor(query, skip, c, p, done, v.whole2src);
    AllSearchedFor(query, false, c, p, done, v.whole2src);
  }

  lemma AllSearchedFor(query: Query, skip: bool, c: ClassType, p: int, done: set<nat>, whole2src: SubKind)
    requires c.VmiClass? && c != query.dst && !(p == query.srcPtr && c == query.src)
    requires AllFrom(0, c.bases, done)
    ensures Places(query.vb, skip, c, p, query.dst) == FoundIn(query, skip, c, p, done)
    ensures MissedIn(query, skip, c, p, done, whole2src) ==> MissedSrc(query, skip, c, p, whole2src)
  {
    assert Places(query.vb, skip, c, p, query.dst) == FoundIn(query, skip, c, p, done);
    if MissedIn(query, skip, c, p, done, whole2src) && query.srcPtr in Places(query.vb, skip, c, p, query.src) {
      var j: nat :| j < |c.bases| && query.srcPtr in PlacesInBase(query.vb, skip, p, c.bases[j], query.src);
      var d :| d in PlacesInBase(query.vb, skip, p, c.bases[j], query.dst) && InDst(query, d);
      assert d in Places(query.vb, skip, c, p, query.dst);
    }
  }

  method SearchBase(query: Query, ghost kind: Kind, access: SubKind, c: ClassType, objPtr: int, i: nat, base: int,
                    result: DyncastResult, ambig0: bool, ghost skip: bool, ghost done: set<nat>)
    returns (ambig: bool, stop: bool)
    requires c.VmiClass? && i < |c.bases| && i !in done && c != query.dst && Searchable(query, kind, c, objPtr, access)
    requires base == ConvertToBase(query.vb, objPtr, c.bases[i])
    requires result.wholeDetails & FLAGS_UNKNOWN_MASK == 0 && skip == SkipsPrivate(query, result.wholeDetails)
    requires InOrder(query, skip, c, i, done)
    requires Going(query, kind, skip, c, objPtr, access, done, result.View(), ambig0)
    modifies result
    ensures result.wholeDetails == old(result.wholeDetails)
    ensures stop ==> Found(query, kind, skip, c, objPtr, access, result.View(), ambig)
    ensures !stop ==> Going(query, kind, skip, c, objPtr, access, done + {i}, result.View(), ambig)
    decreases c, 1
  {
    var result2 := new DyncastResult(result.wholeDetails);
    var baseAccess := access;
    if c.bases[i].isVirtual {
      baseAccess := baseAccess | CONTAINED_VIRTUAL_MASK;
    }
    if !c.bases[i].isPublic {
      if query.hint == -2 && result.wholeDetails & (NON_DIAMOND_REPEAT_MASK | DIAMOND_SHAPED_MASK) == 0 {
        // Neither a cast down nor a cast across can come from here.
        NothingInPrivate(query, kind, c, objPtr, access, i, done, result.View(), ambig0);
        return ambig0, false;
      }
      baseAccess := baseAccess & !CONTAINED_PUBLIC_MASK;
    }
    ambig, stop := SearchInto(query, kind, access, baseAccess, c, objPtr, i, base, result, ambig0, result2, skip, done);
  }

  // The search of a base that is not left out.
  method SearchInto(query: Query, ghost kind: Kind, access: SubKind, baseAccess: SubKind, c: ClassType, objPtr: int,
                    i: nat, base: int, result: DyncastResult, ambig0: bool, result2: DyncastResult, ghost skip: bool,
                    ghost done: set<nat>)
    returns (ambig: bool, stop: bool)
    requires c.VmiClass? && i < |c.bases| && i !in done && c != query.dst && Searchable(query, kind, c, objPtr, access)
    requires base == ConvertToBase(query.vb, objPtr, c.bases[i]) && baseAccess == BaseAccess(access, c.bases[i])
    requires result != result2 && result2.Fresh() && result2.wholeDetails == result.wholeDetails
    requires result.wholeDetails & FLAGS_UNKNOWN_MASK == 0 && skip == SkipsPrivate(query, result.wholeDetails)
    requires InOrder(query, skip, c, i, done) && (skip ==> c.bases[i].isPublic)
    requires Going(query, kind, skip, c, objPtr, access, done, result.View(), ambig0)
    modifies result, result2
    ensures result.wholeDetails == old(result.wholeDetails)
    ensures stop ==> Found(query, kind, skip, c, objPtr, access, result.View(), ambig)
    ensures !stop ==> Going(query, kind, skip, c, objPtr, access, done + {i}, result.View(), ambig)
    decreases c, 0
  {
    IntoEitherBase(query, kind, c, objPtr, access, i);
    var ambig2 := DoDyncast(query, kind, baseAccess, c.bases[i].cls, base, result2);
    FromEitherBase(query, kind, skip, c, objPtr, access, i, result2.View(), ambig2);
    ambig, stop := Join(query, kind, access, c, objPtr, i, result, ambig0, result2, ambig2, skip, done);
  }

  // What the search of one base comes to.
  method Join(query: Query, ghost kind: Kind, access: SubKind, c: ClassType, objPtr: int, i: nat,
              result: DyncastResult, ambig0: bool, result2: DyncastResult, ambig2: bool,
              ghost skip: bool, ghost done: set<nat>)
    returns (ambig: bool, stop: bool)
    requires c.VmiClass? && i < |c.bases| && i !in done && c != query.dst && Searchable(query, kind, c, objPtr, access)
    requires InOrder(query, skip, c, i, done)
    requires result != result2 && Going(query, kind, skip, c, objPtr, access, done, result.View(), ambig0)
    requires FoundInBase(query, kind, skip, c, objPtr, access, i, result2.View(), ambig2)
    modifies result
    ensures result.wholeDetails == old(result.wholeDetails)
    ensures stop ==> Found(query, kind, skip, c, objPtr, access, result.View(), ambig)
    ensures !stop ==> Going(query, kind, skip, c, objPtr, access, done + {i}, result.View(), ambig)
  {
    if result2.dst2src == CONTAINED_PUBLIC || result2.dst2src == CONTAINED_AMBIG {
      TakeTarget(query, kind, access, c, objPtr, i, result, ambig0, result2, ambig2, skip, done);
      return ambig2, true;
    }
    ReadyToMergeEither(query, kind, skip, c, objPtr, access, i, done, result.View(), ambig0, result2.View(), ambig2);
    ambig, stop := Absorb(query, kind, access, c, objPtr, i, result, ambig0, result2, ambig2, skip, done,
                          FoundIn(query, skip, c, objPtr, done),
                          PlacesInBase(query.vb, skip, objPtr, c.bases[i], query.dst),
                          FoundIn(query, skip, c, objPtr, done + {i}));
  }

  lemma NothingInPrivate(query: Query, kind: Kind, c: ClassType, p: int, access: SubKind, i: nat, done: set<nat>,
                         v: Finding, ambig: bool)
    requires c.VmiClass? && i < |c.bases| && !c.bases[i].isPublic && Searchable(query, kind, c, p, access)
    requires Going(query, kind, true, c, p, access, done, v, ambig)
    ensures Going(query, kind, true, c, p, access, done + {i}, v, ambig)
  {
    FoundInMore(query, true, c, p, i, done);
  }

  // Whether the first pass searches a base.
  ghost predicate OnFirstPass(query: Query, dstCand: int, objPtr: int, b: BaseInfo) {
    dstCand == NULL || ConvertToBase(query.vb, objPtr, b) <= dstCand
  }

  // The targets in the bases with an index in done.
  ghost function FoundIn(query: Query, skip: bool, c: ClassType, p: int, done: set<nat>): set<int>
    requires c.VmiClass?
  {
    set j, q | j in done && j < |c.bases| && q in PlacesInBase(query.vb, skip, p, c.bases[j], query.dst) :: q
  }

  ghost predicate Progress(query: Query, skip: bool, c: ClassType, p: int, access: SubKind, done: set<nat>, v: Finding,
                           ambig: bool)
    requires c.VmiClass?
  {
    && Tally(query, c, p, access, FoundIn(query, skip, c, p, done), v, ambig)
    && (SawSrc(query, c, p, access, v.whole2src) || MissedIn(query, skip, c, p, done, v.whole2src))
  }

  ghost predicate MissedIn(query: Query, skip: bool, c: ClassType, p: int, done: set<nat>, whole2src: SubKind)
    requires c.VmiClass?
  {
    && whole2src == UNKNOWN
    && forall j ::
         j in done && j < |c.bases| && query.srcPtr in PlacesInBase(query.vb, skip, p, c.bases[j], query.src) ==>
         exists d :: d in PlacesInBase(query.vb, skip, p, c.bases[j], query.dst) && InDst(query, d)
  }

  lemma IntoBase(query: Query, c: ClassType, p: int, i: nat)
    requires c.VmiClass? && i < |c.bases| && c != query.dst && Ready(query, c, p)
    ensures Ready(query, c.bases[i].cls, ConvertToBase(query.vb, p, c.bases[i]))
  {
    forall d | d in PlacesInBase(query.vb, false, p, c.bases[i], query.dst)
      ensures d in Places(query.vb, false, c, p, query.dst) {}
  }

  // How a base is reached.
  function BaseAccess(access: SubKind, b: BaseInfo): SubKind {
    var reached := if b.isVirtual then access | CONTAINED_VIRTUAL_MASK else access;
    if b.isPublic then reached else reached & !CONTAINED_PUBLIC_MASK
  }

  lemma IntoEitherBase(query: Query, kind: Kind, c: ClassType, p: int, access: SubKind, i: nat)
    requires c.VmiClass? && i < |c.bases| && c != query.dst && Searchable(query, kind, c, p, access)
    ensures Searchable(query, kind, c.bases[i].cls, ConvertToBase(query.vb, p, c.bases[i]),
                       BaseAccess(access, c.bases[i]))
  {
    if kind.OnlyPublicBases? {
      IntoOpenBase(query, c, p, i);
    } else {
      IntoBase(query, c, p, i);
    }
  }

  lemma IntoOpenBase(query: Query, c: ClassType, p: int, i: nat)
    requires c.VmiClass? && i < |c.bases| && OpenReady(query, c, p)
    ensures OpenReady(query, c.bases[i].cls, ConvertToBase(query.vb, p, c.bases[i]))
  {
    var b, base := c.bases[i].cls, ConvertToBase(query.vb, p, c.bases[i]);
    forall x, q | q in Places(query.vb, false, b, base, x) ensures q in Places(query.vb, false, c, p, x) {
      assert q in PlacesInBase(query.vb, false, p, c.bases[i], x);
    }
  }

  // The targets of a base not searched before are new.
  lemma NewTargets(query: Query, skip: bool, c: ClassType, p: int, i: nat, done: set<nat>)
    requires c.VmiClass? && i < |c.bases| && i !in done && c != query.dst && Ready(query, c, p)
    ensures FoundIn(query, skip, c, p, done) !! PlacesInBase(query.vb, skip, p, c.bases[i], query.dst)
    ensures FoundIn(query, skip, c, p, done + {i}) ==
            FoundIn(query, skip, c, p, done) + PlacesInBase(query.vb, skip, p, c.bases[i], query.dst)
    ensures FoundIn(query, skip, c, p, done + {i}) <= Places(query.vb, skip, c, p, query.dst)
    ensures Places(query.vb, skip, c, p, query.dst) <= Places(query.vb, false, c, p, query.dst)
  {
    PlacesMonotone(query.vb, c, p, query.dst);
    forall j: nat, d | j in done && j < |c.bases| && d in PlacesInBase(query.vb, skip, p, c.bases[j], query.dst)
      ensures d !in PlacesInBase(query.vb, skip, p, c.bases[i], query.dst)
    {
      if d in PlacesInBase(query.vb, skip, p, c.bases[i], query.dst) {
        PlacesMonotone(query.vb, c.bases[j].cls, ConvertToBase(query.vb, p, c.bases[j]), query.dst);
        PlacesMonotone(query.vb, c.bases[i].cls, ConvertToBase(query.vb, p, c.bases[i]), query.dst);
        SameBase(query.vb, c, p, i, j, query.dst, d);
      }
    }
    FoundInMore(query, skip, c, p, i, done);
  }

  lemma FoundInMore(query: Query, skip: bool, c: ClassType, p: int, i: nat, done: set<nat>)
    requires c.VmiClass? && i < |c.bases|
    ensures FoundIn(query, skip, c, p, done + {i}) ==
            FoundIn(query, skip, c, p, done) + PlacesInBase(query.vb, skip, p, c.bases[i], query.dst)
  {
    var before, after := FoundIn(query, skip, c, p, done), FoundIn(query, skip, c, p, done + {i});
    forall d | d in after ensures d in before + PlacesInBase(query.vb, skip, p, c.bases[i], query.dst) {
      var j: nat :| j in done + {i} && j < |c.bases| && d in PlacesInBase(query.vb, skip, p, c.bases[j], query.dst);
      assert j in done || j == i;
    }
    forall d | d in PlacesInBase(query.vb, skip, p, c.bases[i], query.dst) ensures d in after {
      assert i in done + {i};
    }
    forall d | d in before ensures d in after {
      var j: nat :| j in done && j < |c.bases| && d in PlacesInBase(query.vb, skip, p, c.bases[j], query.dst);
      assert j in done + {i};
    }
  }

  // A source outside the targets of a base is outside the targets of the derived object.
  lemma FreeInBase(query: Query, c: ClassType, p: int, i: nat)
    requires c.VmiClass? && i < |c.bases| && c != query.dst && Ready(query, c, p)
    requires SrcFree(query, c.bases[i].cls, ConvertToBase(query.vb, p, c.bases[i]))
    ensures SrcFree(query, c, p)
    ensures query.srcPtr in Places(query.vb, true, c, p, query.src) <==>
            query.srcPtr in PlacesInBase(query.vb, true, p, c.bases[i], query.src)
  {
    assert query.srcPtr in PlacesInBase(query.vb, false, p, c.bases[i], query.src);
    PublicInBase(query.vb, c, p, i, query.src, query.srcPtr);
    forall d | d in Places(query.vb, false, c, p, query.dst) ensures !InDst(query, d) {
      if InDst(query, d) {
        var j := ChooseBase(query.vb, false, c, p, query.dst, d);
        PlacesTransitive(query.vb, false, c.bases[j].cls, ConvertToBase(query.vb, p, c.bases[j]),
                         query.dst, d, query.src, query.srcPtr);
        SameBase(query.vb, c, p, i, j, query.src, query.srcPtr);
      }
    }
  }

  // The outcome of a base, seen from the derived object.
  ghost predicate OutcomeOfBase(query: Query, skip: bool, c: ClassType, p: int, access: SubKind, i: nat, v: Finding,
                                ambig: bool)
    requires c.VmiClass? && i < |c.bases|
  {
    var more := PlacesInBase(query.vb, skip, p, c.bases[i], query.dst);
    || HitTarget(query, more, v, ambig)
    || HitPrivateSrc(query, c, p, access, v)
    || (Tally(query, c, p, access, more, v, ambig)
        && (SawSrc(query, c, p, access, v.whole2src) || MissedIn(query, skip, c, p, {i}, v.whole2src)))
  }

  lemma FromBase(query: Query, skip: bool, c: ClassType, p: int, access: SubKind, i: nat, v: Finding, ambig: bool)
    requires c.VmiClass? && i < |c.bases| && c != query.dst && Ready(query, c, p)
    requires access == CONTAINED_PUBLIC || access == CONTAINED_PRIVATE
    requires skip ==> c.bases[i].isPublic
    requires Outcome(query, skip, c.bases[i].cls, ConvertToBase(query.vb, p, c.bases[i]),
                     if c.bases[i].isPublic then access else CONTAINED_PRIVATE, v, ambig)
    ensures OutcomeOfBase(query, skip, c, p, access, i, v, ambig)
  {
    var b, base := c.bases[i], ConvertToBase(query.vb, p, c.bases[i]);
    var baseAccess := if b.isPublic then access else CONTAINED_PRIVATE;
    var more := PlacesInBase(query.vb, skip, p, b, query.dst);
    assert more == Places(query.vb, skip, b.cls, base, query.dst);
    if !HitTarget(query, more, v, ambig) {
      if HitPrivateSrc(query, b.cls, base, baseAccess, v) || SawSrc(query, b.cls, base, baseAccess, v.whole2src) {
        FreeInBase(query, c, p, i);
      }
      if Tally(query, b.cls, base, baseAccess, more, v, ambig) && v.dstPtr != NULL {
        PlacesMonotone(query.vb, b.cls, base, query.dst);
        PublicInBase(query.vb, c, p, i, query.dst, v.dstPtr);
      }
    }
  }

  ghost predicate FoundInBase(query: Query, kind: Kind, skip: bool, c: ClassType, p: int, access: SubKind, i: nat,
                              v: Finding, ambig: bool)
    requires c.VmiClass? && i < |c.bases|
  {
    match kind
    case NoVirtualBases => OutcomeOfBase(query, skip, c, p, access, i, v, ambig)
    case OnlyPublicBases => OpenOutcome(query, c.bases[i].cls, ConvertToBase(query.vb, p, c.bases[i]), v, ambig)
  }

  lemma FromEitherBase(query: Query, kind: Kind, skip: bool, c: ClassType, p: int, access: SubKind, i: nat, v: Finding,
                       ambig: bool)
    requires c.VmiClass? && i < |c.bases| && c != query.dst && Searchable(query, kind, c, p, access)
    requires skip ==> c.bases[i].isPublic
    requires Found(query, kind, skip, c.bases[i].cls, ConvertToBase(query.vb, p, c.bases[i]), BaseAccess(access,
      c.bases[i]), v, ambig)
    ensures FoundInBase(query, kind, skip, c, p, access, i, v, ambig)
  {
    if kind.NoVirtualBases? {
      FromBase(query, skip, c, p, access, i, v, ambig);
    }
  }

  // What is known of the source after another base, whatever it added.
  ghost predicate SrcStatus(query: Query, skip: bool, c: ClassType, p: int, access: SubKind, done: set<nat>,
                            whole2src: SubKind)
    requires c.VmiClass?
  {
    || SawSrc(query, c, p, access, whole2src)
    || MissedIn(query, skip, c, p, done, whole2src)
    || (whole2src == CONTAINED_PRIVATE && SrcFree(query, c, p)
        && Access(query, c, p, access, query.src, query.srcPtr) == CONTAINED_PRIVATE)
  }

  lemma JoinStatus(query: Query, skip: bool, c: ClassType, p: int, access: SubKind, done: set<nat>, i: nat,
                   before: SubKind, inBase: SubKind)
    requires c.VmiClass?
    requires SawSrc(query, c, p, access, before) || MissedIn(query, skip, c, p, done, before)
    requires SrcStatus(query, skip, c, p, access, {i}, inBase)
    ensures SrcStatus(query, skip, c, p, access, done + {i}, before | inBase)
  {
    if before == UNKNOWN && inBase == UNKNOWN {
      assert MissedIn(query, skip, c, p, done + {i}, UNKNOWN);
    }
  }

  lemma NotFound(query: Query, skip: bool, c: ClassType, p: int, access: SubKind, done: set<nat>, whole2src: SubKind,
                 found: set<int>)
    requires c.VmiClass? && c != query.dst && Ready(query, c, p)
    requires SrcStatus(query, skip, c, p, access, done, whole2src) && Contained(whole2src)
    requires found <= Places(query.vb, false, c, p, query.dst)
    ensures forall d :: d in found ==> !Holds(query, d)
  {
    forall d | d in found ensures !Holds(query, d) {
      PlacesMonotone(query.vb, query.dst, d, query.src);
    }
  }

  lemma NotBoth(query: Query, c: ClassType, p: int, found: set<int>, d: int, e: int)
    requires c != query.dst && Ready(query, c, p)
    requires d in Places(query.vb, false, c, p, query.dst) && e in Places(query.vb, false, c, p, query.dst)
    requires Holds(query, d) && Holds(query, e)
    ensures d == e
  {
    PlacesMonotone(query.vb, query.dst, d, query.src);
    PlacesMonotone(query.vb, query.dst, e, query.src);
    OneHolder(query.vb, c, p, query.dst, d, e, query.src, query.srcPtr);
  }

  lemma Concluded(query: Query, skip: bool, c: ClassType, p: int, access: SubKind, i: nat, done: set<nat>,
                  v: Finding, ambig: bool, stop: bool)
    requires c.VmiClass? && i < |c.bases| && i !in done && c != query.dst && Ready(query, c, p)
    requires Ended(query, c, p, access, c.flags, FoundIn(query, skip, c, p, done + {i}), v, ambig, stop)
    requires SrcStatus(query, skip, c, p, access, done + {i}, v.whole2src)
    ensures stop ==> Outcome(query, skip, c, p, access, v, ambig)
    ensures !stop ==> Progress(query, skip, c, p, access, done + {i}, v, ambig)
  {
    var found := FoundIn(query, skip, c, p, done + {i});
    NewTargets(query, skip, c, p, i, done);
    if stop {
      if HitBoth(query, found, v, ambig) {
        var d, e :| d in found && e in found && d != e && Holds(query, d) && Holds(query, e);
        NotBoth(query, c, p, found, d, e);
      } else if !HitTarget(query, found, v, ambig) && v.whole2src != CONTAINED_PRIVATE {
        assert Places(query.vb, skip, c, p, query.dst) == found;
      }
    }
  }

  // Without a hint that answers, the bases are searched from the last one to the first.
  ghost predicate InOrder(query: Query, skip: bool, c: ClassType, i: nat, done: set<nat>)
    requires c.VmiClass?
  {
    !HintAnswers(query) ==> !skip && done == IndicesFrom(c, i + 1)
  }

  // A search that has not seen the source outside the targets may compare those it has found.
  lemma NotSeenYet(query: Query, c: ClassType, p: int, i: nat, done: set<nat>)
    requires c.VmiClass? && i < |c.bases| && Ready(query, c, p) && !HintAnswers(query)
    requires InOrder(query, false, c, i, done) && MissedIn(query, false, c, p, done + {i}, UNKNOWN)
    ensures Reliable(query, FoundIn(query, false, c, p, done + {i}))
  {
    assert done + {i} == IndicesFrom(c, i);
    assert !SeenFrom(query, c, p, i);
    ComparableIsReliable(query, FoundIn(query, false, c, p, IndicesFrom(c, i)));
  }

  lemma ReadyToMerge(query: Query, skip: bool, c: ClassType, p: int, access: SubKind, i: nat, done: set<nat>,
                     v: Finding, ambig: bool, v2: Finding, ambig2: bool)
    requires c.VmiClass? && i < |c.bases| && i !in done && c != query.dst && Ready(query, c, p)
    requires InOrder(query, skip, c, i, done)
    requires Progress(query, skip, c, p, access, done, v, ambig)
    requires OutcomeOfBase(query, skip, c, p, access, i, v2, ambig2)
    requires !HitTarget(query, PlacesInBase(query.vb, skip, p, c.bases[i], query.dst), v2, ambig2)
    ensures
      var found := FoundIn(query, skip, c, p, done);
      var more := PlacesInBase(query.vb, skip, p, c.bases[i], query.dst);
      var whole2src := v.whole2src | v2.whole2src;
      && found !! more && NULL !in found + more && found + more == FoundIn(query, skip, c, p, done + {i})
      && (Tally(query, c, p, access, more, v2, ambig2)
          || (whole2src == CONTAINED_PRIVATE && (v2.dst2src == UNKNOWN || v2.dst2src == NOT_CONTAINED)))
      && SrcStatus(query, skip, c, p, access, done + {i}, whole2src)
      && (Contained(whole2src) ==> forall d :: d in found + more ==> !Holds(query, d))
      && (Contained(whole2src) || Reliable(query, found + more))
  {
    NewTargets(query, skip, c, p, i, done);
    JoinStatus(query, skip, c, p, access, done, i, v.whole2src, v2.whole2src);
    if !Contained(v.whole2src | v2.whole2src) && !HintAnswers(query) {
      NotSeenYet(query, c, p, i, done);
    }
    if Contained(v.whole2src | v2.whole2src) {
      NotFound(query, skip, c, p, access, done + {i}, v.whole2src | v2.whole2src,
               FoundIn(query, skip, c, p, done + {i}));
    }
  }

  lemma TargetInBase(query: Query, skip: bool, c: ClassType, p: int, access: SubKind, i: nat, v: Finding, ambig: bool)
    requires c.VmiClass? && i < |c.bases|
    requires HitTarget(query, PlacesInBase(query.vb, skip, p, c.bases[i], query.dst), v, ambig)
    ensures Outcome(query, skip, c, p, access, v, ambig)
  {
    assert v.dstPtr in PlacesInBase(query.vb, skip, p, c.bases[i], query.dst);
  }

  // The finding of a base that holds the target and the source ends the search.
  lemma StopAtTarget(query: Query, kind: Kind, skip: bool, c: ClassType, p: int, access: SubKind, i: nat,
                     done: set<nat>,
                     v: Finding, ambig: bool, v2: Finding, ambig2: bool)
    requires c.VmiClass? && i < |c.bases| && Searchable(query, kind, c, p, access)
    requires Going(query, kind, skip, c, p, access, done, v, ambig)
    requires FoundInBase(query, kind, skip, c, p, access, i, v2, ambig2)
    requires v2.dst2src == CONTAINED_PUBLIC || v2.dst2src == CONTAINED_AMBIG
    ensures Found(query, kind, skip, c, p, access, v2.(whole2src := v.whole2src | v2.whole2src), ambig2)
  {
    var v' := v2.(whole2src := v.whole2src | v2.whole2src);
    if kind.NoVirtualBases? {
      TargetInBase(query, skip, c, p, access, i, v', ambig2);
    } else {
      assert v2.dstPtr in PlacesInBase(query.vb, false, p, c.bases[i], query.dst);
      OpenStop(query, c, p, v2.dstPtr);
      OpenSourceJoined(query, c, p, i, done, v.whole2src, v2);
    }
  }

  // Without repeated classes, one target is all of them.
  lemma OpenStop(query: Query, c: ClassType, p: int, d: int)
    requires OpenReady(query, c, p) && d in Places(query.vb, false, c, p, query.dst)
    ensures Places(query.vb, false, c, p, query.dst) == {d}
    ensures Holds(query, d) ==> InDst(query, d)
  {
    PlacesMonotone(query.vb, query.dst, d, query.src);
    forall e | e in Places(query.vb, false, c, p, query.dst) ensures e == d {}
  }

  lemma OpenSourceJoined(query: Query, c: ClassType, p: int, i: nat, done: set<nat>, before: SubKind, v2: Finding)
    requires c.VmiClass? && i < |c.bases|
    requires OpenSaw(query, c, p, before) || MissedIn(query, false, c, p, done, before)
    requires
      var b, base := c.bases[i], ConvertToBase(query.vb, p, c.bases[i]);
      OpenSaw(query, b.cls, base, v2.whole2src) || MissedSrc(query, false, b.cls, base, v2.whole2src)
    ensures
      var after := before | v2.whole2src;
      OpenSaw(query, c, p, after) || MissedIn(query, false, c, p, done + {i}, after)
  {
    if ContainedPublic(v2.whole2src) {
      assert query.srcPtr in PlacesInBase(query.vb, false, p, c.bases[i], query.src);
    }
  }

  // What a base with the target and the source in it says is final.
  method TakeTarget(query: Query, ghost kind: Kind, access: SubKind, c: ClassType, objPtr: int, i: nat,
                    result: DyncastResult, ghost ambig0: bool, result2: DyncastResult, ghost ambig2: bool,
                    ghost skip: bool, ghost done: set<nat>)
    requires c.VmiClass? && i < |c.bases| && Searchable(query, kind, c, objPtr, access)
    requires result != result2 && Going(query, kind, skip, c, objPtr, access, done, result.View(), ambig0)
    requires FoundInBase(query, kind, skip, c, objPtr, access, i, result2.View(), ambig2)
    requires result2.dst2src == CONTAINED_PUBLIC || result2.dst2src == CONTAINED_AMBIG
    modifies result
    ensures result.wholeDetails == old(result.wholeDetails)
    ensures Found(query, kind, skip, c, objPtr, access, result.View(), ambig2)
  {
    StopAtTarget(query, kind, skip, c, objPtr, access, i, done, result.View(), ambig0, result2.View(), ambig2);
    result.whole2src := result.whole2src | result2.whole2src;
    result.dstPtr := result2.dstPtr;
    result.whole2dst := result2.whole2dst;
    result.dst2src := result2.dst2src;
  }

  // What the search of one base adds to what was found in the bases before it.
  method Absorb(query: Query, ghost kind: Kind, access: SubKind, c: ClassType, objPtr: int, i: nat,
                result: DyncastResult, ambig0: bool, result2: DyncastResult, ambig2: bool, ghost skip: bool,
                ghost done: set<nat>, ghost found: set<int>, ghost more: set<int>, ghost all: set<int>)
    returns (ambig: bool, stop: bool)
    requires c.VmiClass? && i < |c.bases| && i !in done && c != query.dst && Searchable(query, kind, c, objPtr, access)
    requires result != result2 && all == FoundIn(query, skip, c, objPtr, done + {i})
    requires MergeableEither(query, kind, c, objPtr, access, found, more, all,
                             result.View().(whole2src := result.whole2src | result2.whole2src), ambig0,
                             result2.View(), ambig2)
    requires SourceEither(query, kind, skip, c, objPtr, access, done + {i}, result.whole2src | result2.whole2src)
    modifies result
    ensures result.wholeDetails == old(result.wholeDetails)
    ensures stop ==> Found(query, kind, skip, c, objPtr, access, result.View(), ambig)
    ensures !stop ==> Going(query, kind, skip, c, objPtr, access, done + {i}, result.View(), ambig)
  {
    result.whole2src := result.whole2src | result2.whole2src;
    ambig, stop := Merge(query, kind, c.flags, result, ambig0, result2, ambig2, c, objPtr, access, found, more, all);
    ConcludedEither(query, kind, skip, c, objPtr, access, i, done, result.View(), ambig, stop);
  }

  method Merge(query: Query, ghost kind: Kind, flags: Details, result: DyncastResult, ambig0: bool,
               result2: DyncastResult, ambig2: bool,
               ghost c: ClassType, ghost p: int, ghost access: SubKind, ghost found: set<int>, ghost more: set<int>,
               ghost all: set<int>)
    returns (ambig: bool, stop: bool)
    requires result != result2
    requires MergeableEither(query, kind, c, p, access, found, more, all, result.View(), ambig0, result2.View(), ambig2)
    modifies result
    ensures result.wholeDetails == old(result.wholeDetails) && result.whole2src == old(result.whole2src)
    ensures EndedEither(query, kind, c, p, access, flags, all, result.View(), ambig, stop)
  {
    if !ambig0 && result.dstPtr == NULL {
      ambig, stop := TakeFirst(query, kind, flags, result, result2, ambig2, c, p, access, found, more, all);
    } else {
      ambig, stop := FaceRivals(query, kind, flags, result, ambig0, result2, ambig2, c, p, access, found, more, all);
    }
  }

  // Nothing has been found before.
  method TakeFirst(query: Query, ghost kind: Kind, flags: Details, result: DyncastResult, result2: DyncastResult,
                   ambig2: bool,
                   ghost c: ClassType, ghost p: int, ghost access: SubKind, ghost found: set<int>,
                   ghost more: set<int>, ghost all: set<int>)
    returns (ambig: bool, stop: bool)
    requires result != result2 && result.dstPtr == NULL
    requires MergeableEither(query, kind, c, p, access, found, more, all, result.View(), false, result2.View(), ambig2)
    modifies result
    ensures result.wholeDetails == old(result.wholeDetails) && result.whole2src == old(result.whole2src)
    ensures EndedEither(query, kind, c, p, access, flags, all, result.View(), ambig, stop)
  {
    assert all == more;
    result.dstPtr := result2.dstPtr;
    result.whole2dst := result2.whole2dst;
    ambig := ambig2;
    if result.dstPtr != NULL && result.whole2src != UNKNOWN && flags & NON_DIAMOND_REPEAT_MASK == 0 {
      // Source and target are both known, and there are no rivals.
      return ambig, true;
    }
    stop := result.whole2src == CONTAINED_PRIVATE;
  }

  // Something has been found before, a target or an ambiguity.
  method FaceRivals(query: Query, ghost kind: Kind, flags: Details, result: DyncastResult, ambig0: bool,
                    result2: DyncastResult, ambig2: bool,
                    ghost c: ClassType, ghost p: int, ghost access: SubKind, ghost found: set<int>,
                    ghost more: set<int>, ghost all: set<int>)
    returns (ambig: bool, stop: bool)
    requires result != result2 && (ambig0 || result.dstPtr != NULL)
    requires MergeableEither(query, kind, c, p, access, found, more, all, result.View(), ambig0, result2.View(), ambig2)
    modifies result
    ensures result.wholeDetails == old(result.wholeDetails) && result.whole2src == old(result.whole2src)
    ensures EndedEither(query, kind, c, p, access, flags, all, result.View(), ambig, stop)
  {
    ambig := ambig0;
    if result.dstPtr != NULL && result.dstPtr == result2.dstPtr {
      // The same target on another way, through a virtual base.
      assert kind.OnlyPublicBases? ==> all == found;
      result.whole2dst := result.whole2dst | result2.whole2dst;
    } else if (result.dstPtr != NULL && result2.dstPtr != NULL)
              || (result.dstPtr != NULL && ambig2)
              || (result2.dstPtr != NULL && ambig) {
      ambig, stop := Disambiguate(query, flags, result, ambig, result2, ambig2, found, more);
      if stop {
        return;
      }
    }
    stop := result.whole2src == CONTAINED_PRIVATE;
  }

  // Two disjoint sets of targets, each with its tally.
  ghost predicate Mergeable(query: Query, c: ClassType, p: int, access: SubKind, found: set<int>, more: set<int>,
                            all: set<int>,
                            v: Finding, ambig: bool, v2: Finding, ambig2: bool) {
    && NoVirtual(query.dst) && !Holds(query, NULL) && FindsRight(query, NULL)
    && (Contained(v.whole2src) || Reliable(query, all))
    && found !! more && all == found + more && NULL !in all
    && Tally(query, c, p, access, found, v, ambig)
    && (Tally(query, c, p, access, more, v2, ambig2)
        || (v.whole2src == CONTAINED_PRIVATE && (v2.dst2src == UNKNOWN || v2.dst2src == NOT_CONTAINED)))
    && (v.whole2src == UNKNOWN || v.whole2src == CONTAINED_PUBLIC || v.whole2src == CONTAINED_PRIVATE)
    && (Contained(v.whole2src) ==> forall d :: d in all ==> !Holds(query, d))
  }

  // Two sets that hold the same target, if they hold any.
  ghost predicate OpenMergeable(query: Query, found: set<int>, more: set<int>, all: set<int>,
                                v: Finding, ambig: bool, v2: Finding, ambig2: bool) {
    && all == found + more
    && OpenTally(query, found, v, ambig) && OpenTally(query, more, v2, ambig2)
    && v.dst2src != CONTAINED_PUBLIC && v2.dst2src != CONTAINED_PUBLIC
    && (v.dstPtr != NULL && v2.dstPtr != NULL ==> v.dstPtr == v2.dstPtr)
    && (v.whole2src == UNKNOWN || ContainedPublic(v.whole2src))
  }

  ghost predicate MergeableEither(query: Query, kind: Kind, c: ClassType, p: int, access: SubKind, found: set<int>,
                                  more: set<int>,
                                  all: set<int>, v: Finding, ambig: bool, v2: Finding, ambig2: bool) {
    match kind
    case NoVirtualBases => Mergeable(query, c, p, access, found, more, all, v, ambig, v2, ambig2)
    case OnlyPublicBases => OpenMergeable(query, found, more, all, v, ambig, v2, ambig2)
  }

  ghost predicate EndedEither(query: Query, kind: Kind, c: ClassType, p: int, access: SubKind, flags: Details,
                              found: set<int>,
                              v: Finding, ambig: bool, stop: bool) {
    match kind
    case NoVirtualBases => Ended(query, c, p, access, flags, found, v, ambig, stop)
    case OnlyPublicBases => OpenEnded(query, found, v, ambig, stop)
  }

  ghost predicate OpenEnded(query: Query, found: set<int>, v: Finding, ambig: bool, stop: bool) {
    OpenTally(query, found, v, ambig) && v.dst2src != CONTAINED_PUBLIC
      && (stop ==> v.dstPtr != NULL && v.whole2src != UNKNOWN)
  }

  lemma ReadyIsMergeable(query: Query, skip: bool, c: ClassType, p: int, access: SubKind, i: nat, done: set<nat>,
                         v: Finding, ambig: bool, v2: Finding, ambig2: bool)
    requires c.VmiClass? && i < |c.bases| && i !in done && c != query.dst && Ready(query, c, p)
    requires InOrder(query, skip, c, i, done)
    requires Progress(query, skip, c, p, access, done, v, ambig)
    requires OutcomeOfBase(query, skip, c, p, access, i, v2, ambig2)
    requires v2.dst2src != CONTAINED_PUBLIC
    ensures Mergeable(query, c, p, access, FoundIn(query, skip, c, p, done),
                      PlacesInBase(query.vb, skip, p, c.bases[i], query.dst), FoundIn(query, skip, c, p, done + {i}),
                      v.(whole2src := v.whole2src | v2.whole2src), ambig, v2, ambig2)
    ensures SrcStatus(query, skip, c, p, access, done + {i}, v.whole2src | v2.whole2src)
  {
    ReadyToMerge(query, skip, c, p, access, i, done, v, ambig, v2, ambig2);
  }

  lemma ReadyToMergeEither(query: Query, kind: Kind, skip: bool, c: ClassType, p: int, access: SubKind, i: nat,
                           done: set<nat>,
                           v: Finding, ambig: bool, v2: Finding, ambig2: bool)
    requires c.VmiClass? && i < |c.bases| && i !in done && c != query.dst && Searchable(query, kind, c, p, access)
    requires InOrder(query, skip, c, i, done)
    requires Going(query, kind, skip, c, p, access, done, v, ambig)
    requires FoundInBase(query, kind, skip, c, p, access, i, v2, ambig2)
    requires v2.dst2src != CONTAINED_PUBLIC && v2.dst2src != CONTAINED_AMBIG
    ensures MergeableEither(query, kind, c, p, access, FoundIn(query, skip, c, p, done),
                            PlacesInBase(query.vb, skip, p, c.bases[i], query.dst),
                              FoundIn(query, skip, c, p, done + {i}),
                            v.(whole2src := v.whole2src | v2.whole2src), ambig, v2, ambig2)
    ensures SourceEither(query, kind, skip, c, p, access, done + {i}, v.whole2src | v2.whole2src)
  {
    if kind.OnlyPublicBases? {
      OpenReadyToMerge(query, skip, c, p, i, done, v, ambig, v2, ambig2);
      OpenSourceJoined(query, c, p, i, done, v.whole2src, v2);
    } else {
      ReadyIsMergeable(query, skip, c, p, access, i, done, v, ambig, v2, ambig2);
    }
  }

  // What is known of the source after another base.
  ghost predicate SourceEither(query: Query, kind: Kind, skip: bool, c: ClassType, p: int, access: SubKind,
                               done: set<nat>, whole2src: SubKind)
    requires c.VmiClass?
  {
    match kind
    case NoVirtualBases => SrcStatus(query, skip, c, p, access, done, whole2src)
    case OnlyPublicBases => OpenSaw(query, c, p, whole2src) || MissedIn(query, false, c, p, done, whole2src)
  }

  lemma OpenReadyToMerge(query: Query, skip: bool, c: ClassType, p: int, i: nat, done: set<nat>,
                         v: Finding, ambig: bool, v2: Finding, ambig2: bool)
    requires c.VmiClass? && i < |c.bases| && OpenReady(query, c, p)
    requires OpenProgress(query, c, p, done, v, ambig)
    requires OpenOutcome(query, c.bases[i].cls, ConvertToBase(query.vb, p, c.bases[i]), v2, ambig2)
    requires v2.dst2src != CONTAINED_PUBLIC
    ensures OpenMergeable(query, FoundIn(query, skip, c, p, done),
                          PlacesInBase(query.vb, skip, p, c.bases[i], query.dst),
                          FoundIn(query, skip, c, p, done + {i}),
                          v.(whole2src := v.whole2src | v2.whole2src), ambig, v2, ambig2)
  {
    SkipIrrelevant(query, skip, c, p, done, i);
    FoundInMore(query, skip, c, p, i, done);
    FoundInMore(query, false, c, p, i, done);
    if v.dstPtr != NULL && v2.dstPtr != NULL {
      assert v.dstPtr in FoundIn(query, false, c, p, done);
      assert v2.dstPtr in PlacesInBase(query.vb, false, p, c.bases[i], query.dst);
      OpenStop(query, c, p, v.dstPtr);
    }
  }

  // With only public bases it makes no difference whether private ones are skipped.
  lemma SkipIrrelevant(query: Query, skip: bool, c: ClassType, p: int, done: set<nat>, i: nat)
    requires c.VmiClass? && AllPublic(c) && i < |c.bases|
    ensures FoundIn(query, skip, c, p, done) == FoundIn(query, false, c, p, done)
    ensures PlacesInBase(query.vb, skip, p, c.bases[i], query.dst) ==
            PlacesInBase(query.vb, false, p, c.bases[i], query.dst)
  {
    forall j | 0 <= j < |c.bases|
      ensures PlacesInBase(query.vb, skip, p, c.bases[j], query.dst) ==
            PlacesInBase(query.vb, false, p, c.bases[j], query.dst)
    {
      AllPublicPlaces(query.vb, c.bases[j].cls, ConvertToBase(query.vb, p, c.bases[j]), query.dst);
    }
  }

  lemma ConcludedEither(query: Query, kind: Kind, skip: bool, c: ClassType, p: int, access: SubKind, i: nat,
                        done: set<nat>,
                        v: Finding, ambig: bool, stop: bool)
    requires c.VmiClass? && i < |c.bases| && i !in done && c != query.dst && Searchable(query, kind, c, p, access)
    requires EndedEither(query, kind, c, p, access, c.flags, FoundIn(query, skip, c, p, done + {i}), v, ambig, stop)
    requires SourceEither(query, kind, skip, c, p, access, done + {i}, v.whole2src)
    ensures stop ==> Found(query, kind, skip, c, p, access, v, ambig)
    ensures !stop ==> Going(query, kind, skip, c, p, access, done + {i}, v, ambig)
  {
    if kind.NoVirtualBases? {
      Concluded(query, skip, c, p, access, i, done, v, ambig, stop);
    } else {
      SkipIrrelevant(query, skip, c, p, done + {i}, i);
      if stop {
        OpenConcluded(query, c, p, done + {i}, v);
      }
    }
  }

  lemma OpenConcluded(query: Query, c: ClassType, p: int, done: set<nat>, v: Finding)
    requires c.VmiClass? && OpenReady(query, c, p)
    requires OpenEnded(query, FoundIn(query, false, c, p, done), v, false, true)
    requires OpenSaw(query, c, p, v.whole2src)
    ensures OpenOutcome(query, c, p, v, false)
  {
    assert v.dstPtr in FoundIn(query, false, c, p, done);
    OpenStop(query, c, p, v.dstPtr);
  }

  // How one round of a search ends: with a final answer, or with a tally of everything so far.
  ghost predicate Ended(query: Query, c: ClassType, p: int, access: SubKind, flags: Details, found: set<int>,
                        v: Finding,
                        ambig: bool, stop: bool) {
    if stop then
      || HitTarget(query, found, v, ambig)
      || HitBoth(query, found, v, ambig)
      || ((v.dst2src == UNKNOWN || v.dst2src == NOT_CONTAINED) && v.whole2src == CONTAINED_PRIVATE)
      || (flags & NON_DIAMOND_REPEAT_MASK == 0 && v.dstPtr != NULL && v.whole2src == CONTAINED_PUBLIC
          && Tally(query, c, p, access, found, v, ambig))
    else
      v.whole2src != CONTAINED_PRIVATE && Tally(query, c, p, access, found, v, ambig)
  }

  // A target meets a rival, or a set of them. If exactly one of the two holds the source publicly,
  // it wins.
  method Disambiguate(query: Query, flags: Details, result: DyncastResult, ambig0: bool, result2: DyncastResult,
                      ambig2: bool,
                      ghost found: set<int>, ghost more: set<int>)
    returns (ambig: bool, stop: bool)
    requires result != result2 && NoVirtual(query.dst) && !Holds(query, NULL) && !Virtual(result.whole2src)
    requires result.dst2src == UNKNOWN || result.dst2src == NOT_CONTAINED
    requires result2.dst2src == UNKNOWN || result2.dst2src == NOT_CONTAINED
    requires result.dstPtr != NULL || result2.dstPtr != NULL
    requires !Contained(result.whole2src) ==>
      && result.dstPtr != result2.dstPtr
      && (result.dstPtr != NULL ==> result.dstPtr in found)
      && (result2.dstPtr != NULL ==> result2.dstPtr in more)
      && FindsRight(query, result.dstPtr) && FindsRight(query, result2.dstPtr)
      && (result.dst2src == NOT_CONTAINED ==> !Holds(query, result.dstPtr))
      && (result2.dst2src == NOT_CONTAINED ==> !Holds(query, result2.dstPtr))
    modifies result
    ensures result.wholeDetails == old(result.wholeDetails) && result.whole2src == old(result.whole2src)
    ensures stop ==>
      || HitTarget(query, found + more, result.View(), ambig)
      || HitBoth(query, found + more, result.View(), ambig)
    ensures !stop ==> ambig && result.dstPtr == NULL && result.dst2src == NOT_CONTAINED
    ensures !stop && !Contained(result.whole2src) ==>
      !Holds(query, old(result.dstPtr)) && !Holds(query, result2.dstPtr)
  {
    ambig := ambig0;
    var newKind, oldKind := Choices(query, flags, result, result2);
    if Contained(newKind ^ oldKind) {
      // One of the two holds the source.
      if Contained(newKind) {
        result.dstPtr := result2.dstPtr;
        result.whole2dst := result2.whole2dst;
        ambig := false;
        oldKind := newKind;
      }
      result.dst2src := oldKind;
      if Public(oldKind) {
        return false, true;
      }
      if !Virtual(oldKind) {
        return false, true;
      }
    } else if Contained(newKind & oldKind) {
      // Both hold it.
      result.dstPtr := NULL;
      result.dst2src := CONTAINED_AMBIG;
      return true, true;
    } else {
      // Neither holds it publicly; a third target still may.
      result.dstPtr := NULL;
      result.dst2src := NOT_CONTAINED;
      ambig := true;
    }
    stop := false;
  }

  // Whether the new and the old choice contain the source, worked out only where it is not known.
  method Choices(query: Query, flags: Details, result: DyncastResult, result2: DyncastResult)
    returns (newKind: SubKind, oldKind: SubKind)
    requires NoVirtual(query.dst) && !Virtual(result.whole2src)
    requires result.dst2src == UNKNOWN || result.dst2src == NOT_CONTAINED
    requires result2.dst2src == UNKNOWN || result2.dst2src == NOT_CONTAINED
    requires !Contained(result.whole2src) ==>
      && FindsRight(query, result.dstPtr) && FindsRight(query, result2.dstPtr)
      && (result.dst2src == NOT_CONTAINED ==> !Holds(query, result.dstPtr))
      && (result2.dst2src == NOT_CONTAINED ==> !Holds(query, result2.dstPtr))
    ensures Contained(result.whole2src) ==> oldKind == newKind == NOT_CONTAINED
    ensures !Contained(result.whole2src) ==>
      && oldKind == (if Holds(query, result.dstPtr) then CONTAINED_PUBLIC else NOT_CONTAINED)
      && (newKind == NOT_CONTAINED || (newKind == CONTAINED_PUBLIC && Holds(query, result2.dstPtr)))
      && (newKind == NOT_CONTAINED && Holds(query, result2.dstPtr) ==> Holds(query, result.dstPtr))
  {
    newKind, oldKind := result2.dst2src, result.dst2src;
    var details := result.wholeDetails;
    if Contained(result.whole2src) && (!Virtual(result.whole2src) || details & DIAMOND_SHAPED_MASK == 0) {
      // The source has turned up outside both.
      if oldKind == UNKNOWN {
        oldKind := NOT_CONTAINED;
      }
      if newKind == UNKNOWN {
        newKind := NOT_CONTAINED;
      }
    } else {
      if oldKind >= NOT_CONTAINED {
        // known
      } else if Contained(newKind) && (!Virtual(newKind) || flags & DIAMOND_SHAPED_MASK == 0) {
        oldKind := NOT_CONTAINED;
      } else {
        oldKind := FindSrc(query, result.dstPtr);
      }
      if newKind >= NOT_CONTAINED {
        // known
      } else if Contained(oldKind) && (!Virtual(oldKind) || flags & DIAMOND_SHAPED_MASK == 0) {
        newKind := NOT_CONTAINED;
      } else {
        newKind := FindSrc(query, result2.dstPtr);
      }
    }
  }
}
