// Where subobjects lie, by the paths of bases that lead to them.
module Paths {
  import opened ClassTypes
  import opened Options

  // The bases taken, each by its place in the list of its class.
  type Path = seq<nat>

  // The path leads from class c to class x, with publicOnly over public bases.
  ghost predicate Leads(publicOnly: bool, c: ClassType, x: ClassType, path: Path)
    decreases |path|
  {
    if path == [] then c == x
    else
      match c
      case Class(_) => false
      case SiClass(_, base) => path[0] == 0 && Leads(publicOnly, base, x, path[1..])
      case VmiClass(_, _, bases) =>
        && path[0] < |bases| && (publicOnly ==> bases[path[0]].isPublic)
        && Leads(publicOnly, bases[path[0]].cls, x, path[1..])
  }

  // The sum of the offsets written down for the bases of a path. A single base lies at the start.
  function Offsets(c: ClassType, path: Path): int
    decreases |path|
  {
    if path == [] then 0
    else
      match c
      case Class(_) => 0
      case SiClass(_, base) => Offsets(base, path[1..])
      case VmiClass(_, _, bases) =>
        if path[0] >= |bases| then 0 else bases[path[0]].offset + Offsets(bases[path[0]].cls, path[1..])
  }

  // The last virtual base on a path, and the rest of the path from there.
  function LastVirtual(c: ClassType, path: Path): Option<(ClassType, Path)>
    decreases |path|
  {
    if path == [] then None
    else
      match c
      case Class(_) => None
      case SiClass(_, base) => LastVirtual(base, path[1..])
      case VmiClass(_, _, bases) =>
        if path[0] >= |bases| then None
        else
          var b := bases[path[0]];
          match LastVirtual(b.cls, path[1..])
          case Some(later) => Some(later)
          case None => if b.isVirtual then Some((b.cls, path[1..])) else None
  }

  // Where a path ends: the offsets add up from the object at p, or from the last virtual base, which
  // lies where the complete object keeps it.
  function EndOfPath(vb: VirtualBases, c: ClassType, p: int, path: Path): int {
    match LastVirtual(c, path)
    case None => p + Offsets(c, path)
    case Some((v, rest)) => vb(v) + Offsets(v, rest)
  }

  // An object of class c at p has a subobject of class x at q exactly if a path leads there.
  lemma PlacesByPaths(vb: VirtualBases, publicOnly: bool, c: ClassType, p: int, x: ClassType, q: int)
    ensures q in Places(vb, publicOnly, c, p, x) <==>
            exists path :: Leads(publicOnly, c, x, path) && EndOfPath(vb, c, p, path) == q
  {
    if q in Places(vb, publicOnly, c, p, x) {
      var path := PathTo(vb, publicOnly, c, p, x, q);
    }
    if path :| Leads(publicOnly, c, x, path) && EndOfPath(vb, c, p, path) == q {
      PlaceAtEnd(vb, publicOnly, c, p, x, path);
    }
  }

  lemma {:induction false} PathTo(vb: VirtualBases, publicOnly: bool, c: ClassType, p: int, x: ClassType, q: int)
    returns (path: Path)
    requires q in Places(vb, publicOnly, c, p, x)
    ensures Leads(publicOnly, c, x, path) && EndOfPath(vb, c, p, path) == q
    decreases c
  {
    if c == x && p == q {
      path := [];
    } else {
      match c
      case SiClass(_, base) =>
        var rest := PathTo(vb, publicOnly, base, p, x, q);
        path := [0] + rest;
        assert path[1..] == rest;
      case VmiClass(_, _, bases) =>
        var i: nat :| i < |bases| && q in PlacesInBase(vb, publicOnly, p, bases[i], x);
        var rest := PathTo(vb, publicOnly, bases[i].cls, ConvertToBase(vb, p, bases[i]), x, q);
        path := [i] + rest;
        assert path[1..] == rest;
    }
  }

  lemma {:induction false} PlaceAtEnd(vb: VirtualBases, publicOnly: bool, c: ClassType, p: int, x: ClassType,
                                      path: Path)
    requires Leads(publicOnly, c, x, path)
    ensures EndOfPath(vb, c, p, path) in Places(vb, publicOnly, c, p, x)
    decreases |path|
  {
    if path != [] {
      match c
      case SiClass(_, base) => PlaceAtEnd(vb, publicOnly, base, p, x, path[1..]);
      case VmiClass(_, _, bases) =>
        var b := bases[path[0]];
        PlaceAtEnd(vb, publicOnly, b.cls, ConvertToBase(vb, p, b), x, path[1..]);
        assert EndOfPath(vb, c, p, path) in PlacesInBase(vb, publicOnly, p, b, x);
    }
  }

  // Without virtual bases, every subobject lies at the sum of the offsets on a path.
  lemma {:induction false} NoVirtualOnPath(c: ClassType, x: ClassType, path: Path)
    requires NoVirtual(c) && Leads(false, c, x, path)
    ensures LastVirtual(c, path) == None
    decreases |path|
  {
    if path != [] {
      match c
      case SiClass(_, base) => NoVirtualOnPath(base, x, path[1..]);
      case VmiClass(_, _, bases) => NoVirtualOnPath(bases[path[0]].cls, x, path[1..]);
    }
  }
}
