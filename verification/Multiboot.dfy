// Choosing the one memory region that the boot loader's map contributes to the heap on x86_64.
module Multiboot {
  import opened Limits
  import opened Options
  import opened Paging

  datatype MapEntry = MapEntry(addr: nat, len: nat, kind: nat)

  const MULTIBOOT_MEMORY_AVAILABLE: nat := 1

  datatype BootRegion = BootRegion(start: nat, end: nat)

  predicate Candidate(e: MapEntry) {
    e.addr >= 0x1000 && e.kind == MULTIBOOT_MEMORY_AVAILABLE
  }

  // The first of the longest candidates.
  ghost predicate Largest(mmap: seq<MapEntry>, k: int) {
    && 0 <= k < |mmap| && Candidate(mmap[k])
    && (forall j :: 0 <= j < |mmap| && Candidate(mmap[j]) ==> mmap[j].len <= mmap[k].len)
    && (forall j :: 0 <= j < k && Candidate(mmap[j]) ==> mmap[j].len < mmap[k].len)
  }

  // The entry that is chosen among the first so many, if there is a candidate among them.
  function Chosen(mmap: seq<MapEntry>): (k: Option<nat>)
    ensures k.Some? ==> k.value < |mmap| && Candidate(mmap[k.value])
  {
    if mmap == [] then None
    else
      var n := |mmap| - 1;
      match Chosen(mmap[..n])
      case None => if Candidate(mmap[n]) then Some(n) else None
      case Some(k) => if Candidate(mmap[n]) && mmap[k].len < mmap[n].len then Some(n) else Some(k)
  }

  // The fields of an entry are 64-bit words.
  predicate FieldsOk(e: MapEntry) {
    e.addr < ULONG_LIMIT && e.len < ULONG_LIMIT
  }

  // What of a region lies between boundaries of 2 MiB, in 64-bit arithmetic; its last, possibly full,
  // page is given up.
  function Inner(e: MapEntry): Option<BootRegion>
    requires e.addr > 0
  {
    var start, end := ((e.addr - 1) / MIB2 * MIB2 + MIB2) % ULONG_LIMIT, (e.addr + e.len) % ULONG_LIMIT;
    if start >= end then None else Some(BootRegion(start, (end - 1) / MIB2 * MIB2))
  }

  // Entry k is available memory at or above 4 KiB, and the first of the longest such entries.
  ghost predicate Longest(mmap: seq<MapEntry>, k: nat)
    requires k < |mmap|
  {
    && mmap[k].kind == 1 && mmap[k].addr >= 0x1000
    && forall j :: 0 <= j < |mmap| && mmap[j].kind == 1 && mmap[j].addr >= 0x1000 ==>
         mmap[j].len < mmap[k].len || (mmap[j].len == mmap[k].len && k <= j)
  }

  method FindLargest(mmap: seq<MapEntry>) returns (hasLargest: bool, addr: nat, len: nat, ghost k: int)
    ensures hasLargest ==> Largest(mmap, k) && addr == mmap[k].addr && len == mmap[k].len
    ensures !hasLargest ==> forall j :: 0 <= j < |mmap| ==> !Candidate(mmap[j])
  {
    hasLargest := false;
    addr, len, k := 0, 0, -1;
    var i := 0;
    while i < |mmap|
      invariant 0 <= i <= |mmap|
      invariant hasLargest ==> 0 <= k < i && Candidate(mmap[k]) && addr == mmap[k].addr && len == mmap[k].len
      invariant hasLargest ==> forall j :: 0 <= j < i && Candidate(mmap[j]) ==>
          mmap[j].len <= len && (j < k ==> mmap[j].len < len)
      invariant !hasLargest ==> forall j :: 0 <= j < i ==> !Candidate(mmap[j])
    {
      var entry := mmap[i];
      i := i + 1;
      if entry.addr < 0x1000 {
        continue;
      }
      if entry.kind != MULTIBOOT_MEMORY_AVAILABLE {
        continue;
      }
      if !hasLargest || len < entry.len {
        hasLargest := true;
        addr := entry.addr;
        len := entry.len;
        k := i - 1;
      }
    }
  }

  // mmap is all that the loop visits.
  method ParseMultiboot(mmap: seq<MapEntry>) returns (region: Option<BootRegion>)
    ensures region == Published(mmap)
    ensures (forall j :: 0 <= j < |mmap| ==> mmap[j].kind != 1 || mmap[j].addr < 0x1000) ==> region == None
    ensures forall k :: 0 <= k < |mmap| && Longest(mmap, k) ==> region == Inner(mmap[k])
  {
    ChosenIsLargest(mmap);
    forall k | 0 <= k < |mmap| && Longest(mmap, k) ensures Largest(mmap, k) {}
    var hasLargest, addr, len, k := FindLargest(mmap);
    if !hasLargest {
      return None;
    }
    OneLargest(mmap, k);
    region := Align(addr, len, mmap[k]);
  }

  // The 2 MiB boundaries, in 64-bit arithmetic.
  method Align(start: nat, len: nat, ghost e: MapEntry) returns (region: Option<BootRegion>)
    requires start == e.addr > 0 && len == e.len
    ensures region == Inner(e)
  {
    var memEnd := (start + len) % ULONG_LIMIT;
    var addr := ((start - 1) / MIB2 * MIB2 + MIB2) % ULONG_LIMIT;
    if addr >= memEnd {
      return None;
    }
    memEnd := (memEnd - 1) / MIB2 * MIB2;
    return Some(BootRegion(addr, memEnd));
  }

  lemma OneLargest(mmap: seq<MapEntry>, k: int)
    requires Largest(mmap, k)
    ensures forall j :: Largest(mmap, j) ==> j == k
  {
    forall j | Largest(mmap, j) ensures j == k {
      assert mmap[j].len <= mmap[k].len <= mmap[j].len;
    }
  }

  // ---------- The map and what lies behind it ----------

  lemma {:induction false} ChosenIsLargest(mmap: seq<MapEntry>)
    ensures Chosen(mmap).Some? ==> Largest(mmap, Chosen(mmap).value)
    ensures Chosen(mmap) == None <==> forall j :: 0 <= j < |mmap| ==> !Candidate(mmap[j])
    decreases |mmap|
  {
    if mmap != [] {
      var n := |mmap| - 1;
      ChosenIsLargest(mmap[..n]);
      forall j | 0 <= j < n ensures mmap[..n][j] == mmap[j] {}
    }
  }

  // The loop takes the length of the map in bytes for its number of entries, and so reads on behind
  // the n entries there are. The choice is the right one exactly if nothing behind them that looks
  // like available memory is longer than what the map has to offer.
  lemma RightChoiceIff(mmap: seq<MapEntry>, n: nat)
    requires n <= |mmap|
    ensures Chosen(mmap) == Chosen(mmap[..n]) <==>
            forall j :: n <= j < |mmap| && Candidate(mmap[j]) ==>
              Chosen(mmap[..n]).Some? && mmap[j].len <= mmap[Chosen(mmap[..n]).value].len
  {
    ChosenIsLargest(mmap);
    ChosenIsLargest(mmap[..n]);
    forall j | 0 <= j < n ensures mmap[..n][j] == mmap[j] {}
    match Chosen(mmap[..n])
    case None =>
    case Some(k) =>
      if forall j :: n <= j < |mmap| && Candidate(mmap[j]) ==> mmap[j].len <= mmap[k].len {
        assert Largest(mmap, k);
        OneLargest(mmap, k);
      }
  }

  // What the code publishes for a map of n entries, read together with what lies behind them.
  lemma PublishedRight(mmap: seq<MapEntry>, n: nat)
    requires n <= |mmap|
    ensures Chosen(mmap) == Chosen(mmap[..n]) ==> Published(mmap) == Published(mmap[..n])
  {
    ChosenIsLargest(mmap);
    ChosenIsLargest(mmap[..n]);
  }

  function Published(mmap: seq<MapEntry>): Option<BootRegion> {
    match Chosen(mmap)
    case None => None
    case Some(k) => Inner(mmap[k])
  }

  const ENTRY_SIZE: nat := 24

  lemma LargestIsChosen(mmap: seq<MapEntry>, k: nat)
    requires Largest(mmap, k)
    ensures Chosen(mmap) == Some(k)
  {
    ChosenIsLargest(mmap);
    OneLargest(mmap, k);
  }

  // A map of one entry, with 16 MiB at 1 MiB, is 24 bytes long, and so 24 entries are visited: one of
  // the others looks like a gibibyte of memory.
  ghost predicate BehindMap(mmap: seq<MapEntry>) {
    && |mmap| == ENTRY_SIZE
    && mmap[0] == MapEntry(0x10_0000, 0x100_0000, 1) && mmap[1] == MapEntry(0x4000_0000, 0x4000_0000, 1)
    && forall i :: 2 <= i < ENTRY_SIZE ==> mmap[i] == MapEntry(0, 0, 0)
  }

  // What looks like memory is published, instead of the memory there is.
  method ReadBehindMap() returns (mmap: seq<MapEntry>, region: Option<BootRegion>)
    ensures BehindMap(mmap) && region == Published(mmap) == Some(BootRegion(0x4000_0000, 0x7fe0_0000))
    ensures Published(mmap[..1]) == Some(BootRegion(0x20_0000, 0x100_0000))
  {
    mmap := seq(ENTRY_SIZE, i => MapEntry(0, 0, 0));
    mmap := mmap[0 := MapEntry(0x10_0000, 0x100_0000, 1)][1 := MapEntry(0x4000_0000, 0x4000_0000, 1)];
    region := ParseMultiboot(mmap);
    BehindMapChoices(mmap);
  }

  lemma BehindMapChoices(mmap: seq<MapEntry>)
    requires BehindMap(mmap)
    ensures Chosen(mmap) == Some(1) && Chosen(mmap[..1]) == Some(0)
  {
    LargestIsChosen(mmap, 1);
    LargestIsChosen(mmap[..1], 0);
  }

  // What is published is aligned to 2 MiB and in order. It lies inside the chosen region, as long as
  // the region allows but for its last page, unless it starts at 0.
  lemma InnerInside(e: MapEntry)
    requires Candidate(e) && FieldsOk(e)
    ensures Inner(e).Some? ==>
      var r := Inner(e).value;
      && r.start % MIB2 == 0 && r.end % MIB2 == 0 && r.start <= r.end
      && (r.start != 0 ==>
            && e.addr <= r.start < e.addr + MIB2 && e.addr + e.len - MIB2 <= r.end < e.addr + e.len)
  {
    AlignedStart(e.addr);
    if e.addr + e.len < ULONG_LIMIT {
      assert (e.addr + e.len) % ULONG_LIMIT == e.addr + e.len;
    } else {
      assert (e.addr + e.len) % ULONG_LIMIT == e.addr + e.len - ULONG_LIMIT;
    }
  }

  lemma AlignedStart(a: nat)
    requires 0 < a < ULONG_LIMIT
    ensures
      var start := ((a - 1) / MIB2 * MIB2 + MIB2) % ULONG_LIMIT;
      if a > ULONG_LIMIT - MIB2 then start == 0 else start % MIB2 == 0 && a <= start < a + MIB2
  {
    var up := (a - 1) / MIB2 * MIB2 + MIB2;
    assert a <= up < a + MIB2 && up % MIB2 == 0;
    assert up <= ULONG_LIMIT;
  }

  // Nothing is published exactly if the region has no boundary inside, or its end wraps around while
  // its aligned start does not.
  lemma NothingPublishedIff(e: MapEntry)
    requires Candidate(e) && FieldsOk(e)
    ensures Inner(e) == None <==>
      if e.addr + e.len < ULONG_LIMIT then
        e.addr <= ULONG_LIMIT - MIB2 && (e.addr + MIB2 - 1) / MIB2 * MIB2 >= e.addr + e.len
      else e.addr <= ULONG_LIMIT - MIB2 || e.addr + e.len == ULONG_LIMIT
  {
    AlignedStart(e.addr);
    if e.addr + e.len < ULONG_LIMIT {
      assert (e.addr + e.len) % ULONG_LIMIT == e.addr + e.len;
      assert (e.addr + MIB2 - 1) / MIB2 == (e.addr - 1) / MIB2 + 1;
    } else {
      assert (e.addr + e.len) % ULONG_LIMIT == e.addr + e.len - ULONG_LIMIT;
    }
  }

  // From the boot loader's map to the page tables, for every map: the region's length does not wrap
  // around, a region that is not the chosen one's inside is refused, and when the region ends at or
  // below 512 GiB, the whole heap is mapped to itself.
  lemma FromMapToTables(mmap: seq<MapEntry>, k: int, t: Tables, a: nat)
    requires Largest(mmap, k) && FieldsOk(mmap[k]) && Inner(mmap[k]).Some?
    ensures
      var r := Inner(mmap[k]).value;
      && r.start <= r.end
      && (Usable(1, true, r.start, r.end) <==> r.start != 0 && r.end - r.start >= MIB2 && r.start < LIMIT)
      && (Usable(1, true, r.start, r.end) ==> mmap[k].addr <= r.start && r.end < mmap[k].addr + mmap[k].len)
      && (Usable(1, true, r.start, r.end) && mmap[k].addr + mmap[k].len <= LIMIT ==>
            SetUp(t, r.start, r.end) && r.start <= a < r.end ==> Walk(t, a) == Some(a))
  {
    InnerInside(mmap[k]);
    var r := Inner(mmap[k]).value;
    assert r.end < ULONG_LIMIT;
    if Usable(1, true, r.start, r.end) && mmap[k].addr + mmap[k].len <= LIMIT && SetUp(t, r.start, r.end) {
      IdentityMapped(t, r.start, r.end, a);
    }
  }
}
