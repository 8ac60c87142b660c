// The page tables that identity-map the heap on x86_64, with pages of 1 GiB where possible and of
// 2 MiB elsewhere.
module Paging {
  import opened Limits
  import opened Options

  const MIB2: nat := 0x20_0000
  const GIB: nat := 0x4000_0000
  const LIMIT: nat := 0x80_0000_0000  // 512 GiB, what one page directory pointer table covers
  const PAGE: nat := 0x1000
  const PAGE_FLAGS: nat := 0x83  // page size extension, present, writable
  const PDT_FLAGS: nat := 0x3    // present, writable
  const LOW: nat := 0x80_0000    // the 8 MiB mapped before

  // The tables in memory: the page directory pointer table, the directory installed at start-up,
  // and two more directories, with the addresses of the directories.
  datatype Tables = Tables(pdpt: seq<nat>, pdt0: seq<nat>, pdt1: seq<nat>, pdt2: seq<nat>, at0: nat, at1: nat, at2: nat)

  ghost predicate WellPlaced(t: Tables) {
    && |t.pdpt| == |t.pdt0| == |t.pdt1| == |t.pdt2| == 512
    && t.at0 % PAGE == t.at1 % PAGE == t.at2 % PAGE == 0
    && t.at0 != t.at1 && t.at0 != t.at2 && t.at1 != t.at2
  }

  // ---------- What the processor makes of the tables ----------

  // Present, and open for reading and writing.
  predicate Open(entry: nat) { entry % 4 == 3 }

  predicate IsPage(entry: nat) { entry / 0x80 % 2 == 1 }

  // The directory at an address, if it is one of ours.
  function Directory(t: Tables, at: nat): Option<seq<nat>> {
    if at == t.at0 then Some(t.pdt0)
    else if at == t.at1 then Some(t.pdt1)
    else if at == t.at2 then Some(t.pdt2)
    else None
  }

  // The walk from the page directory pointer table down.
  function Walk(t: Tables, a: nat): Option<nat>
    requires |t.pdpt| == |t.pdt0| == |t.pdt1| == |t.pdt2| == 512
  {
    if a / GIB >= 512 then None
    else
      var entry := t.pdpt[a / GIB];
      if !Open(entry) then None
      else if IsPage(entry) then Some(entry / GIB * GIB + a % GIB)
      else
        match Directory(t, entry / PAGE * PAGE)
        case None => None
        case Some(directory) =>
          var entry2 := directory[a / MIB2 % 512];
          if !Open(entry2) || !IsPage(entry2) then None
          else Some(entry2 / MIB2 * MIB2 + a % MIB2)
  }

  // ---------- Tables that translate nothing to anything but itself ----------

  ghost predicate DirectoryOk(directory: seq<nat>, i: nat) {
    forall j :: 0 <= j < |directory| ==> directory[j] == 0 || directory[j] == i * GIB + j * MIB2 + PAGE_FLAGS
  }

  ghost predicate EntryOk(t: Tables, i: nat)
    requires i < |t.pdpt|
  {
    || t.pdpt[i] == 0
    || t.pdpt[i] == i * GIB + PAGE_FLAGS
    || (t.pdpt[i] == t.at0 + PDT_FLAGS && DirectoryOk(t.pdt0, i))
    || (t.pdpt[i] == t.at1 + PDT_FLAGS && DirectoryOk(t.pdt1, i))
    || (t.pdpt[i] == t.at2 + PDT_FLAGS && DirectoryOk(t.pdt2, i))
  }

  // The block of 2 MiB number j in slot i is mapped to itself.
  ghost predicate Covered(t: Tables, i: nat, j: nat)
    requires i < |t.pdpt| && j < |t.pdt0| == |t.pdt1| == |t.pdt2|
  {
    var page := i * GIB + j * MIB2 + PAGE_FLAGS;
    || t.pdpt[i] == i * GIB + PAGE_FLAGS
    || (t.pdpt[i] == t.at0 + PDT_FLAGS && t.pdt0[j] == page)
    || (t.pdpt[i] == t.at1 + PDT_FLAGS && t.pdt1[j] == page)
    || (t.pdpt[i] == t.at2 + PDT_FLAGS && t.pdt2[j] == page)
  }

  lemma PageBits(base: nat)
    requires base % PAGE == 0
    ensures Open(base + PAGE_FLAGS) && IsPage(base + PAGE_FLAGS)
  {
    OpenBits(base / PAGE, 32);
    PageBit(base / PAGE, 1, 3);
  }

  lemma TableBits(base: nat)
    requires base % PAGE == 0
    ensures Open(base + PDT_FLAGS) && !IsPage(base + PDT_FLAGS) && (base + PDT_FLAGS) / PAGE * PAGE == base
  {
    OpenBits(base / PAGE, 0);
    PageBit(base / PAGE, 0, 3);
  }

  lemma OpenBits(k: nat, m: nat)
    ensures Open(k * PAGE + 4 * m + 3)
  {
    assert k * PAGE + 4 * m + 3 == 4 * (k * 1024 + m) + 3;
  }

  lemma PageBit(k: nat, bit: nat, rest: nat)
    requires bit < 2 && rest < 0x80
    ensures IsPage(k * PAGE + 0x80 * bit + rest) <==> bit == 1
  {
    assert k * PAGE + 0x80 * bit + rest == 0x80 * (2 * (16 * k) + bit) + rest;
  }

  lemma AddressParts(a: nat) returns (i: nat, j: nat)
    requires a < LIMIT
    ensures i == a / GIB && j == a / MIB2 % 512 && i < 512 && j < 512
    ensures a == i * GIB + a % GIB && a == i * GIB + j * MIB2 + a % MIB2
  {
    i, j := a / GIB, a / MIB2 % 512;
  }

  lemma WalkHugePage(t: Tables, a: nat)
    requires WellPlaced(t) && a < LIMIT && t.pdpt[a / GIB] == a / GIB * GIB + PAGE_FLAGS
    ensures Walk(t, a) == Some(a)
  {
    var i, j := AddressParts(a);
    PageBits(i * GIB);
    assert (i * GIB + PAGE_FLAGS) / GIB == i;
  }

  lemma WalkDirectory(t: Tables, a: nat, at: nat, directory: seq<nat>)
    requires WellPlaced(t) && a < LIMIT && at % PAGE == 0
    requires t.pdpt[a / GIB] == at + PDT_FLAGS && Directory(t, at) == Some(directory)
    requires directory[a / MIB2 % 512] == 0
        || directory[a / MIB2 % 512] == a / GIB * GIB + a / MIB2 % 512 * MIB2 + PAGE_FLAGS
    ensures Walk(t, a) == if directory[a / MIB2 % 512] == 0 then None else Some(a)
  {
    var i, j := AddressParts(a);
    TableBits(at);
    PageOfSlot(i, j);
  }

  lemma PageOfSlot(i: nat, j: nat)
    ensures
      var entry := i * GIB + j * MIB2 + PAGE_FLAGS;
      Open(entry) && IsPage(entry) && entry / MIB2 * MIB2 == i * GIB + j * MIB2
  {
    var base := i * GIB + j * MIB2;
    assert base == (i * 512 + j) * MIB2 == ((i * 512 + j) * 512) * PAGE;
    PageBits(base);
    assert (base + PAGE_FLAGS) / MIB2 == i * 512 + j;
  }

  lemma WalkIsIdentity(t: Tables, a: nat)
    requires WellPlaced(t) && a < LIMIT && EntryOk(t, a / GIB)
    ensures Walk(t, a) == None || Walk(t, a) == Some(a)
    ensures Covered(t, a / GIB, a / MIB2 % 512) <==> Walk(t, a) == Some(a)
  {
    var entry := t.pdpt[a / GIB];
    if entry == a / GIB * GIB + PAGE_FLAGS {
      WalkHugePage(t, a);
    } else if entry != 0 {
      if entry == t.at0 + PDT_FLAGS {
        WalkDirectory(t, a, t.at0, t.pdt0);
      } else if entry == t.at1 + PDT_FLAGS {
        WalkDirectory(t, a, t.at1, t.pdt1);
      } else {
        WalkDirectory(t, a, t.at2, t.pdt2);
      }
    }
  }

  // ---------- The set-up ----------

  // The tables the start-up code leaves: the first 8 MiB, through the first directory.
  ghost predicate BootTables(t: Tables) {
    && WellPlaced(t)
    && t.pdpt[0] == t.at0 + PDT_FLAGS && (forall i :: 0 < i < 512 ==> t.pdpt[i] == 0)
    && (forall j :: 0 <= j < 512 ==> t.pdt0[j] == if j < 4 then j * MIB2 + PAGE_FLAGS else 0)
  }

  // The first slot that is mapped with pages of 1 GiB, and the slot after the last one.
  function FirstHuge(heapStart: nat): nat { (heapStart + GIB - 1) / GIB }

  function AfterHuge(heapStart: nat, heapEnd: nat): nat {
    if heapEnd / GIB > FirstHuge(heapStart) then heapEnd / GIB else FirstHuge(heapStart)
  }

  function Page(i: nat, j: nat): nat { i * GIB + j * MIB2 + PAGE_FLAGS }

  // A directory in which the entries of slot i from one index to another have been filled in.
  ghost predicate Filled(before: seq<nat>, after: seq<nat>, i: nat, from: nat, till: nat) {
    && |before| == |after|
    && forall j :: 0 <= j < |after| ==> after[j] == if from <= j < till then Page(i, j) else before[j]
  }

  ghost predicate Zeroes(s: seq<nat>) {
    forall j :: 0 <= j < |s| ==> s[j] == 0
  }

  method ZeroTables(pdt1: array<nat>, pdt2: array<nat>)
    requires pdt1.Length == pdt2.Length == 512
    modifies pdt1, pdt2
    ensures Zeroes(pdt1[..]) && Zeroes(pdt2[..])
  {
    var i := 0;
    while i < 512
      invariant 0 <= i <= 512
      invariant forall j :: 0 <= j < i ==> pdt1[j] == 0 && pdt2[j] == 0
    {
      pdt1[i] := 0;
      pdt2[i] := 0;
      i := i + 1;
    }
  }

  // The rest of the slot that the heap starts in, when it does not start on a boundary of 1 GiB.
  method FillDirectory(pdt: array<nat>, heapStart: nat) returns (addr: nat)
    requires pdt.Length == 512 && heapStart % MIB2 == 0
    modifies pdt
    ensures Filled(old(pdt[..]), pdt[..], heapStart / GIB, heapStart / MIB2 % 512, 512)
    ensures addr == (heapStart / GIB + 1) * GIB
  {
    addr := heapStart;
    var pdtIndex := heapStart / MIB2 % 512;
    while pdtIndex < 512
      invariant heapStart / MIB2 % 512 <= pdtIndex <= 512
      invariant addr == heapStart / GIB * GIB + pdtIndex * MIB2
      invariant forall j :: 0 <= j < 512 ==>
        pdt[j] == if heapStart / MIB2 % 512 <= j < pdtIndex then Page(heapStart / GIB, j) else old(pdt[j])
    {
      pdt[pdtIndex] := addr + PAGE_FLAGS;
      addr := addr + MIB2;
      pdtIndex := pdtIndex + 1;
    }
  }

  // Pages of 1 GiB as long as they fit. Past 512 GiB the slot number wraps around to 0.
  method MapHuge(pdpt: array<nat>, start: nat, heapEnd: nat) returns (addr: nat)
    requires pdpt.Length == 512 && start % GIB == 0 && 0 < start <= LIMIT
    modifies pdpt
    ensures addr % GIB == 0 && (addr == start || addr <= heapEnd)
    ensures heapEnd <= LIMIT ==>
      && addr == (if heapEnd / GIB > start / GIB then heapEnd / GIB else start / GIB) * GIB
      && forall i :: 0 <= i < 512 ==>
           pdpt[i] == if start / GIB <= i < addr / GIB then i * GIB + PAGE_FLAGS else old(pdpt[i])
    ensures heapEnd > LIMIT ==>
      addr >= LIMIT && pdpt[0] == if addr > LIMIT then LIMIT + PAGE_FLAGS else old(pdpt[0])
  {
    addr := start;
    var pdptIndex := addr / GIB % 512;
    while addr + GIB <= heapEnd && pdptIndex < 512
      invariant start <= addr && addr % GIB == 0 && pdptIndex <= 512
      invariant addr == pdptIndex * GIB + if start == LIMIT then LIMIT else 0
      invariant addr == start || addr <= heapEnd
      invariant heapEnd <= LIMIT ==> forall i :: 0 <= i < 512 ==>
        pdpt[i] == if start / GIB <= i < addr / GIB then i * GIB + PAGE_FLAGS else old(pdpt[i])
      invariant pdpt[0] == if start == LIMIT && addr > LIMIT then LIMIT + PAGE_FLAGS else old(pdpt[0])
      decreases heapEnd - addr
    {
      pdpt[pdptIndex] := addr + PAGE_FLAGS;
      addr := addr + GIB;
      pdptIndex := pdptIndex + 1;
    }
  }

  // What is left of the heap after the pages of 1 GiB, in one more directory.
  method MapRest(pdpt: array<nat>, pdt2: array<nat>, at2: nat, start: nat, heapEnd: nat)
    requires pdpt.Length == pdt2.Length == 512 && pdpt != pdt2
    requires start % GIB == 0 && heapEnd % MIB2 == 0 && Zeroes(pdt2[..])
    modifies pdpt, pdt2
    ensures forall i :: 0 <= i < 512 ==>
      pdpt[i] == if start < heapEnd && i == start / GIB % 512 then at2 + PDT_FLAGS else old(pdpt[i])
    ensures forall j :: 0 <= j < 512 ==>
        pdt2[j] == if start + j * MIB2 < heapEnd then start + j * MIB2 + PAGE_FLAGS else 0
  {
    var addr := start;
    if addr < heapEnd {
      pdpt[addr / GIB % 512] := at2 + PDT_FLAGS;
    }
    var pdtIndex := 0;
    while pdtIndex < 512 && addr < heapEnd
      invariant 0 <= pdtIndex <= 512 && addr == start + pdtIndex * MIB2
      invariant forall i :: 0 <= i < 512 ==>
        pdpt[i] == if start < heapEnd && i == start / GIB % 512 then at2 + PDT_FLAGS else old(pdpt[i])
      invariant forall j :: 0 <= j < 512 ==> pdt2[j] == if j < pdtIndex then start + j * MIB2 + PAGE_FLAGS else 0
      invariant forall j :: 0 <= j < pdtIndex ==> start + j * MIB2 < heapEnd
    {
      pdt2[pdtIndex] := addr + PAGE_FLAGS;
      addr := addr + MIB2;
      pdtIndex := pdtIndex + 1;
    }
  }

  // ---------- The tables afterwards ----------

  // The tables for a heap below 512 GiB, entry by entry.
  ghost predicate SetUp(t: Tables, heapStart: nat, heapEnd: nat) {
    && WellPlaced(t)
    && (forall i :: 0 <= i < 512 ==> t.pdpt[i] == ExpectedEntry(t, heapStart, heapEnd, i))
    && (forall j :: 0 <= j < 512 ==>
          t.pdt0[j] == if heapStart < GIB && heapStart / MIB2 <= j then Page(0, j) else if j < 4 then Page(0, j) else 0)
    && (heapStart % GIB != 0 && heapStart > GIB ==> forall j :: 0 <= j < 512 ==>
          t.pdt1[j] == if heapStart / MIB2 % 512 <= j then Page(heapStart / GIB, j) else 0)
    && (var rest := AfterHuge(heapStart, heapEnd);
        forall j :: 0 <= j < 512 ==> t.pdt2[j] == if rest * GIB + j * MIB2 < heapEnd then Page(rest, j) else 0)
  }

  function ExpectedEntry(t: Tables, heapStart: nat, heapEnd: nat, i: nat): nat {
    var rest := AfterHuge(heapStart, heapEnd);
    if i == 0 then t.at0 + PDT_FLAGS
    else if heapStart % GIB != 0 && i == heapStart / GIB then t.at1 + PDT_FLAGS
    else if FirstHuge(heapStart) <= i < rest then i * GIB + PAGE_FLAGS
    else if i == rest && rest * GIB < heapEnd then t.at2 + PDT_FLAGS
    else 0
  }

  method SystemSetup(pdpt: array<nat>, pdt0: array<nat>, pdt1: array<nat>, pdt2: array<nat>,
                     at0: nat, at1: nat, at2: nat, numMemoryRegions: nat, isRam: bool, heapStart: nat, heapEnd: nat)
    returns (regions: nat)
    requires pdpt != pdt0 && pdpt != pdt1 && pdpt != pdt2 && pdt0 != pdt1 && pdt0 != pdt2 && pdt1 != pdt2
    requires pdpt.Length == pdt0.Length == pdt1.Length == pdt2.Length == 512
    requires BootTables(Tables(pdpt[..], pdt0[..], pdt1[..], pdt2[..], at0, at1, at2))
    requires heapStart % MIB2 == 0 && heapEnd % MIB2 == 0 && heapStart < ULONG_LIMIT && heapEnd < ULONG_LIMIT
    modifies pdpt, pdt0, pdt1, pdt2
    ensures Usable(numMemoryRegions, isRam, heapStart, heapEnd) <==>
      && numMemoryRegions != 0 && isRam && 0 < heapStart < 512 * 0x4000_0000
      && (heapEnd - heapStart) % 0x1_0000_0000_0000_0000 >= 0x20_0000
    ensures regions == if Usable(numMemoryRegions, isRam, heapStart, heapEnd) || !isRam then numMemoryRegions else 0
    ensures !Usable(numMemoryRegions, isRam, heapStart, heapEnd) ==>
      BootTables(Tables(pdpt[..], pdt0[..], pdt1[..], pdt2[..], at0, at1, at2))
    ensures Usable(numMemoryRegions, isRam, heapStart, heapEnd) && heapEnd <= LIMIT ==>
      SetUp(Tables(pdpt[..], pdt0[..], pdt1[..], pdt2[..], at0, at1, at2), heapStart, heapEnd)
    ensures Usable(numMemoryRegions, isRam, heapStart, heapEnd) && heapEnd > LIMIT ==>
      SlotZeroLost(Tables(pdpt[..], pdt0[..], pdt1[..], pdt2[..], at0, at1, at2))
  {
    if numMemoryRegions == 0 || !isRam {
      return numMemoryRegions;
    }
    if heapStart == 0 || (heapEnd - heapStart) % ULONG_LIMIT < MIB2 {
      return 0;
    }
    if heapStart / LIMIT > 0 {
      return 0;
    }
    MapHeap(pdpt, pdt0, pdt1, pdt2, at0, at1, at2, heapStart, heapEnd);
    return numMemoryRegions;
  }

  method MapHeap(pdpt: array<nat>, pdt0: array<nat>, pdt1: array<nat>, pdt2: array<nat>,
                 at0: nat, at1: nat, at2: nat, heapStart: nat, heapEnd: nat)
    requires pdpt != pdt0 && pdpt != pdt1 && pdpt != pdt2 && pdt0 != pdt1 && pdt0 != pdt2 && pdt1 != pdt2
    requires pdpt.Length == pdt0.Length == pdt1.Length == pdt2.Length == 512
    requires BootTables(Tables(pdpt[..], pdt0[..], pdt1[..], pdt2[..], at0, at1, at2))
    requires heapStart % MIB2 == 0 && heapEnd % MIB2 == 0 && 0 < heapStart < LIMIT
    modifies pdpt, pdt0, pdt1, pdt2
    ensures heapEnd <= LIMIT ==>
      SetUp(Tables(pdpt[..], pdt0[..], pdt1[..], pdt2[..], at0, at1, at2), heapStart, heapEnd)
    ensures heapEnd > LIMIT ==> SlotZeroLost(Tables(pdpt[..], pdt0[..], pdt1[..], pdt2[..], at0, at1, at2))
  {
    ghost var before := Tables(pdpt[..], pdt0[..], pdt1[..], pdt2[..], at0, at1, at2);
    ZeroTables(pdt1, pdt2);
    assert pdpt[..] == before.pdpt && pdt0[..] == before.pdt0;
    var start := MapPartial(pdpt, pdt0, pdt1, at0, at1, heapStart);
    ghost var partial := pdpt[..];
    MapBeyond(pdpt, pdt2, at2, start, heapEnd);
    if heapEnd <= LIMIT {
      BelowLimit(Tables(pdpt[..], pdt0[..], pdt1[..], pdt2[..], at0, at1, at2), partial, heapStart, heapEnd);
    }
  }

  // The slots from start on: pages of 1 GiB, and one more directory.
  method MapBeyond(pdpt: array<nat>, pdt2: array<nat>, at2: nat, start: nat, heapEnd: nat)
    requires pdpt.Length == pdt2.Length == 512 && pdpt != pdt2
    requires start % GIB == 0 && 0 < start <= LIMIT && heapEnd % MIB2 == 0 && Zeroes(pdt2[..])
    modifies pdpt, pdt2
    ensures heapEnd <= LIMIT ==>
      var rest := if heapEnd / GIB > start / GIB then heapEnd / GIB else start / GIB;
      && (forall i :: 0 <= i < 512 ==> pdpt[i] == BeyondEntry(old(pdpt[i]), at2, start / GIB, rest, heapEnd, i))
      && (forall j :: 0 <= j < 512 ==> pdt2[j] == if rest * GIB + j * MIB2 < heapEnd then Page(rest, j) else 0)
    ensures heapEnd > LIMIT ==>
      || pdpt[0] == LIMIT + PAGE_FLAGS
      || (pdpt[0] == at2 + PDT_FLAGS && pdt2[0] >= LIMIT && pdt2[0] % GIB == PAGE_FLAGS)
  {
    var addr := MapHuge(pdpt, start, heapEnd);
    MapRest(pdpt, pdt2, at2, addr, heapEnd);
  }

  function BeyondEntry(entry: nat, at2: nat, first: nat, rest: nat, heapEnd: nat, i: nat): nat {
    if first <= i < rest then i * GIB + PAGE_FLAGS
    else if i == rest && rest * GIB < heapEnd then at2 + PDT_FLAGS
    else entry
  }

  lemma BelowLimit(t: Tables, partial: seq<nat>, heapStart: nat, heapEnd: nat)
    requires WellPlaced(t) && |partial| == 512 && 0 < heapStart < LIMIT && heapEnd <= LIMIT
    requires forall i :: 0 <= i < 512 ==> partial[i] == PartialEntry(t.at0, t.at1, heapStart, i)
    requires
      var rest := AfterHuge(heapStart, heapEnd);
      forall i :: 0 <= i < 512 ==> t.pdpt[i] == BeyondEntry(partial[i], t.at2, FirstHuge(heapStart), rest, heapEnd, i)
    ensures forall i :: 0 <= i < 512 ==> t.pdpt[i] == ExpectedEntry(t, heapStart, heapEnd, i)
  {
  }

  // The entries once the first, partial slot is mapped.
  function PartialEntry(at0: nat, at1: nat, heapStart: nat, i: nat): nat {
    if i == 0 then at0 + PDT_FLAGS
    else if heapStart % GIB != 0 && i == heapStart / GIB then at1 + PDT_FLAGS
    else 0
  }

  method MapPartial(pdpt: array<nat>, pdt0: array<nat>, pdt1: array<nat>, at0: nat, at1: nat, heapStart: nat)
    returns (addr: nat)
    requires pdpt != pdt0 && pdpt != pdt1 && pdt0 != pdt1 && pdpt.Length == pdt0.Length == pdt1.Length == 512
    requires pdpt[0] == at0 + PDT_FLAGS && forall i :: 0 < i < 512 ==> pdpt[i] == 0
    requires forall j :: 0 <= j < 512 ==> pdt0[j] == if j < 4 then j * MIB2 + PAGE_FLAGS else 0
    requires Zeroes(pdt1[..]) && heapStart % MIB2 == 0 && 0 < heapStart < LIMIT
    modifies pdpt, pdt0, pdt1
    ensures addr == FirstHuge(heapStart) * GIB
    ensures forall i :: 0 <= i < 512 ==> pdpt[i] == PartialEntry(at0, at1, heapStart, i)
    ensures forall j :: 0 <= j < 512 ==>
      pdt0[j] == if heapStart < GIB && heapStart / MIB2 <= j then Page(0, j) else if j < 4 then Page(0, j) else 0
    ensures heapStart % GIB != 0 && heapStart > GIB ==> forall j :: 0 <= j < 512 ==>
      pdt1[j] == if heapStart / MIB2 % 512 <= j then Page(heapStart / GIB, j) else 0
  {
    addr := heapStart;
    var pdptIndex := addr / GIB % 512;
    if heapStart / GIB * GIB != addr {
      if pdpt[pdptIndex] != 0 {
        // Only the directory of the start-up code can be installed already.
        addr := FillDirectory(pdt0, heapStart);
      } else {
        pdpt[pdptIndex] := at1 + PDT_FLAGS;
        addr := FillDirectory(pdt1, heapStart);
      }
    }
  }

  // The tests at the start: at least one page of heap, starting below 512 GiB but not at 0.
  predicate Usable(numMemoryRegions: nat, isRam: bool, heapStart: nat, heapEnd: nat) {
    numMemoryRegions != 0 && isRam && heapStart != 0 && (heapEnd - heapStart) % ULONG_LIMIT >= MIB2 && heapStart < LIMIT
  }

  // The slot of the first GiB points past 512 GiB.
  ghost predicate SlotZeroLost(t: Tables) {
    && WellPlaced(t)
    && (t.pdpt[0] == LIMIT + PAGE_FLAGS
        || (t.pdpt[0] == t.at2 + PDT_FLAGS && t.pdt2[0] >= LIMIT && t.pdt2[0] % GIB == PAGE_FLAGS))
  }

  // ---------- What the set-up achieves ----------

  lemma SetUpEntries(t: Tables, heapStart: nat, heapEnd: nat, i: nat)
    requires SetUp(t, heapStart, heapEnd) && heapStart % MIB2 == 0 && 0 < heapStart < LIMIT && heapEnd <= LIMIT
        && i < 512
    ensures EntryOk(t, i)
  {
    var rest := AfterHuge(heapStart, heapEnd);
    assert DirectoryOk(t.pdt0, 0);
    assert DirectoryOk(t.pdt2, rest);
    if heapStart % GIB != 0 && heapStart > GIB {
      assert DirectoryOk(t.pdt1, heapStart / GIB);
    }
  }

  // Where the mapping of the heap ends: at its end, except that a slot that it starts inside is mapped
  // to the end of the slot.
  function MappedEnd(heapStart: nat, heapEnd: nat): nat {
    var slotEnd := (heapStart / GIB + 1) * GIB;
    if heapStart % GIB != 0 && heapEnd < slotEnd then slotEnd else heapEnd
  }

  lemma SetUpCovers(t: Tables, heapStart: nat, heapEnd: nat, i: nat, j: nat)
    requires SetUp(t, heapStart, heapEnd) && heapStart % MIB2 == 0 && heapEnd % MIB2 == 0
    requires 0 < heapStart < LIMIT && heapEnd <= LIMIT && i < 512 && j < 512
    ensures Covered(t, i, j) <==>
      heapStart <= i * GIB + j * MIB2 < MappedEnd(heapStart, heapEnd) || i * GIB + j * MIB2 < LOW
  {
    BlockParts(heapStart, i, j);
    BlockParts(heapEnd, i, j);
  }

  // Where a block lies from a boundary, by slots and blocks.
  lemma BlockParts(a: nat, i: nat, j: nat)
    requires a % MIB2 == 0 && j < 512
    ensures a <= i * GIB + j * MIB2 <==> a / GIB < i || (a / GIB == i && a / MIB2 % 512 <= j)
    ensures a == a / GIB * GIB + a / MIB2 % 512 * MIB2
  {
    assert i * GIB + j * MIB2 == (i * 512 + j) * MIB2;
    assert a == a / MIB2 * MIB2;
  }

  // After the set-up for a heap that ends at or below 512 GiB, the addresses of the heap and those
  // below 8 MiB are mapped to themselves, as is the rest of a slot that the heap starts inside. No
  // other address is mapped at all.
  lemma IdentityMapped(t: Tables, heapStart: nat, heapEnd: nat, a: nat)
    requires SetUp(t, heapStart, heapEnd) && heapStart % MIB2 == 0 && heapEnd % MIB2 == 0
    requires 0 < heapStart < LIMIT && heapEnd <= LIMIT
    ensures Walk(t, a) ==
            if heapStart <= a < MappedEnd(heapStart, heapEnd) || a < 0x80_0000 then Some(a) else None
  {
    if a < LIMIT {
      var i, j := AddressParts(a);
      SetUpEntries(t, heapStart, heapEnd, i);
      SetUpCovers(t, heapStart, heapEnd, i, j);
      WalkIsIdentity(t, a);
      SameSide(a, heapStart);
      SameSide(a, MappedEnd(heapStart, heapEnd));
      SameSide(a, LOW);
    }
  }

  // An address and the start of its block lie on the same side of a boundary.
  lemma SameSide(a: nat, b: nat)
    requires b % MIB2 == 0
    ensures a < b <==> a / GIB * GIB + a / MIB2 % 512 * MIB2 < b
  {
    assert a / GIB * GIB + a / MIB2 % 512 * MIB2 == a / MIB2 * MIB2;
    assert b == b / MIB2 * MIB2;
  }

  // The flags of all entries: present and writable, and the mark of a page where there is one.
  lemma EntryFlags(t: Tables, heapStart: nat, heapEnd: nat, i: nat)
    requires SetUp(t, heapStart, heapEnd) && i < 512
    ensures t.pdpt[i] % 0x1000 in {0, 0x3, 0x83} && t.pdt0[i] % 0x1000 in {0, 0x83} && t.pdt2[i] % 0x1000 in {0, 0x83}
    ensures heapStart % GIB != 0 && heapStart > GIB ==> t.pdt1[i] % 0x1000 in {0, 0x83}
  {
    PageFlagsOnly(i, 0);
    PageFlagsOnly(0, i);
    PageFlagsOnly(heapStart / GIB, i);
    PageFlagsOnly(AfterHuge(heapStart, heapEnd), i);
    TableFlagsOnly(t.at0);
    TableFlagsOnly(t.at1);
    TableFlagsOnly(t.at2);
  }

  lemma TableFlagsOnly(at: nat)
    requires at % PAGE == 0
    ensures (at + PDT_FLAGS) % PAGE == PDT_FLAGS
  {
  }

  lemma PageFlagsOnly(i: nat, j: nat)
    ensures Page(i, j) % PAGE == PAGE_FLAGS
  {
    assert i * GIB + j * MIB2 == (i * 0x4_0000 + j * 0x200) * PAGE;
  }

  // Address 0 is translated to something else once its slot is lost.
  lemma SlotZeroMoves(t: Tables)
    requires SlotZeroLost(t)
    ensures Walk(t, 0) != None && Walk(t, 0) != Some(0)
  {
    if t.pdpt[0] == t.at2 + PDT_FLAGS {
      TableBits(t.at2);
      var k := t.pdt2[0] / GIB;
      HighPage(k);
      assert t.pdt2[0] == k * GIB + PAGE_FLAGS && k >= 512;
    } else {
      HighPage(512);
    }
  }

  lemma HighPage(k: nat)
    ensures Open(k * GIB + PAGE_FLAGS) && IsPage(k * GIB + PAGE_FLAGS)
    ensures (k * GIB + PAGE_FLAGS) / MIB2 * MIB2 == k * GIB && (k * GIB + PAGE_FLAGS) / GIB * GIB == k * GIB
  {
    PageBits(k * GIB);
    assert (k * GIB + PAGE_FLAGS) / MIB2 == k * 512;
    assert (k * GIB + PAGE_FLAGS) / GIB == k;
  }

  // The kernel keeps its first 8 MiB exactly when the heap ends at or below 512 GiB: the start of
  // the heap is checked against that limit, but its end is not.
  lemma LowKeptIff(t: Tables, heapStart: nat, heapEnd: nat)
    requires heapStart % MIB2 == 0 && heapEnd % MIB2 == 0 && 0 < heapStart < LIMIT && WellPlaced(t)
    requires if heapEnd <= LIMIT then SetUp(t, heapStart, heapEnd) else SlotZeroLost(t)
    ensures (forall a :: 0 <= a < LOW ==> Walk(t, a) == Some(a)) <==> heapEnd <= LIMIT
  {
    if heapEnd <= LIMIT {
      forall a | 0 <= a < LOW ensures Walk(t, a) == Some(a) {
        IdentityMapped(t, heapStart, heapEnd, a);
      }
    } else {
      SlotZeroMoves(t);
    }
  }

  // An instance: a heap from 1 GiB to 513 GiB takes address 0 away from the kernel.
  method HeapPastLimit() returns (before: Tables, after: Tables)
    ensures BootTables(before) && Walk(before, 0) == Some(0)
    ensures WellPlaced(after) && Walk(after, 0) != Some(0)
  {
    var pdpt := new nat[512](i => if i == 0 then 0x1000 + PDT_FLAGS else 0);
    var pdt0 := new nat[512](i => if 0 <= i < 4 then i * MIB2 + PAGE_FLAGS else 0);
    var pdt1, pdt2 := new nat[512](i => 0), new nat[512](i => 0);
    before := Tables(pdpt[..], pdt0[..], pdt1[..], pdt2[..], 0x1000, 0x2000, 0x3000);
    BootMapsNull(before);
    var regions := SystemSetup(pdpt, pdt0, pdt1, pdt2, 0x1000, 0x2000, 0x3000, 1, true, GIB, LIMIT + GIB);
    after := Tables(pdpt[..], pdt0[..], pdt1[..], pdt2[..], 0x1000, 0x2000, 0x3000);
    SlotZeroMoves(after);
  }

  lemma BootMapsNull(t: Tables)
    requires BootTables(t)
    ensures Walk(t, 0) == Some(0)
  {
    WalkDirectory(t, 0, t.at0, t.pdt0);
  }
}
