// Carving the heap out of the memory map that the boot code leaves behind.
module HeapSetup {
  import opened Heap
  import opened HeapRuns
  import opened Limits

  datatype MemoryType = INACCESSIBLE | RAM | DEVICE

  datatype MemoryRegion = MemoryRegion(start: int, end: int, kind: MemoryType)

  const PAGE: int := 0x1000
  const MEGABYTE: int := 0x10_0000

  // ---------- One region ----------

  predicate HoldsKernelEnd(r: MemoryRegion, kernelEnd: int) {
    r.start < kernelEnd && r.end >= kernelEnd
  }

  function AfterKernel(r: MemoryRegion, kernelEnd: int): int {
    if HoldsKernelEnd(r, kernelEnd) then kernelEnd else r.start
  }

  function AfterCommandLine(r: MemoryRegion, kernelEnd: int, cmdline: int): int {
    var start := AfterKernel(r, kernelEnd);
    if start <= cmdline && r.end > cmdline then cmdline + PAGE else start
  }

  // Rounds up to a page, in 64-bit arithmetic.
  function AlignUp(start: int): int {
    ((start - 1) % ULONG_LIMIT / PAGE * PAGE + PAGE) % ULONG_LIMIT
  }

  function HeapStart(r: MemoryRegion, kernelEnd: int, cmdline: int): int {
    AlignUp(AfterCommandLine(r, kernelEnd, cmdline))
  }

  predicate Qualifies(r: MemoryRegion, kernelEnd: int, cmdline: int) {
    r.kind.RAM? && r.end - HeapStart(r, kernelEnd, cmdline) >= MEGABYTE
  }

  // The chunks of the initial heap, in the order of the memory map.
  function HeapChunks(memoryMap: seq<MemoryRegion>, kernelEnd: int, cmdline: int): seq<Chunk> {
    if memoryMap == [] then []
    else
      var r, before := memoryMap[|memoryMap| - 1], HeapChunks(memoryMap[..|memoryMap| - 1], kernelEnd, cmdline);
      if Qualifies(r, kernelEnd, cmdline)
      then before + [Chunk(HeapStart(r, kernelEnd, cmdline), r.end - HeapStart(r, kernelEnd, cmdline) - HEADER, false)]
      else before
  }

  // ---------- What the memory map must look like ----------

  ghost predicate MapOk(memoryMap: seq<MemoryRegion>) {
    && (forall i :: 0 <= i < |memoryMap| ==> RegionOk(memoryMap[i]))
    && (forall i, j :: 0 <= i < j < |memoryMap| ==> RegionsApart(memoryMap[i], memoryMap[j]))
  }

  predicate RegionOk(r: MemoryRegion) {
    0 <= r.start <= r.end < MEMCHUNK_USED
  }

  predicate RegionsApart(r: MemoryRegion, s: MemoryRegion) {
    r.end <= s.start || s.end <= r.start
  }

  lemma HeapStartAligned(r: MemoryRegion, kernelEnd: int, cmdline: int)
    requires RegionOk(r)
    ensures
      var start, s := AfterCommandLine(r, kernelEnd, cmdline), HeapStart(r, kernelEnd, cmdline);
      s % PAGE == 0 && 0 <= start <= s < start + PAGE && r.start <= start && (s == NULL <==> start == 0)
  {
    AlignedUp(AfterCommandLine(r, kernelEnd, cmdline));
  }

  lemma AlignedUp(start: int)
    requires 0 <= start < MEMCHUNK_USED + PAGE
    ensures AlignUp(start) % PAGE == 0 && start <= AlignUp(start) < start + PAGE
        && (AlignUp(start) == 0 <==> start == 0)
  {
    if start > 0 {
      assert (start - 1) % ULONG_LIMIT == start - 1;
    } else {
      assert (start - 1) % ULONG_LIMIT == ULONG_LIMIT - 1;
    }
  }

  // ---------- The set-up ----------

  datatype Cursor = ListHead | At(addr: int)

  // The chunks are linked in their order, the last one to NULL.
  ghost predicate Wired(mem: map<int, MemChunk>, chunks: seq<Chunk>) {
    forall k :: 0 <= k < |chunks| ==>
      chunks[k].addr in mem && mem[chunks[k].addr] == MemChunk(NextOf(chunks, k), chunks[k].size)
  }

  function NextOf(chunks: seq<Chunk>, k: nat): int {
    if k + 1 < |chunks| then chunks[k + 1].addr else NULL
  }

  // The list built so far: the head, still as it was found on the stack if nothing has been linked,
  // and a cursor at the last chunk.
  ghost predicate Built(mem: map<int, MemChunk>, head: int, cursor: Cursor, fakeNext: int, chunks: seq<Chunk>) {
    if chunks == [] then head == fakeNext && cursor == ListHead
    else Wired(mem, chunks) && head == chunks[0].addr && cursor == At(chunks[|chunks| - 1].addr)
  }

  // What a walk along the list sees: it takes a chunk at NULL for the end.
  function Visible(chunks: seq<Chunk>): seq<Chunk> {
    if chunks == [] || chunks[0].addr == NULL then [] else [chunks[0]] + Visible(chunks[1..])
  }

  // fakeNext is what the list head on the stack happens to hold before the first chunk is linked.
  method SetUpHeap(memoryMap: seq<MemoryRegion>, kernelEnd: int, cmdline: int, memory: map<int, MemChunk>,
                   fakeNext: int)
    returns (head: int, mem: map<int, MemChunk>)
    requires MapOk(memoryMap)
    ensures
      var chunks := HeapChunks(memoryMap, kernelEnd, cmdline);
      if chunks == [] then head == fakeNext else Segment(mem, head, Visible(chunks), NULL)
  {
    mem := memory;
    head := fakeNext;
    var cursor := ListHead;
    var i := 0;
    while i < |memoryMap|
      invariant 0 <= i <= |memoryMap|
      invariant Built(mem, head, cursor, fakeNext, HeapChunks(memoryMap[..i], kernelEnd, cmdline))
    {
      if !Qualifies(memoryMap[i], kernelEnd, cmdline) {
        NextChunks(memoryMap, kernelEnd, cmdline, i);
      }
      var r := memoryMap[i];
      i := i + 1;
      if r.kind != RAM {
        continue;
      }
      var start, size := Trim(r, kernelEnd, cmdline);
      if size < MEGABYTE {
        continue;
      }
      NewChunk(memoryMap, kernelEnd, cmdline, i - 1);
      LinkLast(mem, head, cursor, fakeNext, HeapChunks(memoryMap[..i - 1], kernelEnd, cmdline),
               Chunk(start, size - HEADER, false));
      match cursor {
        case ListHead => head := start;
        case At(addr) => mem := mem[addr := mem[addr].(next := start)];
      }
      cursor := At(start);
      mem := mem[start := MemChunk(NULL, size - HEADER)];
    }
    assert memoryMap[..|memoryMap|] == memoryMap;
    ghost var chunks := HeapChunks(memoryMap, kernelEnd, cmdline);
    if chunks != [] {
      NoneUsed(memoryMap, kernelEnd, cmdline);
      WalkSees(mem, chunks, 0);
      assert chunks[0..] == chunks;
    }
  }

  lemma {:induction false} WalkSees(mem: map<int, MemChunk>, chunks: seq<Chunk>, k: nat)
    requires k <= |chunks| && Wired(mem, chunks) && (forall c :: c in chunks ==> c.addr >= 0 && !c.used)
    ensures Segment(mem, if k < |chunks| then chunks[k].addr else NULL, Visible(chunks[k..]), NULL)
    decreases |chunks| - k
  {
    if k < |chunks| {
      WalkSees(mem, chunks, k + 1);
      assert chunks[k..][1..] == chunks[k + 1..] && chunks[k] in chunks;
    }
  }

  lemma NoneUsed(memoryMap: seq<MemoryRegion>, kernelEnd: int, cmdline: int)
    requires MapOk(memoryMap)
    ensures forall c :: c in HeapChunks(memoryMap, kernelEnd, cmdline) ==> c.addr >= 0 && !c.used
  {
    var chunks := HeapChunks(memoryMap, kernelEnd, cmdline);
    forall c | c in chunks ensures c.addr >= 0 && !c.used {
      var k :| 0 <= k < |chunks| && chunks[k] == c;
      var j := ChunkRegion(memoryMap, kernelEnd, cmdline, k);
      HeapStartAligned(memoryMap[j], kernelEnd, cmdline);
    }
  }

  lemma NextChunks(memoryMap: seq<MemoryRegion>, kernelEnd: int, cmdline: int, i: nat)
    requires i < |memoryMap| && !Qualifies(memoryMap[i], kernelEnd, cmdline)
    ensures HeapChunks(memoryMap[..i + 1], kernelEnd, cmdline) == HeapChunks(memoryMap[..i], kernelEnd, cmdline)
  {
    assert memoryMap[..i + 1][..i] == memoryMap[..i];
  }

  // What is left of a region above the kernel and the command line, from a page boundary on.
  method Trim(r: MemoryRegion, kernelEnd: int, cmdline: int) returns (start: int, size: int)
    requires RegionOk(r)
    ensures start == HeapStart(r, kernelEnd, cmdline)
    ensures size == if r.end >= start then r.end - start else 0
  {
    start := r.start;
    var end := r.end;
    size := end - start;
    if start < kernelEnd && end >= kernelEnd {
      start := kernelEnd;
    }
    if start <= cmdline && end > cmdline {
      start := cmdline + PAGE;
    }
    start := (start - 1) % ULONG_LIMIT;
    start := start / PAGE * PAGE;
    start := (start + PAGE) % ULONG_LIMIT;
    if end >= start {
      size := end - start;
    } else {
      size := 0;
    }
  }

  // Linking one more chunk at the end of the list.
  lemma LinkLast(mem: map<int, MemChunk>, head: int, cursor: Cursor, fakeNext: int, chunks: seq<Chunk>, c: Chunk)
    requires Built(mem, head, cursor, fakeNext, chunks) && Apart(chunks + [c])
    ensures cursor.At? <==> chunks != []
    ensures cursor.At? ==> cursor.addr in mem
    ensures
      var before := if cursor.At? then mem[cursor.addr := mem[cursor.addr].(next := c.addr)] else mem;
      Built(before[c.addr := MemChunk(NULL, c.size)], if cursor.At? then head
        else c.addr, At(c.addr), fakeNext, chunks + [c])
  {
    var all := chunks + [c];
    forall i, j | 0 <= i < j < |all| ensures all[i].addr != all[j].addr {
      assert all[i].End() <= all[j].addr || all[j].End() <= all[i].addr;
    }
    if chunks != [] {
      assert all[|chunks| - 1] == chunks[|chunks| - 1];
    }
  }

  // Every chunk of the initial heap is what is left of one region.
  lemma {:induction false} ChunkRegion(memoryMap: seq<MemoryRegion>, kernelEnd: int, cmdline: int, k: nat)
    returns (j: nat)
    requires k < |HeapChunks(memoryMap, kernelEnd, cmdline)|
    ensures j < |memoryMap| && Qualifies(memoryMap[j], kernelEnd, cmdline)
    ensures
      var c := HeapChunks(memoryMap, kernelEnd, cmdline)[k];
      c.addr == HeapStart(memoryMap[j], kernelEnd, cmdline) && c.End() == memoryMap[j].end && !c.used
    decreases |memoryMap|
  {
    var n := |memoryMap| - 1;
    if k < |HeapChunks(memoryMap[..n], kernelEnd, cmdline)| {
      j := ChunkRegion(memoryMap[..n], kernelEnd, cmdline, k);
    } else {
      j := n;
    }
  }

  lemma {:induction false} ChunksApart(memoryMap: seq<MemoryRegion>, kernelEnd: int, cmdline: int)
    requires MapOk(memoryMap)
    ensures Apart(HeapChunks(memoryMap, kernelEnd, cmdline))
    decreases |memoryMap|
  {
    if memoryMap != [] {
      var n := |memoryMap| - 1;
      var before := HeapChunks(memoryMap[..n], kernelEnd, cmdline);
      ChunksApart(memoryMap[..n], kernelEnd, cmdline);
      forall k | 0 <= k < |before| && Qualifies(memoryMap[n], kernelEnd, cmdline)
        ensures before[k].End() <= HeapStart(memoryMap[n], kernelEnd, cmdline) || memoryMap[n].end <= before[k].addr
      {
        var j := ChunkRegion(memoryMap[..n], kernelEnd, cmdline, k);
        HeapStartAligned(memoryMap[n], kernelEnd, cmdline);
        HeapStartAligned(memoryMap[j], kernelEnd, cmdline);
      }
    }
  }

  // The next chunk lies away from all the chunks before it.
  lemma NewChunk(memoryMap: seq<MemoryRegion>, kernelEnd: int, cmdline: int, i: nat)
    requires MapOk(memoryMap) && i < |memoryMap| && Qualifies(memoryMap[i], kernelEnd, cmdline)
    ensures
      var s := HeapStart(memoryMap[i], kernelEnd, cmdline);
      var c := Chunk(s, memoryMap[i].end - s - HEADER, false);
      && s >= 0
      && HeapChunks(memoryMap[..i + 1], kernelEnd, cmdline) == HeapChunks(memoryMap[..i], kernelEnd, cmdline) + [c]
      && Apart(HeapChunks(memoryMap[..i], kernelEnd, cmdline) + [c])
  {
    HeapStartAligned(memoryMap[i], kernelEnd, cmdline);
    assert memoryMap[..i + 1][..i] == memoryMap[..i];
    ChunksApart(memoryMap[..i + 1], kernelEnd, cmdline);
  }

  // ---------- The initial heap ----------

  function RegionsOf(chunks: seq<Chunk>): seq<Region> {
    seq(|chunks|, i requires 0 <= i < |chunks| => Region(chunks[i].addr, chunks[i].End()))
  }

  lemma {:induction false} OneChunkEach(chunks: seq<Chunk>)
    ensures Tiles(chunks, RegionsOf(chunks))
  {
    if chunks != [] {
      var regions := RegionsOf(chunks);
      OneChunkEach(chunks[1..]);
      assert regions[1..] == RegionsOf(chunks[1..]);
      assert TilesFrom(chunks[1..], chunks[0].End(), regions);
    }
  }

  // Every chunk lies inside RAM, starts on a page boundary, and is fit for the heap unless it is at NULL.
  lemma InitialChunk(memoryMap: seq<MemoryRegion>, kernelEnd: int, cmdline: int, k: nat)
    requires MapOk(memoryMap) && k < |HeapChunks(memoryMap, kernelEnd, cmdline)|
    ensures
      var c := HeapChunks(memoryMap, kernelEnd, cmdline)[k];
      && (ChunkOk(c, map[]) <==> c.addr != NULL)
      && c.size < MEMCHUNK_USED && InRam(c, memoryMap) && c.addr % PAGE == 0
  {
    var j := ChunkRegion(memoryMap, kernelEnd, cmdline, k);
    HeapStartAligned(memoryMap[j], kernelEnd, cmdline);
    PagesAreWords(HeapStart(memoryMap[j], kernelEnd, cmdline));
  }

  lemma PagesAreWords(a: int)
    requires a % PAGE == 0
    ensures a % 8 == 0
  {
  }

  // A region of RAM that is large enough, and still starts at address 0 after the trimming.
  ghost predicate StartsAtNull(memoryMap: seq<MemoryRegion>, kernelEnd: int, cmdline: int) {
    exists i :: 0 <= i < |memoryMap| && Qualifies(memoryMap[i], kernelEnd, cmdline)
                && AfterCommandLine(memoryMap[i], kernelEnd, cmdline) == 0
  }

  ghost predicate HasNullChunk(chunks: seq<Chunk>) {
    exists k :: 0 <= k < |chunks| && chunks[k].addr == NULL
  }

  lemma {:induction false} RegionChunk(memoryMap: seq<MemoryRegion>, kernelEnd: int, cmdline: int, j: nat)
    returns (k: nat)
    requires j < |memoryMap| && Qualifies(memoryMap[j], kernelEnd, cmdline)
    ensures k < |HeapChunks(memoryMap, kernelEnd, cmdline)|
    ensures HeapChunks(memoryMap, kernelEnd, cmdline)[k].addr == HeapStart(memoryMap[j], kernelEnd, cmdline)
    ensures HeapChunks(memoryMap, kernelEnd, cmdline)[k].End() == memoryMap[j].end
    ensures !HeapChunks(memoryMap, kernelEnd, cmdline)[k].used
    decreases |memoryMap|
  {
    var n := |memoryMap| - 1;
    if j < n {
      k := RegionChunk(memoryMap[..n], kernelEnd, cmdline, j);
    } else {
      k := |HeapChunks(memoryMap[..n], kernelEnd, cmdline)|;
    }
  }

  lemma NullChunkIff(memoryMap: seq<MemoryRegion>, kernelEnd: int, cmdline: int)
    requires MapOk(memoryMap)
    ensures HasNullChunk(HeapChunks(memoryMap, kernelEnd, cmdline)) <==> StartsAtNull(memoryMap, kernelEnd, cmdline)
  {
    var chunks := HeapChunks(memoryMap, kernelEnd, cmdline);
    if k :| 0 <= k < |chunks| && chunks[k].addr == NULL {
      var j := ChunkRegion(memoryMap, kernelEnd, cmdline, k);
      HeapStartAligned(memoryMap[j], kernelEnd, cmdline);
    }
    if j :| 0 <= j < |memoryMap| && Qualifies(memoryMap[j], kernelEnd, cmdline)
            && AfterCommandLine(memoryMap[j], kernelEnd, cmdline) == 0 {
      HeapStartAligned(memoryMap[j], kernelEnd, cmdline);
      var k := RegionChunk(memoryMap, kernelEnd, cmdline, j);
    }
  }

  // The page boundary from which a region is free: behind the kernel, if that ends in the region, and
  // behind the page of the command line, if that starts in what is left.
  function FreeFrom(r: MemoryRegion, kernelEnd: int, cmdline: int): int {
    var from := if r.start < kernelEnd <= r.end then kernelEnd else r.start;
    var after := if from <= cmdline < r.end then cmdline + 0x1000 else from;
    (after + 0xfff) / 0x1000 * 0x1000
  }

  // One of the chunks is free and extends from one address to another.
  ghost predicate HasChunk(chunks: seq<Chunk>, start: int, end: int) {
    exists k :: 0 <= k < |chunks| && chunks[k].addr == start && chunks[k].End() == end && !chunks[k].used
  }

  // A region gives all of its free part to the heap, exactly if it is RAM and that is a mebibyte or more.
  lemma GivenIff(memoryMap: seq<MemoryRegion>, kernelEnd: int, cmdline: int, i: nat)
    requires MapOk(memoryMap) && i < |memoryMap|
    ensures
      var r := memoryMap[i];
      var free := FreeFrom(r, kernelEnd, cmdline);
      r.kind.RAM? && r.end - free >= 0x10_0000 <==> HasChunk(HeapChunks(memoryMap, kernelEnd, cmdline), free, r.end)
  {
    var r, chunks := memoryMap[i], HeapChunks(memoryMap, kernelEnd, cmdline);
    var free := FreeFrom(r, kernelEnd, cmdline);
    StartIsFree(r, kernelEnd, cmdline);
    if Qualifies(r, kernelEnd, cmdline) {
      var k := RegionChunk(memoryMap, kernelEnd, cmdline, i);
    } else if HasChunk(chunks, free, r.end) {
      var k :| 0 <= k < |chunks| && chunks[k].addr == free && chunks[k].End() == r.end;
      NotFromOther(memoryMap, kernelEnd, cmdline, i, k);
    }
  }

  // What starts and ends in a region comes from that region.
  lemma NotFromOther(memoryMap: seq<MemoryRegion>, kernelEnd: int, cmdline: int, i: nat, k: nat)
    requires MapOk(memoryMap) && i < |memoryMap| && k < |HeapChunks(memoryMap, kernelEnd, cmdline)|
    requires
      var c := HeapChunks(memoryMap, kernelEnd, cmdline)[k];
      memoryMap[i].start <= c.addr && c.End() == memoryMap[i].end
    ensures Qualifies(memoryMap[i], kernelEnd, cmdline)
  {
    var j := ChunkRegion(memoryMap, kernelEnd, cmdline, k);
    HeapStartAligned(memoryMap[j], kernelEnd, cmdline);
    OthersApart(memoryMap, i, j);
  }

  lemma OthersApart(memoryMap: seq<MemoryRegion>, i: nat, j: nat)
    requires MapOk(memoryMap) && i < |memoryMap| && j < |memoryMap|
    ensures i != j ==> RegionsApart(memoryMap[i], memoryMap[j])
  {
  }

  lemma StartIsFree(r: MemoryRegion, kernelEnd: int, cmdline: int)
    requires RegionOk(r)
    ensures HeapStart(r, kernelEnd, cmdline) == FreeFrom(r, kernelEnd, cmdline) >= r.start
  {
    HeapStartAligned(r, kernelEnd, cmdline);
  }

  lemma {:induction false} VisibleIff(chunks: seq<Chunk>)
    ensures Visible(chunks) == chunks <==> !HasNullChunk(chunks)
  {
    if chunks != [] {
      VisibleIff(chunks[1..]);
      assert chunks == [chunks[0]] + chunks[1..];
      if HasNullChunk(chunks) && chunks[0].addr != NULL {
        var k :| 0 <= k < |chunks| && chunks[k].addr == NULL;
        assert chunks[1..][k - 1].addr == NULL;
      }
      if HasNullChunk(chunks[1..]) {
        var k :| 0 <= k < |chunks[1..]| && chunks[1..][k].addr == NULL;
        assert chunks[k + 1].addr == NULL;
      }
      if Visible(chunks) == chunks {
        assert Visible(chunks)[1..] == Visible(chunks[1..]);
      }
    }
  }

  // The heap starts out valid, with all its chunks on the list and nothing in the program's hands,
  // exactly if no region that is large enough starts at address 0 after the trimming. One chunk
  // comes from each region, inside RAM and on a page boundary, in any case.
  lemma InitialHeap(memoryMap: seq<MemoryRegion>, kernelEnd: int, cmdline: int)
    requires MapOk(memoryMap)
    ensures
      var chunks := HeapChunks(memoryMap, kernelEnd, cmdline);
      && (Inv(HeapState(chunks, map[]), RegionsOf(chunks)) <==> !StartsAtNull(memoryMap, kernelEnd, cmdline))
      && (Visible(chunks) == chunks <==> !StartsAtNull(memoryMap, kernelEnd, cmdline))
      && forall k :: 0 <= k < |chunks| ==> InRam(chunks[k], memoryMap) && chunks[k].addr % PAGE == 0
  {
    var chunks := HeapChunks(memoryMap, kernelEnd, cmdline);
    NullChunkIff(memoryMap, kernelEnd, cmdline);
    VisibleIff(chunks);
    ChunksApart(memoryMap, kernelEnd, cmdline);
    OneChunkEach(chunks);
    forall k | 0 <= k < |chunks| {
      InitialChunk(memoryMap, kernelEnd, cmdline, k);
    }
    if HasNullChunk(chunks) {
      var k :| 0 <= k < |chunks| && chunks[k].addr == NULL;
      assert chunks[k] in chunks && !ChunkOk(chunks[k], map[]);
    }
  }

  // A heap that is lost: 16 MiB of RAM at address 0, with the kernel above them, hide another 16 MiB.
  lemma HeapHidden()
    ensures
      var memoryMap := [MemoryRegion(0, 0x100_0000, RAM), MemoryRegion(0x200_0000, 0x300_0000, RAM)];
      && MapOk(memoryMap)
      && |HeapChunks(memoryMap, 0x400_0000, 0x500_0000)| == 2
      && Visible(HeapChunks(memoryMap, 0x400_0000, 0x500_0000)) == []
  {
    var low, high := MemoryRegion(0, 0x100_0000, RAM), MemoryRegion(0x200_0000, 0x300_0000, RAM);
    HeapStartAligned(low, 0x400_0000, 0x500_0000);
    HeapStartAligned(high, 0x400_0000, 0x500_0000);
    assert [low, high][..1] == [low] && [low][..0] == [];
  }

  ghost predicate InRam(c: Chunk, memoryMap: seq<MemoryRegion>) {
    exists j :: 0 <= j < |memoryMap| && memoryMap[j].kind.RAM? && memoryMap[j].start <= c.addr
      && c.End() <= memoryMap[j].end
  }

  // ---------- The kernel and its command line ----------

  ghost predicate Disjoint(c: Chunk, start: int, end: int) {
    c.End() <= start || end <= c.addr
  }

  // A kernel that lies inside one region is never given away.
  lemma KernelSafe(memoryMap: seq<MemoryRegion>, kernelStart: int, kernelEnd: int, cmdline: int, i: nat, c: Chunk)
    requires MapOk(memoryMap) && c in HeapChunks(memoryMap, kernelEnd, cmdline)
    requires i < |memoryMap| && memoryMap[i].start <= kernelStart < kernelEnd <= memoryMap[i].end
    ensures Disjoint(c, kernelStart, kernelEnd)
  {
    var k :| 0 <= k < |HeapChunks(memoryMap, kernelEnd, cmdline)| && HeapChunks(memoryMap, kernelEnd, cmdline)[k] == c;
    var j := ChunkRegion(memoryMap, kernelEnd, cmdline, k);
    HeapStartAligned(memoryMap[j], kernelEnd, cmdline);
  }

  // The page of the command line is kept out of a region exactly when the page does not run into
  // it from below the start of its heap.
  lemma CommandLineSafe(memoryMap: seq<MemoryRegion>, kernelEnd: int, cmdline: int, j: nat)
    requires MapOk(memoryMap) && j < |memoryMap| && Qualifies(memoryMap[j], kernelEnd, cmdline)
    ensures
      var r := memoryMap[j];
      var s := HeapStart(r, kernelEnd, cmdline);
      Disjoint(Chunk(s, r.end - s - HEADER, false), cmdline, cmdline + PAGE) <==>
      !(cmdline < AfterKernel(r, kernelEnd) && s < cmdline + PAGE)
  {
    HeapStartAligned(memoryMap[j], kernelEnd, cmdline);
  }

  // A command-line page that lies in one region, and does not straddle the end of the kernel, is
  // never given away.
  lemma CommandLineKept(memoryMap: seq<MemoryRegion>, kernelEnd: int, cmdline: int, i: nat, c: Chunk)
    requires MapOk(memoryMap) && c in HeapChunks(memoryMap, kernelEnd, cmdline)
    requires i < |memoryMap| && memoryMap[i].start <= cmdline && cmdline + PAGE <= memoryMap[i].end
    requires !(cmdline < kernelEnd < cmdline + PAGE)
    ensures Disjoint(c, cmdline, cmdline + PAGE)
  {
    var k :| 0 <= k < |HeapChunks(memoryMap, kernelEnd, cmdline)| && HeapChunks(memoryMap, kernelEnd, cmdline)[k] == c;
    var j := ChunkRegion(memoryMap, kernelEnd, cmdline, k);
    HeapStartAligned(memoryMap[j], kernelEnd, cmdline);
    if i == j {
      CommandLineSafe(memoryMap, kernelEnd, cmdline, j);
    }
  }
}
