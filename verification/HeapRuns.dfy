// What holds over every sequence of allocations and releases.
module HeapRuns {
  import opened Heap
  import opened Limits

  datatype Region = Region(start: int, end: int)

  datatype Op = Malloc(size: nat) | Free(ptr: int)

  // The chunks, and the blocks in the program's hands with the sizes it asked for.
  datatype HeapState = HeapState(chunks: seq<Chunk>, live: map<int, nat>)

  // ---------- Tiling ----------

  // The chunks cover the rest of the first region from an address on, and then the other regions,
  // without a gap and without overlap.
  ghost predicate TilesFrom(chunks: seq<Chunk>, at: int, regions: seq<Region>)
    decreases |chunks| + |regions|, 0
  {
    if regions == [] then chunks == []
    else if at == regions[0].end then Tiles(chunks, regions[1..])
    else
      && chunks != [] && chunks[0].addr == at && chunks[0].End() <= regions[0].end
      && TilesFrom(chunks[1..], chunks[0].End(), regions)
  }

  ghost predicate Tiles(chunks: seq<Chunk>, regions: seq<Region>)
    decreases |chunks| + |regions|, 1
  {
    if regions == [] then chunks == [] else TilesFrom(chunks, regions[0].start, regions)
  }

  ghost predicate PiecesOf(c: Chunk, pieces: seq<Chunk>) {
    || (|pieces| == 1 && pieces[0].addr == c.addr && pieces[0].End() == c.End())
    || (|pieces| == 2 && pieces[0].addr == c.addr && pieces[0].End() == pieces[1].addr && pieces[1].End() == c.End())
  }

  lemma {:induction false} TilesReplaced(chunks: seq<Chunk>, at: int, regions: seq<Region>, k: nat, pieces: seq<Chunk>)
    requires k < |chunks| && PiecesOf(chunks[k], pieces) && TilesFrom(chunks, at, regions)
    ensures TilesFrom(Replaced(chunks, k, pieces), at, regions)
    decreases |chunks| + |regions|
  {
    var after := Replaced(chunks, k, pieces);
    if at == regions[0].end {
      TilesReplaced(chunks, regions[1].start, regions[1..], k, pieces);
    } else if k == 0 {
      assert after == pieces + chunks[1..];
      if |pieces| == 2 {
        assert after[1..] == [pieces[1]] + chunks[1..] && after[1..][1..] == chunks[1..];
        assert TilesFrom(after[1..], pieces[1].addr, regions);
      } else {
        assert after[1..] == chunks[1..];
      }
    } else {
      TilesReplaced(chunks[1..], chunks[0].End(), regions, k - 1, pieces);
      assert after[0] == chunks[0] && after[1..] == Replaced(chunks[1..], k - 1, pieces);
    }
  }

  function TotalBytes(chunks: seq<Chunk>): int {
    if chunks == [] then 0 else HEADER + chunks[0].size + TotalBytes(chunks[1..])
  }

  function TotalLength(regions: seq<Region>): int {
    if regions == [] then 0 else regions[0].end - regions[0].start + TotalLength(regions[1..])
  }

  // The headers and the sizes add up to the memory of the regions.
  lemma {:induction false} BytesConserved(chunks: seq<Chunk>, at: int, regions: seq<Region>)
    requires TilesFrom(chunks, at, regions) && regions != []
    ensures TotalBytes(chunks) == regions[0].end - at + TotalLength(regions[1..])
    decreases |chunks| + |regions|
  {
    if at == regions[0].end {
      if |regions| > 1 {
        BytesConserved(chunks, regions[1].start, regions[1..]);
      }
    } else {
      BytesConserved(chunks[1..], chunks[0].End(), regions);
    }
  }

  // ---------- The invariant ----------

  // The least multiple of 8 that is not below.
  function UpTo8(size: nat): nat { (size + 7) / 8 * 8 }

  // A chunk is used exactly when its block is in the program's hands. Then it holds all of it, and
  // not so much more that another chunk could be made of the rest.
  predicate ChunkOk(c: Chunk, live: map<int, nat>) {
    && c.addr > 0 && c.addr % 8 == 0
    && (c.used <==> c.Data() in live)
    && (c.used ==> live[c.Data()] <= c.size < UpTo8(live[c.Data()]) + HEADER + 8)
  }

  ghost predicate HasBlock(chunks: seq<Chunk>, p: int) {
    exists c :: c in chunks && c.used && c.Data() == p
  }

  ghost predicate Matches(chunks: seq<Chunk>, live: map<int, nat>) {
    && (forall c :: c in chunks ==> ChunkOk(c, live))
    && (forall p :: p in live ==> HasBlock(chunks, p))
  }

  ghost predicate Inv(h: HeapState, regions: seq<Region>) {
    Tiles(h.chunks, regions) && Apart(h.chunks) && SmallSizes(h.chunks) && Matches(h.chunks, h.live)
  }

  predicate LegalOp(h: HeapState, op: Op) {
    match op
    case Malloc(size) => size < ULONG_LIMIT
    case Free(ptr) => ptr == NULL || ptr in h.live
  }

  function Step(h: HeapState, op: Op): HeapState
    requires LegalOp(h, op)
  {
    match op
    case Malloc(size) =>
      var p := Pointer(h.chunks, size);
      HeapState(Allocated(h.chunks, size), if p == NULL then h.live else h.live[p := size])
    case Free(ptr) =>
      if ptr == NULL then h else HeapState(Released(h.chunks, ptr - HEADER), h.live - {ptr})
  }

  lemma AllocSizeEnough(size: nat)
    requires size <= 0x7fff_ffff_ffff_ffff
    ensures size <= AllocSize(size) == UpTo8(size) && AllocSize(size) % 8 == 0
  {
  }

  lemma CarvedPieces(c: Chunk, n: nat)
    requires c.size >= n
    ensures PiecesOf(c, Carved(c, n))
    ensures Carved(c, n)[0].used && n <= Carved(c, n)[0].size < n + HEADER + 8
    ensures |Carved(c, n)| == 2 ==> !Carved(c, n)[1].used
  {
  }

  lemma MallocKeeps(h: HeapState, regions: seq<Region>, size: nat)
    requires Inv(h, regions) && size < ULONG_LIMIT
    ensures Inv(Step(h, Malloc(size)), regions)
  {
    if !Refused(h.chunks, size) {
      var n := AllocSize(size);
      var k := FirstFit(h.chunks, n);
      CarvedApart(h.chunks, k, n);
      CarvedPieces(h.chunks[k], n);
      TilesReplaced(h.chunks, regions[0].start, regions, k, Carved(h.chunks[k], n));
      CarvedMatches(h.chunks, h.live, k, size);
    }
  }

  lemma CarvedMatches(chunks: seq<Chunk>, live: map<int, nat>, k: nat, size: nat)
    requires k < |chunks| && Apart(chunks) && Matches(chunks, live)
    requires size <= 0x7fff_ffff_ffff_ffff && Fits(chunks[k], AllocSize(size))
    ensures Matches(Replaced(chunks, k, Carved(chunks[k], AllocSize(size))), live[chunks[k].Data() := size])
  {
    var c, n := chunks[k], AllocSize(size);
    AllocSizeEnough(size);
    CarvedPieces(c, n);
    assert c in chunks && ChunkOk(c, live);
    ReplacedLive(chunks, live, k, Carved(c, n), live[c.Data() := size]);
  }

  lemma FreeKeeps(h: HeapState, regions: seq<Region>, ptr: int)
    requires Inv(h, regions) && ptr in h.live && ptr != NULL
    ensures Inv(Step(h, Free(ptr)), regions)
  {
    var k := BlockAt(h.chunks, h.live, ptr);
    var c := h.chunks[k];
    ReleasedIs(h.chunks, k);
    TilesReplaced(h.chunks, regions[0].start, regions, k, [c.(used := false)]);
    assert ChunkOk(c, h.live);
    ReplacedLive(h.chunks, h.live, k, [c.(used := false)], h.live - {ptr});
    ReleasedSmall(h.chunks, c.addr);
  }

  lemma BlockAt(chunks: seq<Chunk>, live: map<int, nat>, p: int) returns (k: nat)
    requires Matches(chunks, live) && p in live
    ensures k < |chunks| && chunks[k].used && chunks[k].Data() == p
  {
    var c :| c in chunks && c.used && c.Data() == p;
    k :| 0 <= k < |chunks| && chunks[k] == c;
  }

  lemma ReleasedSmall(chunks: seq<Chunk>, addr: int)
    requires SmallSizes(chunks)
    ensures SmallSizes(Released(chunks, addr))
  {
  }

  ghost predicate SameExcept(live: map<int, nat>, live': map<int, nat>, at: int) {
    forall p :: p != at ==> (p in live' <==> p in live) && (p in live' ==> live'[p] == live[p])
  }

  // Replacing a chunk keeps the rest in order, as long as only its own block changes hands.
  lemma ReplacedLive(chunks: seq<Chunk>, live: map<int, nat>, k: nat, pieces: seq<Chunk>, live': map<int, nat>)
    requires k < |chunks| && Apart(chunks) && PiecesOf(chunks[k], pieces)
    requires Matches(chunks, live) && SameExcept(live, live', chunks[k].Data())
    requires ChunkOk(pieces[0], live')
    requires |pieces| == 2 ==> !pieces[1].used && pieces[1].addr % 8 == 0 && pieces[1].addr >= pieces[0].Data()
    ensures Matches(Replaced(chunks, k, pieces), live')
  {
    var after := Replaced(chunks, k, pieces);
    forall c | c in after ensures ChunkOk(c, live') {
      if c in chunks[..k] + chunks[k + 1..] {
        OtherData(chunks, k, c);
      } else if |pieces| == 2 && c == pieces[1] {
        NotData(chunks, k, c.Data());
      }
    }
    forall p | p in live' ensures HasBlock(after, p) {
      if p == chunks[k].Data() {
        assert pieces[0] in after;
      } else {
        var c :| c in chunks && c.used && c.Data() == p;
        assert c in after;
      }
    }
  }

  lemma OtherData(chunks: seq<Chunk>, k: nat, c: Chunk)
    requires k < |chunks| && Apart(chunks) && c in chunks[..k] + chunks[k + 1..]
    ensures c in chunks && c.Data() != chunks[k].Data()
  {
    var j :| 0 <= j < |chunks| && j != k && chunks[j] == c;
    assert c.End() <= chunks[k].addr || chunks[k].End() <= c.addr;
  }

  // No chunk has its block start strictly inside another chunk.
  lemma NotData(chunks: seq<Chunk>, k: nat, d: int)
    requires k < |chunks| && Apart(chunks) && chunks[k].Data() + HEADER <= d <= chunks[k].End()
    requires forall c :: c in chunks ==> c.size >= 0
    ensures forall c :: c in chunks ==> c.Data() != d
  {
    forall c | c in chunks ensures c.Data() != d {
      var i :| 0 <= i < |chunks| && chunks[i] == c;
      assert i != k ==> c.End() <= chunks[k].addr || chunks[k].End() <= c.addr;
    }
  }

  // ---------- Runs ----------

  predicate LegalRun(h: HeapState, ops: seq<Op>)
    decreases |ops|
  {
    ops != [] ==> LegalOp(h, ops[0]) && LegalRun(Step(h, ops[0]), ops[1..])
  }

  function RunEnd(h: HeapState, ops: seq<Op>): HeapState
    requires LegalRun(h, ops)
    decreases |ops|
  {
    if ops == [] then h else RunEnd(Step(h, ops[0]), ops[1..])
  }

  ghost function Boundaries(chunks: seq<Chunk>): set<int> {
    set i | 0 <= i < |chunks| :: chunks[i].addr
  }

  lemma StepKeeps(h: HeapState, regions: seq<Region>, op: Op)
    requires Inv(h, regions) && LegalOp(h, op)
    ensures Inv(Step(h, op), regions)
    ensures Boundaries(h.chunks) <= Boundaries(Step(h, op).chunks)
  {
    var h' := Step(h, op);
    match op
    case Malloc(size) =>
      MallocKeeps(h, regions, size);
      if !Refused(h.chunks, size) {
        var k := FirstFit(h.chunks, AllocSize(size));
        var pieces := Carved(h.chunks[k], AllocSize(size));
        forall i | 0 <= i < |h.chunks| ensures h.chunks[i].addr in Boundaries(h'.chunks) {
          var i' := if i <= k then i else i + |pieces| - 1;
          assert h'.chunks[i'].addr == h.chunks[i].addr;
        }
      }
    case Free(ptr) =>
      if ptr != NULL {
        FreeKeeps(h, regions, ptr);
        forall i | 0 <= i < |h.chunks| ensures h.chunks[i].addr in Boundaries(h'.chunks) {
          assert h'.chunks[i].addr == h.chunks[i].addr;
        }
      }
  }

  // Over every run, the chunks go on tiling the regions, no boundary is lost, and the headers and
  // sizes add up to the memory there is.
  lemma {:induction false} RunKeeps(h: HeapState, regions: seq<Region>, ops: seq<Op>)
    requires Inv(h, regions) && LegalRun(h, ops)
    ensures Inv(RunEnd(h, ops), regions)
    ensures Boundaries(h.chunks) <= Boundaries(RunEnd(h, ops).chunks)
    ensures TotalBytes(RunEnd(h, ops).chunks) == TotalLength(regions)
    decreases |ops|
  {
    if ops == [] {
      if regions != [] {
        BytesConserved(h.chunks, regions[0].start, regions);
      }
    } else {
      StepKeeps(h, regions, ops[0]);
      RunKeeps(Step(h, ops[0]), regions, ops[1..]);
    }
  }

  // Live blocks are aligned, and two of them never share a byte.
  lemma LiveBlocks(h: HeapState, regions: seq<Region>, p: int, q: int)
    requires Inv(h, regions) && p in h.live && q in h.live
    ensures p % 8 == 0 && p > 0
    ensures p != q ==> p + h.live[p] <= q || q + h.live[q] <= p
  {
    var i := BlockAt(h.chunks, h.live, p);
    var j := BlockAt(h.chunks, h.live, q);
    var c, d := h.chunks[i], h.chunks[j];
    assert ChunkOk(c, h.live) && ChunkOk(d, h.live);
    if p != q {
      ChunksApart(h.chunks, c, d);
    }
  }

  lemma ChunksApart(chunks: seq<Chunk>, c: Chunk, d: Chunk)
    requires Apart(chunks) && c in chunks && d in chunks && c != d
    ensures c.End() <= d.addr || d.End() <= c.addr
  {
    var i :| 0 <= i < |chunks| && chunks[i] == c;
    var j :| 0 <= j < |chunks| && chunks[j] == d;
  }

  // No live block contains a byte of any header.
  lemma HeadersSafe(h: HeapState, regions: seq<Region>, p: int, d: Chunk)
    requires Inv(h, regions) && p in h.live && d in h.chunks
    ensures p + h.live[p] <= d.addr || d.Data() <= p
  {
    var c :| c in h.chunks && c.used && c.Data() == p;
    assert ChunkOk(c, h.live);
    if c != d {
      ChunksApart(h.chunks, c, d);
    }
  }

  // An allocation fails only when the request is too big or no unused chunk can hold it, and
  // otherwise takes the first chunk that can.
  lemma MallocTakesFirst(h: HeapState, regions: seq<Region>, size: nat)
    requires Inv(h, regions) && size < ULONG_LIMIT
    ensures
      var p := Pointer(h.chunks, size);
      && (p == NULL <==> size > 0x7fff_ffff_ffff_ffff || forall c :: c in h.chunks && !c.used ==>
           c.size < AllocSize(size))
      && (p == NULL ==> Step(h, Malloc(size)) == h)
      && (p != NULL ==>
            && p !in h.live
            && exists k :: 0 <= k < |h.chunks| && h.chunks[k].Data() == p
                 && NoneFitsBefore(h.chunks, k, AllocSize(size)))
  {
    var k := FirstFit(h.chunks, AllocSize(size));
    if k == |h.chunks| {
      forall c | c in h.chunks && !c.used ensures c.size < AllocSize(size) {
        var j :| 0 <= j < |h.chunks| && h.chunks[j] == c;
        assert !Fits(h.chunks[j], AllocSize(size));
      }
    } else {
      assert h.chunks[k] in h.chunks;
      assert NoneFitsBefore(h.chunks, k, AllocSize(size));
    }
  }

  predicate NoneFitsBefore(chunks: seq<Chunk>, k: nat, n: nat) {
    forall j :: 0 <= j < k && j < |chunks| ==> chunks[j].used || chunks[j].size < n
  }

  // ---------- What malloc gives back ----------

  // Of the chunk it takes, malloc keeps the size asked for, up to the next multiple of 8. The rest goes
  // to a free chunk of its own behind it, if 8 bytes of that are left besides the header. Everything
  // else stays as it was.
  lemma MallocGivesBack(h: HeapState, regions: seq<Region>, size: nat) returns (k: nat)
    requires Inv(h, regions) && size < ULONG_LIMIT && Pointer(h.chunks, size) != NULL
    ensures k < |h.chunks| && h.chunks[k].Data() == Pointer(h.chunks, size)
    ensures !h.chunks[k].used && h.chunks[k].size >= UpTo8(size)
    ensures
      var c, n, after := h.chunks[k], UpTo8(size), Step(h, Malloc(size)).chunks;
      if c.size >= n + 24 then
        after == h.chunks[..k] + [Chunk(c.addr, n, true), Chunk(c.addr + 16 + n, c.size - n - 16, false)]
                 + h.chunks[k + 1..]
      else after == h.chunks[..k] + [Chunk(c.addr, c.size, true)] + h.chunks[k + 1..]
    ensures Step(h, Malloc(size)).live == h.live[Pointer(h.chunks, size) := size]
  {
    AllocSizeEnough(size);
    k := FirstFit(h.chunks, AllocSize(size));
  }

  // Freeing a block makes its chunk free, and changes no other and no size.
  lemma FreeGivesBack(h: HeapState, regions: seq<Region>, ptr: int) returns (k: nat)
    requires Inv(h, regions) && ptr in h.live
    ensures k < |h.chunks| && h.chunks[k].used && h.chunks[k].addr + 16 == ptr
    ensures Step(h, Free(ptr)).chunks == h.chunks[..k] + [h.chunks[k].(used := false)] + h.chunks[k + 1..]
    ensures Step(h, Free(ptr)).live == h.live - {ptr}
  {
    k := BlockAt(h.chunks, h.live, ptr);
    assert ChunkOk(h.chunks[k], h.live);
    ReleasedIs(h.chunks, k);
  }

  // Every chunk is of use to a request.
  predicate Useful(chunks: seq<Chunk>) {
    forall c :: c in chunks ==> c.size >= 8
  }

  // A request for nothing is not rounded up to 8 bytes: it may leave a chunk of size 0 behind.
  lemma UsefulIff(h: HeapState, regions: seq<Region>, size: nat) returns (k: nat)
    requires Inv(h, regions) && Useful(h.chunks) && size < ULONG_LIMIT && Pointer(h.chunks, size) != NULL
    ensures k < |h.chunks| && h.chunks[k].Data() == Pointer(h.chunks, size)
    ensures Useful(Step(h, Malloc(size)).chunks) <==> size > 0 || h.chunks[k].size < 24
  {
    k := MallocGivesBack(h, regions, size);
    var c, n := h.chunks[k], UpTo8(size);
    assert c in h.chunks;
    PiecesUseful(c, n, size);
    if c.size >= n + 24 {
      PartsUseful(h.chunks, k, [Chunk(c.addr, n, true), Chunk(c.addr + 16 + n, c.size - n - 16, false)]);
    } else {
      PartsUseful(h.chunks, k, [Chunk(c.addr, c.size, true)]);
    }
  }

  lemma PiecesUseful(c: Chunk, n: nat, size: nat)
    requires c.size >= 8 && c.size >= n == UpTo8(size)
    ensures
      c.size >= n + 24 ==>
        (Useful([Chunk(c.addr, n, true), Chunk(c.addr + 16 + n, c.size - n - 16, false)]) <==> size > 0)
    ensures c.size < n + 24 ==> (size > 0 || c.size < 24) && Useful([Chunk(c.addr, c.size, true)])
  {
    if c.size >= n + 24 {
      var first := Chunk(c.addr, n, true);
      assert first in [first, Chunk(c.addr + 16 + n, c.size - n - 16, false)];
    }
  }

  lemma PartsUseful(chunks: seq<Chunk>, k: nat, pieces: seq<Chunk>)
    requires k < |chunks| && Useful(chunks)
    ensures Useful(chunks[..k] + pieces + chunks[k + 1..]) <==> Useful(pieces)
  {
    var after := chunks[..k] + pieces + chunks[k + 1..];
    assert forall c :: c in after <==> c in chunks[..k] || c in pieces || c in chunks[k + 1..];
  }

  // Over every run that does not ask for nothing, every chunk stays of use.
  lemma {:induction false} RunUseful(h: HeapState, regions: seq<Region>, ops: seq<Op>)
    requires Inv(h, regions) && LegalRun(h, ops) && Useful(h.chunks) && Malloc(0) !in ops
    ensures Useful(RunEnd(h, ops).chunks)
    decreases |ops|
  {
    if ops != [] {
      StepUseful(h, regions, ops[0]);
      StepKeeps(h, regions, ops[0]);
      RunUseful(Step(h, ops[0]), regions, ops[1..]);
    }
  }

  lemma StepUseful(h: HeapState, regions: seq<Region>, op: Op)
    requires Inv(h, regions) && LegalOp(h, op) && Useful(h.chunks) && op != Malloc(0)
    ensures Useful(Step(h, op).chunks)
  {
    match op
    case Malloc(size) =>
      if Pointer(h.chunks, size) != NULL {
        var k := UsefulIff(h, regions, size);
      } else {
        MallocTakesFirst(h, regions, size);
      }
    case Free(ptr) =>
      if ptr != NULL {
        var k := FreeGivesBack(h, regions, ptr);
        assert h.chunks[k] in h.chunks;
        PartsUseful(h.chunks, k, [h.chunks[k].(used := false)]);
      }
  }

  // An instance: of a mebibyte, what a block of 1046000 bytes leaves over serves the next request.
  lemma RestServes()
    ensures
      var h := HeapState([Chunk(0x10_0000, 0xF_FFF0, false)], map[]);
      var h' := Step(h, Malloc(1046000));
      Pointer(h.chunks, 1046000) == 0x10_0010 && Pointer(h'.chunks, 8) == 0x10_0010 + 1046000 + 16
  {
    var h := HeapState([Chunk(0x10_0000, 0xF_FFF0, false)], map[]);
    assert AllocSize(1046000) == 1046000 && AllocSize(8) == 8;
    var h' := Step(h, Malloc(1046000));
    assert h'.chunks == [Chunk(0x10_0000, 1046000, true), Chunk(0x10_0010 + 1046000, 2544, false)];
    assert h'.chunks[1..][0] == h'.chunks[1];
    assert FirstFit(h'.chunks, 8) == 1;
  }
}
