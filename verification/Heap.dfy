// The first-fit allocator: chunk headers in raw memory, linked in address order of their regions,
// with the used mark kept in the top bit of the size.
module Heap {
  import opened Limits

  const NULL := 0
  const MEMCHUNK_USED: nat := 0x8000_0000_0000_0000
  const HEADER: nat := 16

  // A header as it lies in memory.
  datatype MemChunk = MemChunk(next: int, size: nat)

  predicate IsUsed(size: nat) { size / MEMCHUNK_USED % 2 == 1 }

  function SetUsed(size: nat): nat { if IsUsed(size) then size else size + MEMCHUNK_USED }

  function ClearUsed(size: nat): nat { if IsUsed(size) then size - MEMCHUNK_USED else size }

  // ---------- The heap as a sequence of chunks ----------

  datatype Chunk = Chunk(addr: int, size: nat, used: bool)
  {
    function End(): int { addr + HEADER + size }

    function Data(): int { addr + HEADER }
  }

  function SizeWord(c: Chunk): nat { if c.used then c.size + MEMCHUNK_USED else c.size }

  // The size asked for, rounded up to a multiple of 8; a request for nothing wraps around to 0.
  function AllocSize(size: nat): nat
    requires size < ULONG_LIMIT
  {
    ((size - 1) % ULONG_LIMIT / 8 * 8 + 8) % ULONG_LIMIT
  }

  predicate Fits(c: Chunk, n: nat) { !c.used && c.size >= n }

  // The first chunk that fits, or the number of chunks.
  function FirstFit(chunks: seq<Chunk>, n: nat): (k: nat)
    ensures k <= |chunks|
    ensures k < |chunks| ==> Fits(chunks[k], n)
    ensures forall j :: 0 <= j < k ==> !Fits(chunks[j], n)
  {
    if chunks == [] || Fits(chunks[0], n) then 0 else 1 + FirstFit(chunks[1..], n)
  }

  // What an allocation makes of the chunk it takes.
  function Carved(c: Chunk, n: nat): seq<Chunk>
    requires c.size >= n
  {
    if c.size >= n + HEADER + 8
    then [Chunk(c.addr, n, true), Chunk(c.addr + HEADER + n, c.size - n - HEADER, false)]
    else [c.(used := true)]
  }

  function Replaced(chunks: seq<Chunk>, k: nat, pieces: seq<Chunk>): seq<Chunk>
    requires k < |chunks|
  {
    chunks[..k] + pieces + chunks[k + 1..]
  }

  predicate Refused(chunks: seq<Chunk>, size: nat)
    requires size < ULONG_LIMIT
  {
    size > 0x7fff_ffff_ffff_ffff || FirstFit(chunks, AllocSize(size)) == |chunks|
  }

  function Allocated(chunks: seq<Chunk>, size: nat): seq<Chunk>
    requires size < ULONG_LIMIT
  {
    if Refused(chunks, size) then chunks
    else var k := FirstFit(chunks, AllocSize(size)); Replaced(chunks, k, Carved(chunks[k], AllocSize(size)))
  }

  function Pointer(chunks: seq<Chunk>, size: nat): int
    requires size < ULONG_LIMIT
  {
    if Refused(chunks, size) then NULL else chunks[FirstFit(chunks, AllocSize(size))].Data()
  }

  // Clears the used mark of the chunk at an address.
  function Released(chunks: seq<Chunk>, addr: int): seq<Chunk> {
    seq(|chunks|, i requires 0 <= i < |chunks| => if chunks[i].addr == addr then chunks[i].(used := false)
      else chunks[i])
  }

  // ---------- The chunks in memory ----------

  ghost predicate Segment(mem: map<int, MemChunk>, p: int, chunks: seq<Chunk>, q: int)
    decreases |chunks|
  {
    if chunks == [] then p == q
    else
      && p == chunks[0].addr && p > 0 && p in mem
      && mem[p].size == SizeWord(chunks[0])
      && Segment(mem, mem[p].next, chunks[1..], q)
  }

  ghost predicate Apart(chunks: seq<Chunk>) {
    forall i, j :: 0 <= i < j < |chunks| ==> chunks[i].End() <= chunks[j].addr || chunks[j].End() <= chunks[i].addr
  }

  ghost predicate SmallSizes(chunks: seq<Chunk>) {
    forall i :: 0 <= i < |chunks| ==> chunks[i].size < MEMCHUNK_USED
  }

  // Nothing but chunk headers has been written.
  ghost predicate SameOutside(mem: map<int, MemChunk>, mem': map<int, MemChunk>, chunks: seq<Chunk>) {
    forall a :: (forall i :: 0 <= i < |chunks| ==> chunks[i].addr != a) ==>
      (a in mem' <==> a in mem) && (a in mem ==> mem'[a] == mem[a])
  }

  lemma {:induction false} SegmentKept(mem: map<int, MemChunk>, mem': map<int, MemChunk>, p: int, chunks: seq<Chunk>,
                                       q: int)
    requires Segment(mem, p, chunks, q)
    requires forall c :: c in chunks && c.addr in mem ==> c.addr in mem' && mem'[c.addr] == mem[c.addr]
    ensures Segment(mem', p, chunks, q)
    decreases |chunks|
  {
    if chunks != [] {
      assert chunks[0] in chunks;
      SegmentKept(mem, mem', mem[p].next, chunks[1..], q);
    }
  }

  lemma {:induction false} SegmentAppend(mem: map<int, MemChunk>, p: int, a: seq<Chunk>, q: int, b: seq<Chunk>, r: int)
    requires Segment(mem, p, a, q) && Segment(mem, q, b, r)
    ensures Segment(mem, p, a + b, r)
    decreases |a|
  {
    if a == [] {
      assert a + b == b;
    } else {
      SegmentAppend(mem, mem[p].next, a[1..], q, b, r);
      assert (a + b)[1..] == a[1..] + b;
    }
  }

  lemma {:induction false} SegmentSplit(mem: map<int, MemChunk>, p: int, chunks: seq<Chunk>, r: int, k: nat)
    returns (q: int)
    requires k <= |chunks| && Segment(mem, p, chunks, r)
    ensures Segment(mem, p, chunks[..k], q) && Segment(mem, q, chunks[k..], r)
    decreases k
  {
    if k == 0 {
      q := p;
      assert chunks[0..] == chunks;
    } else {
      q := SegmentSplit(mem, mem[p].next, chunks[1..], r, k - 1);
      assert chunks[1..][..k - 1] == chunks[..k][1..];
      assert chunks[1..][k - 1..] == chunks[k..];
    }
  }

  // ---------- The allocator ----------

  class Allocator {
    var head: int
    var mem: map<int, MemChunk>
    ghost var chunks: seq<Chunk>

    ghost predicate Valid()
      reads this
    {
      Segment(mem, head, chunks, NULL) && Apart(chunks) && SmallSizes(chunks)
    }

    method Malloc(size: nat) returns (ptr: int)
      requires Valid() && size < ULONG_LIMIT
      modifies this
      ensures Valid()
      ensures chunks == Allocated(old(chunks), size) && ptr == Pointer(old(chunks), size)
      ensures head == old(head) && SameOutside(old(mem), mem, chunks)
    {
      if head == NULL || size > 0x7fff_ffff_ffff_ffff {
        return NULL;
      }
      var allocSize := ((size - 1) % ULONG_LIMIT / 8 * 8 + 8) % ULONG_LIMIT;
      var chunk := FindChunk(allocSize);
      if chunk == NULL {
        return NULL;
      }
      Take(chunk, allocSize);
      return chunk + HEADER;
    }

    // Splits the chunk if something of use is left behind, and marks it.
    method Take(chunk: int, allocSize: nat)
      requires Valid() && FirstFit(chunks, allocSize) < |chunks| && chunk > 0
      requires Found(chunk, FirstFit(chunks, allocSize), allocSize)
      modifies this
      ensures Valid() && head == old(head) && SameOutside(old(mem), mem, chunks)
      ensures
        var k := FirstFit(old(chunks), allocSize);
        chunks == Replaced(old(chunks), k, Carved(old(chunks)[k], allocSize))
    {
      ghost var before, k := mem, FirstFit(chunks, allocSize);
      if mem[chunk].size >= allocSize + HEADER + 8 {
        var newChunk := chunk + HEADER + allocSize;
        mem := mem[newChunk := MemChunk(mem[chunk].next, mem[chunk].size - allocSize - HEADER)];
        mem := mem[chunk := MemChunk(newChunk, allocSize)];
      }
      mem := mem[chunk := mem[chunk].(size := SetUsed(mem[chunk].size))];
      CarvedInMemory(before, mem, head, chunks, k, allocSize, chunk);
      CarvedApart(chunks, k, allocSize);
      chunks := Replaced(chunks, k, Carved(chunks[k], allocSize));
    }

    // The walk has come to chunk k, which fits.
    ghost predicate Found(chunk: int, k: nat, allocSize: nat)
      reads this
      requires k < |chunks|
    {
      && chunk in mem && chunk == chunks[k].addr && mem[chunk].size == SizeWord(chunks[k]) == chunks[k].size
      && Segment(mem, head, chunks[..k], chunk) && Segment(mem, chunk, chunks[k..], NULL)
      && IsUsed(SetUsed(chunks[k].size)) && SetUsed(chunks[k].size) == chunks[k].size + MEMCHUNK_USED
      && SetUsed(allocSize) == allocSize + MEMCHUNK_USED
    }

    // The search for a chunk that is unused and large enough.
    method FindChunk(allocSize: nat) returns (chunk: int)
      requires Valid()
      ensures chunk == NULL <==> FirstFit(chunks, allocSize) == |chunks|
      ensures chunk != NULL ==> chunk > 0 && Found(chunk, FirstFit(chunks, allocSize), allocSize)
    {
      chunk := head;
      ghost var k := 0;
      while chunk != NULL
        invariant k <= |chunks| && Segment(mem, chunk, chunks[k..], NULL)
        invariant Segment(mem, head, chunks[..k], chunk)
        invariant forall j :: 0 <= j < k ==> !Fits(chunks[j], allocSize)
        decreases |chunks| - k
      {
        assert k < |chunks| && chunks[k].size < MEMCHUNK_USED;
        WordBits(chunks[k]);
        if !IsUsed(mem[chunk].size) && mem[chunk].size >= allocSize {
          FirstFitIs(chunks, allocSize, k);
          return;
        }
        SegmentStep(mem, head, chunks, k, chunk);
        chunk := mem[chunk].next;
        k := k + 1;
      }
      FirstFitIs(chunks, allocSize, k);
    }

    method Free(ptr: int)
      requires Valid()
      requires ptr == NULL || exists i :: 0 <= i < |chunks| && chunks[i].Data() == ptr
      modifies this
      ensures Valid()
      ensures chunks == if ptr == NULL then old(chunks) else Released(old(chunks), ptr - HEADER)
      ensures head == old(head) && SameOutside(old(mem), mem, chunks)
    {
      if ptr == NULL {
        return;
      }
      var chunk := ptr - HEADER;
      ghost var i :| 0 <= i < |chunks| && chunks[i].Data() == ptr;
      ghost var at := SegmentSplit(mem, head, chunks, NULL, i);
      WordBits(chunks[i]);
      ReleasedInMemory(mem, head, chunks, i);
      mem := mem[chunk := mem[chunk].(size := ClearUsed(mem[chunk].size))];
      chunks := Released(chunks, chunk);
    }
  }

  lemma WordBits(c: Chunk)
    requires c.size < MEMCHUNK_USED
    ensures IsUsed(SizeWord(c)) == c.used
    ensures SetUsed(SizeWord(c)) == SizeWord(c.(used := true))
    ensures ClearUsed(SizeWord(c)) == SizeWord(c.(used := false))
  {
  }

  // In a 64-bit word the mark is the top bit, and the rest is the size.
  lemma MarkIsTopBit(w: nat)
    requires w < 0x1_0000_0000_0000_0000
    ensures IsUsed(w) <==> w >= 0x8000_0000_0000_0000
    ensures ClearUsed(w) == w % 0x8000_0000_0000_0000
    ensures SetUsed(w) == w % 0x8000_0000_0000_0000 + 0x8000_0000_0000_0000
  {
  }

  // Chunks that lie apart have different addresses, and none starts inside another.
  lemma ApartAddresses(chunks: seq<Chunk>, k: nat)
    requires Apart(chunks) && k < |chunks|
    ensures forall c :: c in chunks[..k] + chunks[k + 1..] ==> !(chunks[k].addr <= c.addr < chunks[k].End())
  {
    forall c | c in chunks[..k] + chunks[k + 1..] ensures !(chunks[k].addr <= c.addr < chunks[k].End()) {
      var j :| 0 <= j < |chunks| && j != k && chunks[j] == c;
      assert c.addr < c.End();
    }
  }

  lemma CarvedInMemory(mem: map<int, MemChunk>, mem': map<int, MemChunk>, head: int, chunks: seq<Chunk>, k: nat,
                       n: nat, p: int)
    requires k < |chunks| && Apart(chunks) && SmallSizes(chunks) && Fits(chunks[k], n)
    requires Segment(mem, head, chunks[..k], p) && Segment(mem, p, chunks[k..], NULL)
    requires
      var pieces := Carved(chunks[k], n);
      if |pieces| == 1 then mem' == mem[p := MemChunk(mem[p].next, SizeWord(pieces[0]))]
      else mem' == mem[pieces[1].addr := MemChunk(mem[p].next, SizeWord(pieces[1]))]
                      [p := MemChunk(pieces[1].addr, SizeWord(pieces[0]))]
    requires p > 0
    ensures Segment(mem', head, Replaced(chunks, k, Carved(chunks[k], n)), NULL)
    ensures SameOutside(mem, mem', Replaced(chunks, k, Carved(chunks[k], n)))
  {
    var pieces, rest := Carved(chunks[k], n), mem[p].next;
    PiecesOutside(mem, mem', chunks, k, pieces);
    ApartAddresses(chunks, k);
    assert chunks[k..][1..] == chunks[k + 1..];
    PiecesInMemory(mem', p, pieces, rest);
    SpliceInMemory(mem, mem', head, chunks, k, pieces, p, rest);
  }

  lemma PiecesOutside(mem: map<int, MemChunk>, mem': map<int, MemChunk>, chunks: seq<Chunk>, k: nat, pieces: seq<Chunk>)
    requires k < |chunks|
    requires forall a :: (forall i :: 0 <= i < |pieces| ==> pieces[i].addr != a) ==>
      (a in mem' <==> a in mem) && (a in mem ==> mem'[a] == mem[a])
    ensures SameOutside(mem, mem', Replaced(chunks, k, pieces))
  {
    var after := Replaced(chunks, k, pieces);
    forall i | 0 <= i < |pieces| ensures after[k + i] == pieces[i] {}
    forall a | forall i :: 0 <= i < |after| ==> after[i].addr != a
      ensures (a in mem' <==> a in mem) && (a in mem ==> mem'[a] == mem[a])
    {
      forall i | 0 <= i < |pieces| ensures pieces[i].addr != a {
        assert after[k + i].addr != a;
      }
    }
  }

  lemma PiecesInMemory(mem: map<int, MemChunk>, p: int, pieces: seq<Chunk>, rest: int)
    requires 1 <= |pieces| <= 2 && p == pieces[0].addr && p > 0 && p in mem && mem[p].size == SizeWord(pieces[0])
    requires
      if |pieces| == 1 then mem[p].next == rest
      else
        var q := pieces[1].addr;
        mem[p].next == q && q > 0 && q in mem && mem[q] == MemChunk(rest, SizeWord(pieces[1]))
    ensures Segment(mem, p, pieces, rest)
  {
    if |pieces| == 2 {
      assert pieces[1..] == [pieces[1]];
      assert Segment(mem, pieces[1].addr, [pieces[1]], rest);
    } else {
      assert pieces[1..] == [];
    }
  }

  // Replacing one chunk of the list, when the rest of memory keeps its headers.
  lemma SpliceInMemory(mem: map<int, MemChunk>, mem': map<int, MemChunk>, head: int, chunks: seq<Chunk>, k: nat,
                       pieces: seq<Chunk>, p: int, rest: int)
    requires k < |chunks|
    requires Segment(mem, head, chunks[..k], p) && Segment(mem', p, pieces, rest)
        && Segment(mem, rest, chunks[k + 1..], NULL)
    requires forall c :: c in chunks[..k] + chunks[k + 1..] && c.addr in mem ==>
        c.addr in mem' && mem'[c.addr] == mem[c.addr]
    ensures Segment(mem', head, Replaced(chunks, k, pieces), NULL)
  {
    SegmentKept(mem, mem', head, chunks[..k], p);
    SegmentKept(mem, mem', rest, chunks[k + 1..], NULL);
    SegmentAppend(mem', head, chunks[..k], p, pieces, rest);
    SegmentAppend(mem', head, chunks[..k] + pieces, rest, chunks[k + 1..], NULL);
  }

  lemma CarvedApart(chunks: seq<Chunk>, k: nat, n: nat)
    requires k < |chunks| && Apart(chunks) && SmallSizes(chunks) && Fits(chunks[k], n)
    ensures Apart(Replaced(chunks, k, Carved(chunks[k], n))) && SmallSizes(Replaced(chunks, k, Carved(chunks[k], n)))
  {
    var pieces, after := Carved(chunks[k], n), Replaced(chunks, k, Carved(chunks[k], n));
    // Every new chunk lies within an old one, and the pieces lie one after the other.
    forall i, j | 0 <= i < j < |after| ensures after[i].End() <= after[j].addr || after[j].End() <= after[i].addr {
      var i', j' := Origin(chunks, k, |pieces|, i), Origin(chunks, k, |pieces|, j);
      WithinOrigin(chunks, k, n, i);
      WithinOrigin(chunks, k, n, j);
      if i' < j' {
      } else {
        assert i == k && j == k + 1;
      }
    }
    forall i | 0 <= i < |after| ensures after[i].size < MEMCHUNK_USED {
      WithinOrigin(chunks, k, n, i);
    }
  }

  // The old chunk that a new one comes from.
  function Origin(chunks: seq<Chunk>, k: nat, pieces: nat, i: nat): nat {
    if i < k then i else if i < k + pieces then k else i - pieces + 1
  }

  lemma WithinOrigin(chunks: seq<Chunk>, k: nat, n: nat, i: nat)
    requires k < |chunks| && Fits(chunks[k], n) && i < |Replaced(chunks, k, Carved(chunks[k], n))|
    ensures
      var c := Replaced(chunks, k, Carved(chunks[k], n))[i];
      var from := Origin(chunks, k, |Carved(chunks[k], n)|, i);
      && from < |chunks| && (from != k ==> c == chunks[from])
      && chunks[from].addr <= c.addr && c.End() <= chunks[from].End() && c.size <= chunks[from].size
  {
  }

  lemma ReleasedInMemory(mem: map<int, MemChunk>, head: int, chunks: seq<Chunk>, i: nat)
    requires i < |chunks| && Apart(chunks) && SmallSizes(chunks) && Segment(mem, head, chunks, NULL)
    ensures
      var p, after := chunks[i].addr, Released(chunks, chunks[i].addr);
      && p in mem && Apart(after) && SmallSizes(after)
      && Segment(mem[p := mem[p].(size := ClearUsed(mem[p].size))], head, after, NULL)
      && SameOutside(mem, mem[p := mem[p].(size := ClearUsed(mem[p].size))], after)
  {
    var p, freed := chunks[i].addr, chunks[i].(used := false);
    var q := SegmentSplit(mem, head, chunks, NULL, i);
    var mem' := mem[p := mem[p].(size := ClearUsed(mem[p].size))];
    WordBits(chunks[i]);
    ApartAddresses(chunks, i);
    assert chunks[i..][1..] == chunks[i + 1..];
    assert Segment(mem', p, [freed], mem[p].next);
    SpliceInMemory(mem, mem', head, chunks, i, [freed], p, mem[p].next);
    PiecesOutside(mem, mem', chunks, i, [freed]);
    ReleasedIs(chunks, i);
  }

  // Releasing a chunk changes that chunk only.
  lemma ReleasedIs(chunks: seq<Chunk>, i: nat)
    requires i < |chunks| && Apart(chunks)
    ensures Released(chunks, chunks[i].addr) == Replaced(chunks, i, [chunks[i].(used := false)])
    ensures Apart(Released(chunks, chunks[i].addr))
  {
    var after := Released(chunks, chunks[i].addr);
    forall j | 0 <= j < |chunks| && j != i ensures chunks[j].addr != chunks[i].addr {
      assert chunks[j].addr < chunks[j].End() && chunks[i].addr < chunks[i].End();
    }
    forall j | 0 <= j < |chunks| ensures after[j] == Replaced(chunks, i, [chunks[i].(used := false)])[j] {}
    forall j, l | 0 <= j < l < |after| ensures after[j].End() <= after[l].addr || after[l].End() <= after[j].addr {
      assert chunks[j].End() <= chunks[l].addr || chunks[l].End() <= chunks[j].addr;
    }
  }

  lemma FirstFitIs(chunks: seq<Chunk>, n: nat, k: nat)
    requires k <= |chunks| && (k < |chunks| ==> Fits(chunks[k], n))
    requires forall j :: 0 <= j < k ==> !Fits(chunks[j], n)
    ensures FirstFit(chunks, n) == k
  {
  }

  lemma SegmentStep(mem: map<int, MemChunk>, head: int, chunks: seq<Chunk>, k: nat, p: int)
    requires k < |chunks| && Segment(mem, head, chunks[..k], p) && Segment(mem, p, chunks[k..], NULL)
    ensures p in mem && Segment(mem, head, chunks[..k + 1], mem[p].next)
        && Segment(mem, mem[p].next, chunks[k + 1..], NULL)
  {
    assert Segment(mem, p, [chunks[k]], mem[p].next);
    SegmentAppend(mem, head, chunks[..k], p, [chunks[k]], mem[p].next);
    assert chunks[..k] + [chunks[k]] == chunks[..k + 1];
    assert chunks[k..][1..] == chunks[k + 1..];
  }
}
