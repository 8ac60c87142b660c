// Exceptions in blocks from this heap, which clears nothing: what the first one leaves behind is what
// the second one finds.
module ExceptionsOnHeap {
  import Heap
  import HeapRuns
  import opened ExceptionRuntime
  import opened ExceptionSpec
  import opened Limits

  // Asked for as much again, the heap gives the block back that has just been freed.
  lemma MallocAgain(h: HeapRuns.HeapState, regions: seq<HeapRuns.Region>, size: nat)
    requires HeapRuns.Inv(h, regions) && size < ULONG_LIMIT && !Heap.Refused(h.chunks, size)
    ensures
      var p := Heap.Pointer(h.chunks, size);
      var taken := HeapRuns.Step(h, HeapRuns.Malloc(size));
      && p != Heap.NULL && HeapRuns.LegalOp(taken, HeapRuns.Free(p))
      && Heap.Pointer(HeapRuns.Step(taken, HeapRuns.Free(p)).chunks, size) == p
  {
    var n := Heap.AllocSize(size);
    var k := Heap.FirstFit(h.chunks, n);
    assert h.chunks[k] in h.chunks && HeapRuns.ChunkOk(h.chunks[k], h.live);
    HeapRuns.MallocKeeps(h, regions, size);
    FirstFitAgain(h.chunks, k, n);
  }

  lemma FirstFitAgain(chunks: seq<Heap.Chunk>, k: nat, n: nat)
    requires k < |chunks| && Heap.FirstFit(chunks, n) == k
    requires Heap.Apart(Heap.Replaced(chunks, k, Heap.Carved(chunks[k], n)))
    ensures
      var freed := Heap.Released(Heap.Replaced(chunks, k, Heap.Carved(chunks[k], n)), chunks[k].addr);
      Heap.FirstFit(freed, n) == k < |freed| && freed[k].addr == chunks[k].addr
  {
    var taken := Heap.Replaced(chunks, k, Heap.Carved(chunks[k], n));
    Heap.ReleasedIs(taken, k);
    var freed := Heap.Released(taken, chunks[k].addr);
    forall j | 0 <= j < k ensures !Heap.Fits(freed[j], n) {
      assert freed[j] == chunks[j];
    }
    Heap.FirstFitIs(freed, n, k);
  }

  // An exception in a block, from its allocation over what the block holds to the end of its handler.
  function Lived(s: State, p: Addr): State
    requires p in s.mem && p != 0
  {
    var ready := Allocated(s, 0, p, s.mem[p]);
    CatchEnded(CatchBegun(Thrown(ready, p), p))
  }

  // Two exceptions of one size, one after the other, with nothing else going on: even if the first
  // block is clean, the second exception gets the same block, finds the count that the first one left
  // there, is never destroyed, and stays on the stack of caught exceptions.
  lemma SecondOfOneSize(h: HeapRuns.HeapState, regions: seq<HeapRuns.Region>, thrownSize: nat, s: State)
    requires HeapRuns.Inv(h, regions) && thrownSize + HEADER_SIZE < ULONG_LIMIT
    requires !Heap.Refused(h.chunks, thrownSize + HEADER_SIZE)
    requires
      var p := Heap.Pointer(h.chunks, thrownSize + HEADER_SIZE);
      p > 0 && p in s.mem && s.mem[p].handlerCount == 0 && !InPool(s.pool, |s.poolUsed|, p)
    requires s.caughtExceptions == 0
    ensures
      var size := thrownSize + HEADER_SIZE;
      var p := Heap.Pointer(h.chunks, size);
      var taken := HeapRuns.Step(h, HeapRuns.Malloc(size));
      var once := Lived(s, p);
      && once.destroyed == s.destroyed + multiset{p} && once.freed == s.freed + multiset{p}
      && HeapRuns.LegalOp(taken, HeapRuns.Free(p))
      && Heap.Pointer(HeapRuns.Step(taken, HeapRuns.Free(p)).chunks, size) == p
      && p in once.mem && Lived(once, p).destroyed == once.destroyed && Lived(once, p).caughtExceptions == p
  {
    MallocAgain(h, regions, thrownSize + HEADER_SIZE);
    var p := Heap.Pointer(h.chunks, thrownSize + HEADER_SIZE);
    assert s.mem[p := s.mem[p]] == s.mem;
    var once := Lived(s, p);
    assert once.mem[p].handlerCount == 1 && once.caughtExceptions == 0;
    assert once.mem[p := once.mem[p]] == once.mem;
  }
}
