/**
  What the memory heap (memheap.c) does to its blocks and its free list, for a 32-bit target: 24-byte
  item headers, 4-byte alignment, 12 bytes as the least request.
*/
module MemHeapSpec {
  import opened Basics
  import opened Requests
  import opened Tiling
  import WaitQueue

  const HDR: nat := 24

  /** The blocks in address order, and the free ones, by their start, in the order they are searched. */
  datatype Heap = Heap(blocks: seq<Block>, free: seq<nat>)

  /** MEMITEM_SIZE. */
  function Payload(b: Block): int {
    b.end - b.start - HDR
  }

  predicate Sized(b: Block) {
    b.start % ALIGN == 0 && b.end % ALIGN == 0 && Payload(b) >= 0
  }

  function FreeSize(b: Block): int {
    if b.used then 0 else Payload(b)
  }

  /** The payload bytes of all free blocks. */
  function FreeBytes(bs: seq<Block>): int {
    if bs == [] then 0 else FreeSize(bs[0]) + FreeBytes(bs[1..])
  }

  /** Where the free blocks start. */
  ghost function FreeStarts(bs: seq<Block>): set<nat> {
    set b | b in bs && !b.used :: b.start
  }

  /** The free list names every free block, once. */
  ghost predicate Lists(free: seq<nat>, bs: seq<Block>) {
    Distinct(free) && WaitQueue.Members(free) == FreeStarts(bs)
  }

  ghost predicate WellFormed(h: Heap, end: nat) {
    && Tiled(h.blocks, 0, end) && Coalesced(h.blocks) && (forall b | b in h.blocks :: Sized(b))
    && Lists(h.free, h.blocks)
  }

  /** The payload size of the block that starts at `x`, or nothing when there is none. */
  function SizeAt(bs: seq<Block>, x: nat): int {
    var i := IndexOf(bs, x);
    if i < |bs| then Payload(bs[i]) else -1
  }

  /** The first block of the free list with room for `need` bytes, or the length of the list. */
  function FirstFit(free: seq<nat>, bs: seq<Block>, need: nat): (i: nat)
    ensures i <= |free|
    ensures i < |free| ==> SizeAt(bs, free[i]) >= need
    ensures forall j | 0 <= j < i :: SizeAt(bs, free[j]) < need
  {
    if free == [] || SizeAt(bs, free[0]) >= need then 0
    else
      var i := FirstFit(free[1..], bs, need);
      assert forall j | 0 < j < i + 1 :: free[j] == free[1..][j - 1];
      i + 1
  }

  predicate Splits(b: Block, need: nat) {
    Payload(b) >= need + HDR + MIN
  }

  function Carve(b: Block, need: nat): (c: seq<Block>)
    ensures c != [] && c[0].used && c[0].start == b.start
  {
    if Splits(b, need)
    then [Block(b.start, b.start + HDR + need, true), Block(b.start + HDR + need, b.end, false)]
    else [b.(used := true)]
  }

  /** Block `i` of the layout, on the free list, is taken for `need` bytes. */
  function Take(h: Heap, i: nat, need: nat): Heap
    requires i < |h.blocks|
  {
    var b := h.blocks[i];
    var rest := WaitQueue.Without(h.free, b.start);
    Heap(Splice(h.blocks, i, i + 1, Carve(b, need)),
         if Splits(b, need) then [b.start + HDR + need] + rest else rest)
  }

  /** rt_memheap_alloc. */
  function Alloc(h: Heap, request: nat): (Heap, Option<nat>) {
    var need := Need(request);
    if need >= FreeBytes(h.blocks) then (h, None)
    else
      var k := FirstFit(h.free, h.blocks, need);
      if k == |h.free| then (h, None)
      else
        var i := IndexOf(h.blocks, h.free[k]);
        if i < |h.blocks| then (Take(h, i, need), Some(h.blocks[i].start + HDR)) else (h, None)
  }

  predicate IsLive(h: Heap, p: nat) {
    p >= HDR && IndexOf(h.blocks, p - HDR) < |h.blocks| && h.blocks[IndexOf(h.blocks, p - HDR)].used
  }

  function Owner(h: Heap, p: nat): (b: Block)
    requires IsLive(h, p)
    ensures b.used && b in h.blocks && b.start + HDR == p
  {
    h.blocks[IndexOf(h.blocks, p - HDR)]
  }

  /** The free list without the right neighbour of block `i`, if that is free. */
  function DropRight(h: Heap, i: nat): seq<nat>
    requires i < |h.blocks|
  {
    if RunEnd(h.blocks, i) == i + 2 then WaitQueue.Without(h.free, h.blocks[i + 1].start) else h.free
  }

  /** rt_memheap_free: a block that is merged to the left keeps that block's place on the list. */
  function FreeAt(h: Heap, i: nat): Heap
    requires i < |h.blocks|
  {
    Heap(FreeLayout(h.blocks, i),
         if RunStart(h.blocks, i) < i then DropRight(h, i) else [h.blocks[i].start] + DropRight(h, i))
  }

  function Free(h: Heap, p: nat): Heap
    requires IsLive(h, p)
  {
    FreeAt(h, IndexOf(h.blocks, p - HDR))
  }

  /** Block `i` comes to end at `cut`; what is behind it, up to the next used block, becomes one free block. */
  function Recut(h: Heap, i: nat, cut: nat): Heap
    requires i < |h.blocks|
  {
    var b, hi := h.blocks[i], RunEnd(h.blocks, i);
    Heap(Splice(h.blocks, i, hi, [Block(b.start, cut, true), Block(cut, h.blocks[hi - 1].end, false)]),
         [cut] + DropRight(h, i))
  }

  /** Block `i` can grow to `need` bytes into a free right neighbour that stays a block. */
  predicate CanGrow(h: Heap, i: nat, need: nat)
    requires i < |h.blocks|
  {
    && RunEnd(h.blocks, i) == i + 2
    && Payload(h.blocks[i + 1]) + Payload(h.blocks[i]) > need + MIN
  }

  /** rt_memheap_realloc. */
  function Realloc(h: Heap, p: Option<nat>, newsize: nat): (Heap, Option<nat>)
    requires p.Some? ==> IsLive(h, p.value)
  {
    if newsize == 0 then (if p.Some? then Free(h, p.value) else h, None)
    else
      var need := Need(newsize);
      if p.None? then Alloc(h, need)
      else
        var i := IndexOf(h.blocks, p.value - HDR);
        var size := Payload(h.blocks[i]);
        if need > size then
          if CanGrow(h, i, need) then (Recut(h, i, p.value + need), p)
          else
            var (h', q) := Alloc(h, need);
            if q.Some? && IsLive(h', p.value) then (Free(h', p.value), q) else (h', q)
        else if need + HDR + MIN >= size then (h, p)
        else (Recut(h, i, p.value + need), p)
  }
}
