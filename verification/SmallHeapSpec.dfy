/**
  What the small-memory allocator (mem.c) does to the layout of its heap, for a 32-bit target:
  4-byte alignment, 12-byte item headers in front of every block, 12 bytes as the least request.
*/
module SmallHeapSpec {
  import opened Basics
  import opened Requests
  import opened Tiling

  const HDR: nat := 12

  predicate Sized(b: Block) {
    b.start % ALIGN == 0 && b.end % ALIGN == 0 && b.start + HDR <= b.end
  }

  /** The blocks tile the heap up to the end stub, aligned and with room for an item. */
  ghost predicate Placed(bs: seq<Block>, end: nat) {
    Tiled(bs, 0, end) && forall b | b in bs :: Sized(b)
  }

  ghost predicate WellFormed(bs: seq<Block>, end: nat) {
    Placed(bs, end) && Coalesced(bs)
  }

  predicate Fits(b: Block, need: nat) {
    !b.used && b.start + HDR + need <= b.end
  }

  /** The lowest block that fits, or the length when none does. */
  function FirstFit(bs: seq<Block>, need: nat): (i: nat)
    ensures i <= |bs|
    ensures i < |bs| ==> Fits(bs[i], need)
    ensures forall j | 0 <= j < i :: !Fits(bs[j], need)
  {
    if bs == [] || Fits(bs[0], need) then 0
    else
      var i := FirstFit(bs[1..], need);
      assert forall j | 0 < j < i + 1 :: bs[j] == bs[1..][j - 1];
      i + 1
  }

  /** The lowest free block, or the length when all are used. */
  function FirstFree(bs: seq<Block>): (i: nat)
    ensures i <= |bs|
    ensures i < |bs| ==> !bs[i].used
    ensures forall j | 0 <= j < i :: bs[j].used
  {
    if bs == [] || !bs[0].used then 0
    else
      var i := FirstFree(bs[1..]);
      assert forall j | 0 < j < i + 1 :: bs[j] == bs[1..][j - 1];
      i + 1
  }

  /** Where block `i` starts; for the end of the list, where the end stub is. */
  function StartOf(bs: seq<Block>, i: nat, end: nat): nat {
    if i < |bs| then bs[i].start else end
  }

  function UsedSize(b: Block): int {
    if b.used then b.end - b.start else 0
  }

  /** The bytes in used blocks, headers included. */
  function UsedBytes(bs: seq<Block>): int {
    if bs == [] then 0 else UsedSize(bs[0]) + UsedBytes(bs[1..])
  }

  /** A free block, after `need` bytes of it are taken into use; the rest stays free if it can hold a block. */
  function Carve(b: Block, need: nat): (c: seq<Block>)
    ensures c != [] && c[0].used && c[0].start == b.start
  {
    if b.end >= b.start + HDR + need + HDR + MIN
    then [Block(b.start, b.start + HDR + need, true), Block(b.start + HDR + need, b.end, false)]
    else [b.(used := true)]
  }

  function AllocLayout(bs: seq<Block>, need: nat): seq<Block> {
    var i := FirstFit(bs, need);
    if i == |bs| then bs else Splice(bs, i, i + 1, Carve(bs[i], need))
  }

  /** Used block `i` keeps `size` bytes of payload; the rest becomes free and one with a free right neighbour. */
  function ShrinkLayout(bs: seq<Block>, i: nat, size: nat): seq<Block>
    requires i < |bs|
  {
    var hi := RunEnd(bs, i);
    var cut := bs[i].start + HDR + size;
    Splice(bs, i, hi, [Block(bs[i].start, cut, true), Block(cut, bs[hi - 1].end, false)])
  }

  /** plug_holes, forward: free block `i` is merged with a free right neighbour. */
  function PlugRight(bs: seq<Block>, i: nat): seq<Block>
    requires i < |bs|
  {
    if i + 1 < |bs| && !bs[i + 1].used then Join(bs, i) else bs
  }

  /** plug_holes, backward: free block `i` is merged with a free left neighbour. */
  function PlugLeft(bs: seq<Block>, i: nat): seq<Block>
    requires i < |bs|
  {
    if i > 0 && !bs[i - 1].used then Join(bs, i - 1) else bs
  }

  // ---- The three calls -------------------------------------------------------------------

  /** rt_smem_alloc: the new layout, and the offset of the payload or nothing. */
  function Alloc(bs: seq<Block>, capacity: nat, request: nat): (seq<Block>, Option<nat>) {
    if request == 0 || Align(request) > capacity then (bs, None)
    else
      var i := FirstFit(bs, Need(request));
      (AllocLayout(bs, Need(request)), if i == |bs| then None else Some(bs[i].start + HDR))
  }

  /** `p` is the payload of a used block. */
  predicate IsLive(bs: seq<Block>, p: nat) {
    p >= HDR && IndexOf(bs, p - HDR) < |bs| && bs[IndexOf(bs, p - HDR)].used
  }

  /** rt_smem_free of a live payload. */
  function Free(bs: seq<Block>, p: nat): seq<Block>
    requires IsLive(bs, p)
  {
    FreeLayout(bs, IndexOf(bs, p - HDR))
  }

  /** The payload size of the block whose payload is at `p`. */
  function PayloadSize(bs: seq<Block>, p: nat): int
    requires IsLive(bs, p)
  {
    bs[IndexOf(bs, p - HDR)].end - p
  }

  /** rt_smem_realloc: shrinks in place when a block can be split off, else moves. */
  function Realloc(bs: seq<Block>, capacity: nat, p: Option<nat>, newsize: nat): (seq<Block>, Option<nat>)
    requires p.Some? ==> IsLive(bs, p.value)
  {
    var size := Align(newsize);
    if size > capacity then (bs, None)
    else if size == 0 then (if p.Some? then Free(bs, p.value) else bs, None)
    else if p.None? then Alloc(bs, capacity, size)
    else if PayloadSize(bs, p.value) == size then (bs, p)
    else if size + HDR + MIN < PayloadSize(bs, p.value) then
      (ShrinkLayout(bs, IndexOf(bs, p.value - HDR), size), p)
    else
      var (bs', q) := Alloc(bs, capacity, size);
      if q.Some? && IsLive(bs', p.value) then (Free(bs', p.value), q) else (bs', q)
  }
}
