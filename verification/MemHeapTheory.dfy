/** Properties of the memory heap's calls, over all heaps and all runs. */
module MemHeapTheory {
  import opened Basics
  import opened Requests
  import opened Tiling
  import opened MemHeapSpec
  import WaitQueue

  // ---- Free starts and free bytes of a spliced layout ----------------------------------------

  lemma StartsConcat(a: seq<Block>, b: seq<Block>)
    ensures FreeStarts(a + b) == FreeStarts(a) + FreeStarts(b)
  {
  }

  lemma StartsCut(bs: seq<Block>, i: nat, lo: nat, hi: nat)
    requires Tiled(bs, lo, hi) && i <= |bs|
    ensures FreeStarts(bs) == FreeStarts(bs[..i]) + FreeStarts(bs[i..])
    ensures FreeStarts(bs[..i]) !! FreeStarts(bs[i..])
  {
    assert bs == bs[..i] + bs[i..];
    StartsConcat(bs[..i], bs[i..]);
    TiledOrdered(bs, lo, hi);
    forall x | x in FreeStarts(bs[..i]) ensures x !in FreeStarts(bs[i..]) {
      var j :| 0 <= j < i && bs[j].start == x;
      forall k | i <= k < |bs| ensures bs[k].start != x {
        assert bs[j].end <= bs[k].start;
      }
    }
  }

  lemma StartsSplice(bs: seq<Block>, i: nat, k: nat, mid: seq<Block>, lo: nat, hi: nat)
    requires Tiled(bs, lo, hi) && i <= k <= |bs|
    ensures FreeStarts(Splice(bs, i, k, mid)) == (FreeStarts(bs) - FreeStarts(bs[i..k])) + FreeStarts(mid)
  {
    hide Tiled, FreeStarts;
    StartsCut(bs, i, lo, hi);
    if i < |bs| {
      TiledCut(bs, i, lo, hi);
      StartsCut(bs[i..], k - i, bs[i].start, hi);
      assert bs[i..][..k - i] == bs[i..k] && bs[i..][k - i..] == bs[k..];
    } else {
      assert bs[i..k] == [] && bs[k..] == [];
      assert FreeStarts([]) == {} by { NoStarts(); }
    }
    StartsConcat(bs[..i], mid);
    StartsConcat(bs[..i] + mid, bs[k..]);
  }

  lemma NoStarts()
    ensures FreeStarts([]) == {}
  {
  }

  lemma {:induction false} FreeBytesConcat(a: seq<Block>, b: seq<Block>)
    ensures FreeBytes(a + b) == FreeBytes(a) + FreeBytes(b)
  {
    if a == [] {
      assert a + b == b;
    } else {
      assert (a + b)[1..] == a[1..] + b;
      FreeBytesConcat(a[1..], b);
    }
  }

  lemma FreeBytesSplice(bs: seq<Block>, i: nat, k: nat, mid: seq<Block>)
    requires i <= k <= |bs|
    ensures FreeBytes(Splice(bs, i, k, mid)) == FreeBytes(bs) - FreeBytes(bs[i..k]) + FreeBytes(mid)
  {
    assert bs == bs[..i] + bs[i..k] + bs[k..];
    FreeBytesConcat(bs[..i] + bs[i..k], bs[k..]);
    FreeBytesConcat(bs[..i], bs[i..k]);
    FreeBytesConcat(bs[..i] + mid, bs[k..]);
    FreeBytesConcat(bs[..i], mid);
  }

  lemma FreeBytesTwo(b: Block, c: Block)
    ensures FreeBytes([b]) == FreeSize(b) && FreeBytes([b, c]) == FreeSize(b) + FreeSize(c)
  {
    assert [b][1..] == [] && [b, c][1..] == [c] && [c][1..] == [];
  }

  /** No free block is larger than all of them together. */
  lemma {:induction false} FitsInAvailable(bs: seq<Block>, i: nat)
    requires (forall b | b in bs :: Sized(b)) && i < |bs| && !bs[i].used
    ensures Payload(bs[i]) <= FreeBytes(bs)
    ensures Payload(bs[i]) == FreeBytes(bs) ==> forall j | 0 <= j < |bs| && j != i && !bs[j].used :: Payload(bs[j]) == 0
  {
    assert bs == bs[..i] + [bs[i]] + bs[i + 1..];
    FreeBytesConcat(bs[..i] + [bs[i]], bs[i + 1..]);
    FreeBytesConcat(bs[..i], [bs[i]]);
    FreeBytesTwo(bs[i], bs[i]);
    NoNegative(bs[..i]);
    NoNegative(bs[i + 1..]);
    forall j | 0 <= j < |bs| && j != i && !bs[j].used && Payload(bs[i]) == FreeBytes(bs) ensures Payload(bs[j]) == 0 {
      if j < i { assert bs[..i][j] == bs[j]; } else { assert bs[i + 1..][j - i - 1] == bs[j]; }
    }
  }

  lemma {:induction false} NoNegative(bs: seq<Block>)
    requires forall b | b in bs :: Sized(b)
    ensures FreeBytes(bs) >= 0
    ensures FreeBytes(bs) == 0 ==> forall b | b in bs && !b.used :: Payload(b) == 0
  {
    if bs != [] {
      NoNegative(bs[1..]);
      assert bs[0] in bs;
    }
  }

  // ---- Replacing a run of blocks -------------------------------------------------------------

  /** The free list after blocks `i` up to `k`, with free starts `gone`, give way to `mid`, with free
      starts `come`: those that go are taken out, the new one, if any, is put in front. */
  lemma ListsSplice(h: Heap, end: nat, i: nat, k: nat, mid: seq<Block>, free: seq<nat>)
    requires WellFormed(h, end) && i <= k <= |h.blocks|
    requires Distinct(free)
    requires WaitQueue.Members(free) == (FreeStarts(h.blocks) - FreeStarts(h.blocks[i..k])) + FreeStarts(mid)
    ensures Lists(free, Splice(h.blocks, i, k, mid))
  {
    StartsSplice(h.blocks, i, k, mid, 0, end);
  }

  /** A well-formed heap with blocks `i` up to `k` replaced by others that fit the gap. */
  lemma SpliceKeeps(h: Heap, end: nat, i: nat, k: nat, mid: seq<Block>, free: seq<nat>)
    requires WellFormed(h, end) && i < k <= |h.blocks| && mid != []
    requires Tiled(mid, h.blocks[i].start, h.blocks[k - 1].end) && Coalesced(mid) && (forall b | b in mid :: Sized(b))
    requires i > 0 ==> h.blocks[i - 1].used || mid[0].used
    requires k < |h.blocks| ==> h.blocks[k].used || mid[|mid| - 1].used
    requires Distinct(free)
    requires WaitQueue.Members(free) == (FreeStarts(h.blocks) - FreeStarts(h.blocks[i..k])) + FreeStarts(mid)
    ensures WellFormed(Heap(Splice(h.blocks, i, k, mid), free), end)
    ensures Live(Splice(h.blocks, i, k, mid)) == (Live(h.blocks) - Live(h.blocks[i..k])) + Live(mid)
    ensures FreeBytes(Splice(h.blocks, i, k, mid)) == FreeBytes(h.blocks) - FreeBytes(h.blocks[i..k]) + FreeBytes(mid)
  {
    hide Tiled, Coalesced, Live, Sized, FreeStarts, FreeBytes;
    var bs := h.blocks;
    TiledSplice(bs, i, k, mid, 0, end);
    LiveSplice(bs, i, k, mid, 0, end);
    CoalescedSplice(bs, i, k, mid);
    FreeBytesSplice(bs, i, k, mid);
    ListsSplice(h, end, i, k, mid, free);
    assert forall b | b in Splice(bs, i, k, mid) :: b in bs || b in mid;
  }

  lemma WithoutList(free: seq<nat>, x: nat)
    requires Distinct(free)
    ensures Distinct(WaitQueue.Without(free, x))
    ensures WaitQueue.Members(WaitQueue.Without(free, x)) == WaitQueue.Members(free) - {x}
  {
    WaitQueue.WithoutDistinct(free, x);
  }

  lemma PushList(free: seq<nat>, x: nat)
    requires Distinct(free) && x !in WaitQueue.Members(free)
    ensures Distinct([x] + free)
    ensures WaitQueue.Members([x] + free) == WaitQueue.Members(free) + {x}
  {
    var r := [x] + free;
    assert forall i | 0 < i < |r| :: r[i] == free[i - 1];
    assert r[0] == x;
  }

  /** Nothing starts strictly inside a block. */
  lemma NoStartInside(bs: seq<Block>, end: nat, i: nat, k: nat, x: nat)
    requires Tiled(bs, 0, end) && i < k <= |bs| && bs[i].start < x < bs[k - 1].end
    requires k == i + 1 || (k == i + 2 && x != bs[i + 1].start)
    ensures x !in FreeStarts(bs)
  {
    TiledOrdered(bs, 0, end);
    forall j | 0 <= j < |bs| ensures bs[j].start != x {
      if j < i { assert bs[j].end <= bs[i].start; }
      if j >= k { assert bs[k - 1].end <= bs[j].start; }
    }
  }

  // ---- Allocation ----------------------------------------------------------------------------

  lemma CarveFacts(b: Block, need: nat)
    requires Sized(b) && !b.used && Payload(b) >= need && need >= MIN && need % ALIGN == 0
    ensures var mid := Carve(b, need);
            && mid != [] && Tiled(mid, b.start, b.end) && Coalesced(mid) && (forall c | c in mid :: Sized(c))
            && mid[0].used && mid[0].start == b.start && Payload(mid[0]) >= need
            && Live(mid) == {mid[0]}
            && FreeStarts(mid) == (if Splits(b, need) then {b.start + HDR + need} else {})
            && FreeBytes(mid) == FreeSize(b) - (if Splits(b, need) then need + HDR else Payload(b))
  {
    var mid := Carve(b, need);
    assert mid[0] in mid;
    if Splits(b, need) {
      FreeBytesTwo(mid[0], mid[1]);
      assert mid[1..] == [mid[1]] && mid[1..][1..] == [];
      assert mid[1] in mid;
    } else {
      FreeBytesTwo(mid[0], mid[0]);
      assert mid[1..] == [];
    }
  }

  lemma OneFree(bs: seq<Block>, i: nat)
    requires i < |bs| && !bs[i].used
    ensures FreeStarts(bs[i..i + 1]) == {bs[i].start} && Live(bs[i..i + 1]) == {}
    ensures FreeBytes(bs[i..i + 1]) == Payload(bs[i]) && bs[i].start in FreeStarts(bs)
  {
    assert bs[i..i + 1] == [bs[i]];
    FreeBytesTwo(bs[i], bs[i]);
    assert bs[i] in bs[i..i + 1] && bs[i] in bs;
  }

  /** Taking a free block adds one used block and lowers the available bytes by what it takes. */
  lemma TakeKeeps(h: Heap, end: nat, i: nat, need: nat)
    requires WellFormed(h, end) && i < |h.blocks| && !h.blocks[i].used && Payload(h.blocks[i]) >= need
    requires need >= MIN && need % ALIGN == 0
    ensures var b := h.blocks[i]; var h' := Take(h, i, need); var own := Carve(b, need)[0];
            && WellFormed(h', end)
            && own.used && own.start == b.start && Payload(own) >= need
            && own !in Live(h.blocks) && Live(h'.blocks) == Live(h.blocks) + {own}
            && FreeBytes(h'.blocks) == FreeBytes(h.blocks) - (if Splits(b, need) then need + HDR else Payload(b))
  {
    hide Tiled, Coalesced, Live, FreeStarts, FreeBytes, Carve, Splice, Lists;
    var bs, b, mid := h.blocks, h.blocks[i], Carve(h.blocks[i], need);
    assert b in bs;
    CarveFacts(b, need);
    OneFree(bs, i);
    NeighboursUsed(bs, i);
    ListOf(h, end);
    WithoutList(h.free, b.start);
    var rest := WaitQueue.Without(h.free, b.start);
    if Splits(b, need) {
      NoStartInside(bs, end, i, i + 1, b.start + HDR + need);
      PushList(rest, b.start + HDR + need);
    }
    SpliceKeeps(h, end, i, i + 1, mid, Take(h, i, need).free);
    NotLive(bs, 0, end, i, mid[0]);
  }

  lemma ListOf(h: Heap, end: nat)
    requires WellFormed(h, end)
    ensures Distinct(h.free) && WaitQueue.Members(h.free) == FreeStarts(h.blocks)
    ensures forall x | x in h.free :: x in FreeStarts(h.blocks)
  {
  }

  /** A start on the free list is that of a free block. */
  lemma Listed(h: Heap, end: nat, x: nat)
    requires WellFormed(h, end) && x in FreeStarts(h.blocks)
    ensures var i := IndexOf(h.blocks, x); i < |h.blocks| && !h.blocks[i].used && h.blocks[i].start == x
    ensures SizeAt(h.blocks, x) == Payload(h.blocks[IndexOf(h.blocks, x)])
  {
    var b :| b in h.blocks && !b.used && b.start == x;
    var i :| 0 <= i < |h.blocks| && h.blocks[i] == b;
    IndexAt(h.blocks, end, i);
  }

  lemma LivePointer(h: Heap, end: nat, b: Block)
    requires Tiled(h.blocks, 0, end) && b in Live(h.blocks)
    ensures IsLive(h, b.start + HDR) && Owner(h, b.start + HDR) == b
  {
    var i :| 0 <= i < |h.blocks| && h.blocks[i] == b;
    IndexAt(h.blocks, end, i);
  }

  /** rt_memheap_alloc fails exactly when the request is not below the available bytes or no free
      block has room; else it takes a free block of enough room, aligned and new. */
  lemma AllocMeaning(h: Heap, end: nat, request: nat)
    requires WellFormed(h, end)
    ensures var (h', p) := Alloc(h, request);
            && WellFormed(h', end)
            && (p.None? <==> Need(request) >= FreeBytes(h.blocks)
                             || forall b | b in h.blocks && !b.used :: Payload(b) < Need(request))
            && (p.None? ==> h' == h)
            && (p.Some? ==>
                  && IsLive(h', p.value) && p.value % ALIGN == 0
                  && Payload(Owner(h', p.value)) >= request
                  && Owner(h', p.value) !in Live(h.blocks)
                  && Live(h'.blocks) == Live(h.blocks) + {Owner(h', p.value)}
                  && FreeBytes(h'.blocks) <= FreeBytes(h.blocks) - Need(request))
  {
    hide Tiled, Coalesced, Live, FreeBytes, Take, Carve, Lists, Need, FreeStarts, WellFormed, Sized, SizeAt, IsLive;
    var need := Need(request);
    var k := FirstFit(h.free, h.blocks, need);
    if need < FreeBytes(h.blocks) {
      ListOf(h, end);
      if k < |h.free| {
        Listed(h, end, h.free[k]);
        var i := IndexOf(h.blocks, h.free[k]);
        TakeKeeps(h, end, i, need);
        TakenOwner(h, end, i, need);
        PayloadAligned(h, end, i);
      } else {
        forall b | b in h.blocks && !b.used ensures Payload(b) < need { FreeBlockListed(h, end, b); }
      }
    }
  }

  lemma PayloadAligned(h: Heap, end: nat, i: nat)
    requires WellFormed(h, end) && i < |h.blocks|
    ensures (h.blocks[i].start + HDR) % ALIGN == 0
  {
    assert Sized(h.blocks[i]);
  }

  lemma FreeBlockListed(h: Heap, end: nat, b: Block)
    requires WellFormed(h, end) && b in h.blocks && !b.used
    ensures b.start in h.free && SizeAt(h.blocks, b.start) == Payload(b)
  {
    assert b.start in FreeStarts(h.blocks);
    assert b.start in WaitQueue.Members(h.free);
    var i :| 0 <= i < |h.blocks| && h.blocks[i] == b;
    IndexAt(h.blocks, end, i);
  }

  lemma TakenOwner(h: Heap, end: nat, i: nat, need: nat)
    requires WellFormed(h, end) && i < |h.blocks| && !h.blocks[i].used && Payload(h.blocks[i]) >= need
    requires need >= MIN && need % ALIGN == 0
    ensures var h' := Take(h, i, need);
            IsLive(h', h.blocks[i].start + HDR) && Owner(h', h.blocks[i].start + HDR) == Carve(h.blocks[i], need)[0]
  {
    hide Coalesced, FreeBytes, Carve, Lists, Tiled, Take;
    TakeKeeps(h, end, i, need);
    LivePointer(Take(h, i, need), end, Carve(h.blocks[i], need)[0]);
  }

  /** When a free block has room and the request is refused all the same, that block is exactly of the
      size of the request, and it is all the free room there is. */
  lemma RefusedThoughItFits(h: Heap, end: nat, request: nat, i: nat)
    requires WellFormed(h, end) && i < |h.blocks| && !h.blocks[i].used && Payload(h.blocks[i]) >= Need(request)
    ensures Alloc(h, request).1.None? <==> Need(request) == Payload(h.blocks[i]) == FreeBytes(h.blocks)
  {
    hide Alloc, Need, FreeBytes;
    AllocMeaning(h, end, request);
    FitsInAvailable(h.blocks, i);
    assert h.blocks[i] in h.blocks;
  }

  // ---- Freeing -------------------------------------------------------------------------------

  lemma RunStarts(bs: seq<Block>, end: nat, lo: nat, i: nat)
    requires Tiled(bs, 0, end) && i < |bs| && bs[i].used && (lo == i || lo == RunStart(bs, i))
    ensures var hi := RunEnd(bs, i);
            && FreeStarts(bs[lo..hi]) == (if lo < i then {bs[lo].start} else {})
                                         + (if hi == i + 2 then {bs[i + 1].start} else {})
            && FreeBytes(bs[lo..hi]) == (if lo < i then Payload(bs[lo]) else 0)
                                        + (if hi == i + 2 then Payload(bs[i + 1]) else 0)
  {
    hide Tiled;
    var hi := RunEnd(bs, i);
    var left := if lo < i then [bs[lo]] else [];
    var right := if hi == i + 2 then [bs[i + 1]] else [];
    assert bs[lo..hi] == left + [bs[i]] + right;
    StartsConcat(left + [bs[i]], right);
    StartsConcat(left, [bs[i]]);
    FreeBytesConcat(left + [bs[i]], right);
    FreeBytesConcat(left, [bs[i]]);
    FreeBytesTwo(bs[lo], bs[i]);
    FreeBytesTwo(bs[hi - 1], bs[i]);
    FreeBytesTwo(bs[i], bs[i]);
    OneStart(bs[lo]);
    OneStart(bs[i]);
    OneStart(bs[hi - 1]);
    NoStarts();
  }

  lemma OneStart(b: Block)
    ensures FreeStarts([b]) == if b.used then {} else {b.start}
  {
    assert b in [b];
  }

  /** The right neighbour leaves the list. */
  lemma DropRightList(h: Heap, end: nat, i: nat)
    requires WellFormed(h, end) && i < |h.blocks| && h.blocks[i].used
    ensures var free := DropRight(h, i);
            && Distinct(free)
            && WaitQueue.Members(free) == FreeStarts(h.blocks)
                                          - (if RunEnd(h.blocks, i) == i + 2 then {h.blocks[i + 1].start} else {})
  {
    ListOf(h, end);
    if RunEnd(h.blocks, i) == i + 2 { WithoutList(h.free, h.blocks[i + 1].start); }
  }

  lemma StartNotFree(bs: seq<Block>, end: nat, i: nat)
    requires Tiled(bs, 0, end) && i < |bs| && bs[i].used
    ensures bs[i].start !in FreeStarts(bs)
  {
    TiledOrdered(bs, 0, end);
    assert forall j | 0 <= j < |bs| && j != i :: bs[j].start != bs[i].start;
  }

  lemma OneBlock(lo: nat, hi: nat)
    requires lo < hi
    ensures Tiled([Block(lo, hi, false)], lo, hi) && Live([Block(lo, hi, false)]) == {} && Coalesced([Block(lo, hi, false)])
    ensures FreeBytes([Block(lo, hi, false)]) == hi - lo - HDR
  {
    assert [Block(lo, hi, false)][1..] == [];
  }

  lemma LeftStays(bs: seq<Block>, end: nat, i: nat)
    requires Tiled(bs, 0, end) && 0 < i < |bs| && !bs[i - 1].used && bs[i].used
    ensures bs[i - 1].start in FreeStarts(bs)
    ensures i + 1 < |bs| ==> bs[i - 1].start != bs[i + 1].start && bs[i].end == bs[i + 1].start
    ensures bs[i - 1].end == bs[i].start
  {
    TiledOrdered(bs, 0, end);
    assert bs[i - 1] in bs;
    assert i + 1 < |bs| ==> bs[i - 1].end <= bs[i + 1].start && bs[i - 1].start < bs[i - 1].end;
  }

  /** Freeing keeps the heap, removes exactly the freed block from the used ones, and gives back its
      payload and the headers of the blocks it merges with. */
  lemma FreeKeeps(h: Heap, end: nat, i: nat)
    requires WellFormed(h, end) && i < |h.blocks| && h.blocks[i].used
    ensures WellFormed(FreeAt(h, i), end)
    ensures Live(FreeAt(h, i).blocks) == Live(h.blocks) - {h.blocks[i]}
    ensures FreeBytes(FreeAt(h, i).blocks) == FreeBytes(h.blocks) + Payload(h.blocks[i])
              + (if RunStart(h.blocks, i) < i then HDR else 0) + (if RunEnd(h.blocks, i) == i + 2 then HDR else 0)
  {
    hide Tiled, Coalesced, Live, FreeStarts, FreeBytes, Lists, DropRight, Splice;
    var bs := h.blocks;
    var lo, hi := RunStart(bs, i), RunEnd(bs, i);
    var one := Block(bs[lo].start, bs[hi - 1].end, false);
    RunBounds(bs, end, lo, i);
    RunStarts(bs, end, lo, i);
    RunAdjoins(bs, end, i);
    OneBlock(one.start, one.end);
    OneStart(one);
    DropRightList(h, end, i);
    StartNotFree(bs, end, i);
    if lo < i { LeftStays(bs, end, i); } else { PushList(DropRight(h, i), bs[i].start); }
    assert bs[lo] in bs && bs[hi - 1] in bs && bs[i] in bs;
    SpliceKeeps(h, end, lo, hi, [one], FreeAt(h, i).free);
  }

  lemma RunAdjoins(bs: seq<Block>, end: nat, i: nat)
    requires Tiled(bs, 0, end) && i < |bs|
    ensures i > 0 ==> bs[i - 1].end == bs[i].start
    ensures i + 1 < |bs| ==> bs[i].end == bs[i + 1].start
    ensures bs[i].start < bs[i].end
  {
    TiledOrdered(bs, 0, end);
  }

  lemma FreeMeaning(h: Heap, end: nat, p: nat)
    requires WellFormed(h, end) && IsLive(h, p)
    ensures WellFormed(Free(h, p), end)
    ensures Live(Free(h, p).blocks) == Live(h.blocks) - {Owner(h, p)}
  {
    FreeKeeps(h, end, IndexOf(h.blocks, p - HDR));
  }

  // ---- Reallocation --------------------------------------------------------------------------

  lemma TwoBlocks(lo: nat, cut: nat, hi: nat)
    requires lo < cut < hi
    ensures var mid := [Block(lo, cut, true), Block(cut, hi, false)];
            && Tiled(mid, lo, hi) && Coalesced(mid) && Live(mid) == {mid[0]}
            && FreeStarts(mid) == {cut} && FreeBytes(mid) == hi - cut - HDR
            && (Sized(mid[0]) && Sized(mid[1]) ==> forall b | b in mid :: Sized(b))
  {
    var mid := [Block(lo, cut, true), Block(cut, hi, false)];
    assert mid[1..] == [mid[1]] && mid[1..][1..] == [];
    assert mid[0] in mid && mid[1] in mid;
    FreeBytesTwo(mid[0], mid[1]);
  }

  /** The place where block `i` is cut is at least a block away from the end of its run. */
  predicate CutFits(h: Heap, i: nat, cut: nat)
    requires i < |h.blocks|
  {
    && cut % ALIGN == 0
    && h.blocks[i].start + HDR <= cut && cut + HDR <= h.blocks[RunEnd(h.blocks, i) - 1].end
    && (RunEnd(h.blocks, i) == i + 2 ==> cut != h.blocks[i + 1].start)
  }

  /** Moving the end of a used block keeps the heap, and changes just that used block. */
  lemma RecutKeeps(h: Heap, end: nat, i: nat, cut: nat)
    requires WellFormed(h, end) && i < |h.blocks| && h.blocks[i].used && CutFits(h, i, cut)
    ensures var h' := Recut(h, i, cut); var own := Block(h.blocks[i].start, cut, true);
            && WellFormed(h', end)
            && Live(h'.blocks) == Live(h.blocks) - {h.blocks[i]} + {own}
            && IsLive(h', own.start + HDR) && Owner(h', own.start + HDR) == own
            && FreeBytes(h'.blocks) == FreeBytes(h.blocks) - (cut - h.blocks[i].end)
                 - (if RunEnd(h.blocks, i) == i + 2 then 0 else HDR)
  {
    hide Tiled, Coalesced, Live, FreeStarts, FreeBytes, Lists, DropRight, Splice, IsLive, Sized;
    var bs := h.blocks;
    var hi := RunEnd(bs, i);
    var mid := [Block(bs[i].start, cut, true), Block(cut, bs[hi - 1].end, false)];
    RunBounds(bs, end, i, i);
    RunStarts(bs, end, i, i);
    RunAdjoins(bs, end, i);
    TwoBlocks(bs[i].start, cut, bs[hi - 1].end);
    CutSized(bs, i, cut);
    DropRightList(h, end, i);
    NoStartInside(bs, end, i, hi, cut);
    PushList(DropRight(h, i), cut);
    SpliceKeeps(h, end, i, hi, mid, Recut(h, i, cut).free);
    LivePointer(Recut(h, i, cut), end, mid[0]);
  }

  lemma CutSized(bs: seq<Block>, i: nat, cut: nat)
    requires i < |bs| && (forall b | b in bs :: Sized(b)) && cut % ALIGN == 0
    requires bs[i].start + HDR <= cut && cut + HDR <= bs[RunEnd(bs, i) - 1].end
    ensures Sized(Block(bs[i].start, cut, true)) && Sized(Block(cut, bs[RunEnd(bs, i) - 1].end, false))
  {
    assert bs[i] in bs && bs[RunEnd(bs, i) - 1] in bs;
  }

  /** Allocating a second block and freeing the first: the first is still live in between. */
  lemma MoveMeaning(h: Heap, end: nat, p: nat, request: nat)
    requires WellFormed(h, end) && IsLive(h, p) && Alloc(h, request).1.Some?
    ensures var (h1, q) := Alloc(h, request);
            && IsLive(h1, p) && Owner(h1, p) == Owner(h, p) && q.value != p
            && var h' := Free(h1, p);
            && WellFormed(h', end) && IsLive(h', q.value) && Payload(Owner(h', q.value)) >= request
            && Live(h'.blocks) == Live(h.blocks) - {Owner(h, p)} + {Owner(h', q.value)}
            && Owner(h', q.value) !in Live(h.blocks)
  {
    hide Tiled, Coalesced, FreeBytes, Alloc, Lists, FreeAt, Need;
    AllocMeaning(h, end, request);
    var (h1, q) := Alloc(h, request);
    LivePointer(h1, end, Owner(h, p));
    FreeMeaning(h1, end, p);
    LivePointer(Free(h1, p), end, Owner(h1, q.value));
  }

  lemma RecutFits(h: Heap, end: nat, i: nat, need: nat)
    requires WellFormed(h, end) && i < |h.blocks| && h.blocks[i].used && need % ALIGN == 0 && need >= MIN
    requires if need > Payload(h.blocks[i]) then CanGrow(h, i, need) else need + HDR + MIN < Payload(h.blocks[i])
    ensures CutFits(h, i, h.blocks[i].start + HDR + need)
  {
    hide Tiled, Coalesced, Lists;
    RunAdjoins(h.blocks, end, i);
    if i + 1 < |h.blocks| { RunAdjoins(h.blocks, end, i + 1); assert h.blocks[i + 1] in h.blocks; }
    assert h.blocks[i] in h.blocks;
    assert need > Payload(h.blocks[i]) ==> need % ALIGN == 0 && Payload(h.blocks[i]) % ALIGN == 0;
  }

  /** rt_memheap_realloc: the block stays and has the room asked for, grown or cut in place where it
      can be, or it moves; every other used block stays, and a failed call changes nothing. */
  lemma ReallocMeaning(h: Heap, end: nat, p: nat, newsize: nat)
    requires WellFormed(h, end) && IsLive(h, p) && newsize > 0
    ensures var (h', q) := Realloc(h, Some(p), newsize);
            && WellFormed(h', end)
            && (q.None? ==> h' == h)
            && (q.Some? ==>
                  && IsLive(h', q.value) && Payload(Owner(h', q.value)) >= newsize
                  && Live(h'.blocks) == Live(h.blocks) - {Owner(h, p)} + {Owner(h', q.value)}
                  && Owner(h', q.value) !in Live(h.blocks) - {Owner(h, p)})
  {
    hide Tiled, Coalesced, FreeBytes, Alloc, Lists, FreeAt, Recut, CutFits, CanGrow, Need;
    var need := Need(newsize);
    var i := IndexOf(h.blocks, p - HDR);
    var size := Payload(h.blocks[i]);
    if need > size && !CanGrow(h, i, need) {
      AllocMeaning(h, end, need);
      if Alloc(h, need).1.Some? { MoveMeaning(h, end, p, need); }
    } else if need > size || need + HDR + MIN < size {
      RecutFits(h, end, i, need);
      RecutKeeps(h, end, i, p + need);
      OwnerNew(h, end, p, p + need);
    }
  }

  /** The block can stay: it has the room, and is cut down or left as it is, or it grows into what is free behind it. */
  predicate Stays(h: Heap, p: nat, need: nat)
    requires IsLive(h, p)
  {
    need <= Payload(Owner(h, p)) || CanGrow(h, IndexOf(h.blocks, p - HDR), need)
  }

  /** rt_memheap_realloc keeps a block where it is exactly when it can stay, and fails exactly when it cannot and the
      request is not below the available bytes or no free block has room. */
  lemma ReallocExactly(h: Heap, end: nat, p: nat, newsize: nat)
    requires WellFormed(h, end) && IsLive(h, p) && newsize > 0
    ensures var need := Need(newsize); var q := Realloc(h, Some(p), newsize).1;
            && (q == Some(p) <==> Stays(h, p, need))
            && (q == None <==> !Stays(h, p, need)
                               && (need >= FreeBytes(h.blocks) || forall b | b in h.blocks && !b.used :: Payload(b) < need))
  {
    hide Tiled, Coalesced, FreeBytes, Alloc, Lists, FreeAt, Recut, CanGrow, Need;
    var need := Need(newsize);
    if !Stays(h, p, need) {
      NeedAgain(newsize);
      AllocMeaning(h, end, need);
      if Alloc(h, need).1.Some? { MoveMeaning(h, end, p, need); }
    }
  }

  lemma NeedAgain(n: nat)
    ensures Need(Need(n)) == Need(n)
  {
  }

  lemma OwnerNew(h: Heap, end: nat, p: nat, cut: nat)
    requires WellFormed(h, end) && IsLive(h, p)
    ensures Block(p - HDR, cut, true) !in Live(h.blocks) - {Owner(h, p)}
  {
    if Block(p - HDR, cut, true) in Live(h.blocks) {
      LivePointer(h, end, Block(p - HDR, cut, true));
    }
  }

  // ---- Sizes -----------------------------------------------------------------------------------

  /** The granted block is cut from a free one at the same place: to the size asked for if a block can be left behind it,
      else it is taken whole. */
  lemma AllocSize(h: Heap, end: nat, request: nat) returns (i: nat)
    requires WellFormed(h, end) && Alloc(h, request).1.Some?
    ensures var (h', p) := Alloc(h, request); var need := Need(request);
            && i < |h.blocks| && !h.blocks[i].used && h.blocks[i].start + HDR == p.value && IsLive(h', p.value)
            && var room := h.blocks[i].end - h.blocks[i].start - HDR;
               Payload(Owner(h', p.value)) == if room >= need + HDR + MIN then need else room
  {
    hide Tiled, Coalesced, FreeBytes, Take, Lists, FreeStarts, WellFormed, Sized;
    var need := Need(request);
    var k := FirstFit(h.free, h.blocks, need);
    ListOf(h, end);
    Listed(h, end, h.free[k]);
    i := IndexOf(h.blocks, h.free[k]);
    TakenOwner(h, end, i, need);
  }

  /** A block that stays has the size asked for if it grew or was cut, and less than a block more if it was left alone;
      so has one that moved. */
  lemma ReallocSize(h: Heap, end: nat, p: nat, newsize: nat)
    requires WellFormed(h, end) && IsLive(h, p) && newsize > 0 && Realloc(h, Some(p), newsize).1.Some?
    ensures var (h', q) := Realloc(h, Some(p), newsize); var need := Need(newsize); var size := Payload(Owner(h, p));
            && IsLive(h', q.value)
            && (q == Some(p) ==> Payload(Owner(h', p)) == if need <= size <= need + HDR + MIN then size else need)
            && need <= Payload(Owner(h', q.value)) <= need + HDR + MIN
  {
    hide Tiled, Coalesced, FreeBytes, Alloc, Lists, FreeAt, Recut, CutFits, CanGrow, Need;
    var need := Need(newsize);
    NeedAgain(newsize);
    var i := IndexOf(h.blocks, p - HDR);
    var size := Payload(h.blocks[i]);
    if need > size && !CanGrow(h, i, need) {
      AllocMeaning(h, end, need);
      if Alloc(h, need).1.Some? {
        MoveMeaning(h, end, p, need);
        var j := AllocSize(h, end, need);
        MovedSize(h, end, p, need);
      }
    } else if need > size || need + HDR + MIN < size {
      RecutFits(h, end, i, need);
      RecutKeeps(h, end, i, p + need);
    }
  }

  lemma MovedSize(h: Heap, end: nat, p: nat, request: nat)
    requires WellFormed(h, end) && IsLive(h, p) && Alloc(h, request).1.Some?
    ensures var (h1, q) := Alloc(h, request);
            && IsLive(h1, p) && IsLive(h1, q.value) && IsLive(Free(h1, p), q.value)
            && Owner(Free(h1, p), q.value) == Owner(h1, q.value)
  {
    hide Tiled, Coalesced, FreeBytes, Alloc, Lists, FreeAt;
    AllocMeaning(h, end, request);
    MoveMeaning(h, end, p, request);
    var (h1, q) := Alloc(h, request);
    FreeMeaning(h1, end, p);
    LivePointer(Free(h1, p), end, Owner(h1, q.value));
  }

  // ---- Undoing, and all runs -------------------------------------------------------------------

  /** Freeing what was just allocated restores the blocks and the available bytes. Of the free list it
      restores the set; the freed block itself is then in front. */
  lemma FreeUndoesAlloc(h: Heap, end: nat, request: nat)
    requires WellFormed(h, end) && Alloc(h, request).1.Some?
    ensures var (h', p) := Alloc(h, request);
            && IsLive(h', p.value)
            && Free(h', p.value).blocks == h.blocks
            && WaitQueue.Members(Free(h', p.value).free) == WaitQueue.Members(h.free)
  {
    hide Alloc, Free, FreeBytes, FreeStarts;
    AllocMeaning(h, end, request);
    var (h', p) := Alloc(h, request);
    FreeMeaning(h', end, p.value);
    Canonical(Free(h', p.value).blocks, h.blocks, 0, end);
    ListOf(h, end);
    ListOf(Free(h', p.value), end);
  }

  /** A freed block that is not merged to the left is the first one searched: the next request it has room for gets it. */
  lemma ReusesFreed(h: Heap, end: nat, p: nat, request: nat)
    requires WellFormed(h, end) && IsLive(h, p) && Need(request) <= Payload(Owner(h, p))
    requires var i := IndexOf(h.blocks, p - HDR); i > 0 ==> h.blocks[i - 1].used
    requires Need(request) < FreeBytes(Free(h, p).blocks)
    ensures Alloc(Free(h, p), request).1 == Some(p)
  {
    hide Need, FreeBytes, WellFormed, Free, Take;
    FreedFirst(h, end, p);
    var f := Free(h, p);
    assert FirstFit(f.free, f.blocks, Need(request)) == 0;
  }

  lemma FreedFirst(h: Heap, end: nat, p: nat)
    requires WellFormed(h, end) && IsLive(h, p)
    requires var i := IndexOf(h.blocks, p - HDR); i > 0 ==> h.blocks[i - 1].used
    ensures var f := Free(h, p); var i := IndexOf(f.blocks, p - HDR);
            && f.free != [] && f.free[0] == p - HDR && i < |f.blocks| && f.blocks[i].start == p - HDR
            && Payload(f.blocks[i]) >= Payload(Owner(h, p)) && SizeAt(f.blocks, p - HDR) == Payload(f.blocks[i])
  {
    hide FreeBytes, Coalesced, Lists, Tiled, DropRight;
    var i, f := IndexOf(h.blocks, p - HDR), Free(h, p);
    FreeMeaning(h, end, p);
    RunBounds(h.blocks, end, i, i);
    var hi := RunEnd(h.blocks, i);
    var one := Block(h.blocks[i].start, h.blocks[hi - 1].end, false);
    assert f.blocks == Splice(h.blocks, i, hi, [one]);
    assert f.blocks == h.blocks[..i] + [one] + h.blocks[hi..];
    assert f.blocks[i] == one;
    IndexAt(f.blocks, end, i);
  }

  datatype Call = AllocCall(request: nat) | FreeCall(p: nat) | ReallocCall(ptr: Option<nat>, newsize: nat)

  predicate Allowed(h: Heap, c: Call) {
    match c
    case AllocCall(_) => true
    case FreeCall(p) => IsLive(h, p)
    case ReallocCall(ptr, _) => ptr.Some? ==> IsLive(h, ptr.value)
  }

  function Apply(h: Heap, c: Call): Heap
    requires Allowed(h, c)
  {
    match c
    case AllocCall(request) => Alloc(h, request).0
    case FreeCall(p) => Free(h, p)
    case ReallocCall(ptr, newsize) => Realloc(h, ptr, newsize).0
  }

  lemma ApplyKeeps(h: Heap, end: nat, c: Call)
    requires WellFormed(h, end) && Allowed(h, c)
    ensures WellFormed(Apply(h, c), end)
  {
    hide Alloc, Free, FreeBytes, FreeStarts, IsLive, WellFormed;
    match c
    case AllocCall(request) => AllocMeaning(h, end, request);
    case FreeCall(p) => FreeMeaning(h, end, p);
    case ReallocCall(ptr, newsize) =>
      if newsize == 0 {
        if ptr.Some? { FreeMeaning(h, end, ptr.value); }
      } else if ptr.Some? {
        ReallocMeaning(h, end, ptr.value, newsize);
      } else {
        AllocMeaning(h, end, Need(newsize));
      }
  }

  ghost predicate Run(hs: seq<Heap>, calls: seq<Call>) {
    && |hs| == |calls| + 1
    && (forall k | 0 <= k < |calls| :: Allowed(hs[k], calls[k]) && hs[k + 1] == Apply(hs[k], calls[k]))
  }

  /** The heap right after rt_memheap_init. */
  function Fresh(end: nat): Heap {
    Heap([Block(0, end, false)], [0])
  }

  lemma FreshWellFormed(end: nat)
    requires end % ALIGN == 0 && end >= HDR
    ensures WellFormed(Fresh(end), end) && Live(Fresh(end).blocks) == {}
    ensures FreeBytes(Fresh(end).blocks) == end - HDR
  {
    var bs := Fresh(end).blocks;
    assert bs[1..] == [];
    OneStart(bs[0]);
    assert 0 in Fresh(end).free;
  }

  lemma {:induction false} RunKeeps(hs: seq<Heap>, end: nat, calls: seq<Call>)
    requires Run(hs, calls) && WellFormed(hs[0], end)
    ensures WellFormed(hs[|calls|], end)
  {
    hide WellFormed, Apply, Allowed;
    if calls != [] {
      var n := |calls| - 1;
      RunKeeps(hs[..n + 1], end, calls[..n]);
      ApplyKeeps(hs[n], end, calls[n]);
    }
  }

  /** The blocks depend only on what is in use now; once everything is freed, the heap is fresh again. */
  lemma HistoryIndependent(s: seq<Heap>, t: seq<Heap>, end: nat, sCalls: seq<Call>, tCalls: seq<Call>)
    requires end % ALIGN == 0 && end >= HDR
    requires Run(s, sCalls) && s[0] == Fresh(end) && Run(t, tCalls) && t[0] == Fresh(end)
    ensures Live(s[|sCalls|].blocks) == Live(t[|tCalls|].blocks) ==> s[|sCalls|].blocks == t[|tCalls|].blocks
    ensures Live(s[|sCalls|].blocks) == {} ==> s[|sCalls|].blocks == Fresh(end).blocks
  {
    hide Apply, FreeStarts;
    FreshWellFormed(end);
    RunKeeps(s, end, sCalls);
    RunKeeps(t, end, tCalls);
    if Live(s[|sCalls|].blocks) == Live(t[|tCalls|].blocks) {
      Canonical(s[|sCalls|].blocks, t[|tCalls|].blocks, 0, end);
    }
    if Live(s[|sCalls|].blocks) == {} {
      Canonical(s[|sCalls|].blocks, Fresh(end).blocks, 0, end);
    }
  }

  /** A fresh heap refuses a request for all the room it has, and grants one word less. */
  lemma AllOfAFreshHeap(end: nat)
    requires end % ALIGN == 0 && end >= HDR + MIN + ALIGN
    ensures Alloc(Fresh(end), end - HDR).1 == None
    ensures Alloc(Fresh(end), end - HDR - ALIGN).1.Some?
  {
    hide Alloc, FreeBytes;
    FreshWellFormed(end);
    AllocMeaning(Fresh(end), end, end - HDR);
    AllocMeaning(Fresh(end), end, end - HDR - ALIGN);
    assert Fresh(end).blocks[0] in Fresh(end).blocks;
  }
}
