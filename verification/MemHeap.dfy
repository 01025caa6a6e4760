/** The memory heap (memheap.c), working on its linked items. */
module MemHeap {
  import opened Basics
  import opened Requests
  import opened Tiling
  import opened Rings
  import opened MemHeapSpec
  import opened MemHeapTheory
  import opened MemHeapLinks
  import WaitQueue

  class MemHeap {
    const poolSize: nat
    var next: Links                // the fields of the items, by the items' addresses
    var prev: Links
    var nextFree: Links
    var prevFree: Links
    var used: map<Addr, bool>      // RT_MEMHEAP_IS_USED
    var available: int             // available_size
    var maxUsed: int               // max_used_size
    ghost var blocks: seq<Block>
    ghost var free: seq<nat>

    /** The tail, a used item of no size. */
    ghost function End(): nat
      requires poolSize >= 2 * HDR
    {
      poolSize - HDR
    }

    /** The items are linked in address order, and the free ones among each other. */
    ghost predicate Linked()
      reads this
    {
      && poolSize >= 2 * HDR
      && Tiled(blocks, 0, End()) && Marks(used, blocks, End())
      && Ring(next, prev, Items(blocks, End()))
      && Ring(nextFree, prevFree, FreeItems(free))
    }

    ghost function Value(): Heap
      reads this
    {
      Heap(blocks, free)
    }

    ghost predicate Valid()
      reads this
    {
      && Linked() && WellFormed(Value(), End())
      && available == FreeBytes(blocks) && poolSize - available <= maxUsed
    }

    /** rt_memheap_init. */
    constructor (size: nat)
      requires size / ALIGN * ALIGN >= 2 * HDR
      ensures Valid() && poolSize == size / ALIGN * ALIGN && Value() == Fresh(poolSize - HDR) && maxUsed == 2 * HDR
    {
      var whole := size / ALIGN * ALIGN;
      var end := whole - HDR;
      poolSize, available, maxUsed := whole, whole - 2 * HDR, 2 * HDR;
      nextFree, prevFree := map[FREE := 0, 0 := FREE], map[FREE := 0, 0 := FREE];
      next, prev := map[0 := end, end := 0], map[0 := end, end := 0];
      used := map[0 := false, end := true];
      blocks, free := [Block(0, end, false)], [0];
      new;
      FreshWellFormed(End());
      assert Items(blocks, End()) == [0, End()];
    }

    /** The link writes that cut the item at `header` in two; the new item is marked free. */
    method SplitAt(ghost i: nat, header: Addr, cut: nat)
      requires Linked() && i < |blocks| && header == blocks[i].start && blocks[i].start < cut < blocks[i].end
      modifies this`next, this`prev, this`used, this`blocks
      ensures Linked() && blocks == Split(old(blocks), i, cut)
    {
      hide Tiled, Ring, Split, Items, FreeItems, Marks;
      ItemsFacts(next, prev, blocks, End(), i);
      SplitItems(blocks, End(), i, cut);
      MarksSplit(used, blocks, End(), i, cut);
      NotAnItem(blocks, End(), i, cut);
      RingInsert(next, prev, Items(blocks, End()), i, cut);
      NextIsItem(next, prev, blocks, End(), i);
      used := used[cut := false];
      prev := prev[cut := header];
      next := next[cut := next[header]];
      prev := prev[next[header] := cut];
      next := next[header := cut];
      assert next == InsertNext(old(next), header, cut) && prev == InsertPrev(old(next), old(prev), header, cut);
      blocks := Split(blocks, i, cut);
    }

    /** The link writes that make the item at `header` swallow the one behind it. */
    method JoinNext(ghost i: nat, header: Addr)
      requires Linked() && i + 1 < |blocks| && header == blocks[i].start
      modifies this`next, this`prev, this`blocks
      ensures Linked() && blocks == Join(old(blocks), i)
    {
      hide Tiled, Ring, Join, Items, FreeItems, Marks;
      ItemsFacts(next, prev, blocks, End(), i);
      ItemsFacts(next, prev, blocks, End(), i + 1);
      JoinItems(blocks, End(), i);
      MarksJoin(used, blocks, End(), i);
      RingRemove(next, prev, Items(blocks, End()), i + 1);
      var behind := next[header];
      prev := prev[next[behind] := header];
      next := next[header := next[behind]];
      assert next == RemoveNext(old(next), old(prev), behind) && prev == RemovePrev(old(next), old(prev), behind);
      blocks := Join(blocks, i);
    }

    method SetUsed(ghost i: nat, header: Addr, u: bool)
      requires Linked() && i < |blocks| && header == blocks[i].start
      modifies this`used, this`blocks
      ensures Linked() && blocks == Mark(old(blocks), i, u)
    {
      hide Tiled, Ring, Mark, Items, FreeItems, Marks;
      MarkItems(blocks, End(), i, u);
      MarksMark(used, blocks, End(), i, u);
      used := used[header := u];
      blocks := Mark(blocks, i, u);
    }

    /** The item at `x` leaves the free list. */
    method Unlink(x: nat)
      requires Linked() && x in free
      modifies this`nextFree, this`prevFree, this`free
      ensures Linked() && free == WaitQueue.Without(old(free), x)
    {
      hide Tiled, Ring, Items, FreeItems, Marks, RemoveNext, RemovePrev;
      DropRing(nextFree, prevFree, free, x);
      Neighbours(nextFree, prevFree, free, x);
      prevFree := prevFree[nextFree[x] := prevFree[x]];
      nextFree := nextFree[prevFree[x] := nextFree[x]];
      free := WaitQueue.Without(free, x);
    }

    /** The item at `x` becomes the first of the free list. */
    method Push(x: nat)
      requires Linked() && x !in free
      modifies this`nextFree, this`prevFree, this`free
      ensures Linked() && free == [x] + old(free)
    {
      hide Tiled, Ring, Items, FreeItems, Marks;
      PushRing(nextFree, prevFree, free, x);
      FreeFirst(nextFree, prevFree, free);
      nextFree := nextFree[x := nextFree[FREE]];
      prevFree := prevFree[x := FREE];
      prevFree := prevFree[nextFree[FREE] := x];
      nextFree := nextFree[FREE := x];
      assert nextFree == InsertNext(old(nextFree), FREE, x);
      assert prevFree == InsertPrev(old(nextFree), old(prevFree), FREE, x) by {
        assert x != old(nextFree)[FREE];
      }
      free := [x] + free;
    }

    /** The most bytes ever used, once `free` of them are available. */
    function High(most: int, free: int): (high: int)
      ensures high >= most && high >= poolSize - free
    {
      if poolSize - free > most then poolSize - free else most
    }

    method NoteMax()
      modifies this`maxUsed
      ensures maxUsed == High(old(maxUsed), available)
    {
      if poolSize - available > maxUsed { maxUsed := poolSize - available; }
    }

    /** rt_memheap_alloc, once the free item at `header` is chosen. */
    method Take(ghost i: nat, header: nat, size: nat)
      requires Valid() && i < |blocks| && !blocks[i].used && header == blocks[i].start
      requires Payload(blocks[i]) >= size && size >= MIN && size % ALIGN == 0
      modifies this
      ensures Valid() && Value() == MemHeapSpec.Take(old(Value()), i, size)
      ensures maxUsed == High(old(maxUsed), available)
    {
      hide Tiled, Coalesced, Ring, Items, FreeItems, Marks, FreeBytes, Lists, MemHeapSpec.Take, Live, Sized;
      ghost var h := Value();
      ItemsFacts(next, prev, blocks, End(), i);
      TakeKeeps(h, End(), i, size);
      TakeSteps(h, End(), i, size);
      var freeSize := next[header] - header - HDR;
      if freeSize >= size + HDR + MIN {
        var cut := header + size + HDR;
        SplitAt(i, header, cut);
        Unlink(header);
        Push(cut);
        available := available - size - HDR;
      } else {
        available := available - freeSize;
        Unlink(header);
      }
      NoteMax();
      SetUsed(i, header, true);
    }

    /** rt_memheap_alloc. */
    method Alloc(request: nat) returns (p: Option<nat>)
      requires Valid()
      modifies this
      ensures Valid() && (Value(), p) == MemHeapSpec.Alloc(old(Value()), request)
      ensures maxUsed == High(old(maxUsed), available)
    {
      hide Tiled, Coalesced, Ring, Items, FreeItems, Marks, FreeBytes, Lists, MemHeapSpec.Take, SizeAt;
      var size := Align(request);
      if size < MIN { size := MIN; }
      if size >= available { return None; }
      ghost var h := Value();
      FreeFirst(nextFree, prevFree, free);
      var freeSize := 0;
      var header := nextFree[FREE];
      ghost var k := 0;
      while header != FREE && freeSize < size
        invariant Valid() && unchanged(this)
        invariant k <= |free| && header == if k < |free| then free[k] else FREE
        invariant forall j | 0 <= j < k :: SizeAt(blocks, free[j]) < size
        invariant freeSize < size || (k < |free| && freeSize == SizeAt(blocks, free[k]))
        decreases |free| - k, size - freeSize
      {
        FreeItem(Value(), End(), next, prev, k);
        FreeNext(nextFree, prevFree, free, k);
        freeSize := next[header] - header - HDR;
        if freeSize < size {
          header := nextFree[header];
          k := k + 1;
        }
      }
      FitIs(h, size, k);
      if freeSize >= size {
        FreeItem(h, End(), next, prev, k);
        Take(IndexOf(blocks, free[k]), header, size);
        return Some(header + HDR);
      }
      return None;
    }

    /** The item at `header` swallows the free item behind it, which leaves the free list. */
    method Absorb(ghost i: nat, header: Addr)
      requires Linked() && i + 1 < |blocks| && header == blocks[i].start && blocks[i + 1].start in free
      modifies this`next, this`prev, this`nextFree, this`prevFree, this`blocks, this`free
      ensures Linked() && blocks == Join(old(blocks), i)
      ensures free == WaitQueue.Without(old(free), old(blocks[i + 1].start))
    {
      hide Tiled, Ring, Items, FreeItems, Marks, Join;
      ItemsFacts(next, prev, blocks, End(), i);
      var behind := next[header];
      JoinNext(i, header);
      Unlink(behind);
    }

    /** rt_memheap_free of a live block. */
    method Free(ptr: Option<nat>)
      requires Valid() && (ptr.Some? ==> IsLive(Value(), ptr.value))
      modifies this
      ensures Valid() && Value() == if ptr.Some? then MemHeapSpec.Free(old(Value()), ptr.value) else old(Value())
      ensures maxUsed == old(maxUsed)
    {
      hide Tiled, Coalesced, Ring, Items, FreeItems, Marks, FreeBytes, Lists, FreeAt, Join, Mark, Live, WellFormed;
      if ptr == None { return; }
      var header: Addr := ptr.value - HDR;
      ghost var h := Value();
      ghost var i := IndexOf(blocks, header);
      FreeKeeps(h, End(), i);
      FreeSteps(h, End(), i);
      SizedAt(h, End(), i);
      ItemsFacts(next, prev, blocks, End(), i);
      SetUsed(i, header, false);
      ghost var un := blocks;
      NeighbourMarks(next, prev, used, un, End(), i);
      available := available + (next[header] - header - HDR);
      var insert := true;
      ghost var at := i;
      if !used[prev[header]] {
        available := available + HDR;
        header := prev[header];
        at := i - 1;
        JoinNext(at, header);
        insert := false;
      }
      NeighbourMarks(next, prev, used, blocks, End(), at);
      if !used[next[header]] {
        available := available + HDR;
        Absorb(at, header);
      }
      if insert { Push(header); }
    }

    /** rt_memheap_realloc, growing into the free item behind. */
    method Grow(ghost i: nat, header: nat, size: nat)
      requires Valid() && i < |blocks| && blocks[i].used && header == blocks[i].start && size % ALIGN == 0 && size >= MIN
      requires size > Payload(blocks[i]) && CanGrow(Value(), i, size)
      modifies this
      ensures Valid() && Value() == Recut(old(Value()), i, header + HDR + size)
      ensures maxUsed == High(old(maxUsed), available)
    {
      hide Tiled, Coalesced, Ring, Items, FreeItems, Marks, FreeBytes, Lists, Recut, Join, Split, Live, CutFits, DropRight;
      ghost var h := Value();
      RecutFits(h, End(), i, size);
      RecutKeeps(h, End(), i, header + HDR + size);
      GrowSteps(h, End(), i, header + HDR + size);
      ItemsFacts(next, prev, blocks, End(), i);
      available := available - (size - (next[header] - header - HDR));
      NoteMax();
      Absorb(i, header);
      SplitAt(i, header, header + HDR + size);
      Push(header + HDR + size);
    }

    /** rt_memheap_realloc, when an item can be split off. */
    method Shrink(ghost i: nat, header: nat, size: nat)
      requires Valid() && i < |blocks| && blocks[i].used && header == blocks[i].start && size % ALIGN == 0 && size >= MIN
      requires size + HDR + MIN < Payload(blocks[i])
      modifies this
      ensures Valid() && Value() == Recut(old(Value()), i, header + HDR + size)
      ensures maxUsed == old(maxUsed)
    {
      hide Tiled, Coalesced, Ring, Items, FreeItems, Marks, FreeBytes, Lists, Recut, Join, Split, Live, CutFits, DropRight;
      ghost var h := Value();
      RecutFits(h, End(), i, size);
      RecutKeeps(h, End(), i, header + HDR + size);
      ShrinkSteps(h, End(), i, header + HDR + size);
      ItemsFacts(next, prev, blocks, End(), i);
      var cut := header + size + HDR;
      SplitAt(i, header, cut);
      NeighbourMarks(next, prev, used, blocks, End(), i + 1);
      ItemsFacts(next, prev, blocks, End(), i + 1);
      if !used[next[cut]] {
        ItemsFacts(next, prev, blocks, End(), i + 2);
        available := available - (next[next[cut]] - next[cut] - HDR);
        Absorb(i + 1, cut);
      }
      Push(cut);
      ItemsFacts(next, prev, blocks, End(), i + 1);
      available := available + (next[cut] - cut - HDR);
    }

    /** rt_memheap_realloc, when the block has to move: a new one, and the old one freed. */
    method Move(ptr: nat, size: nat) returns (p: Option<nat>)
      requires Valid() && IsLive(Value(), ptr)
      modifies this
      ensures Valid() && var (h, q) := MemHeapSpec.Alloc(old(Value()), size);
              p == q && (q.Some? ==> IsLive(h, ptr)) && Value() == if q.Some? then MemHeapSpec.Free(h, ptr) else h
      ensures maxUsed == High(old(maxUsed), FreeBytes(MemHeapSpec.Alloc(old(Value()), size).0.blocks))
    {
      hide WellFormed, FreeBytes, IsLive, MemHeapSpec.Alloc, MemHeapSpec.Free;
      ghost var h := Value();
      p := Alloc(size);
      if p.Some? {
        MoveMeaning(h, End(), ptr, size);
        Free(Some(ptr));
      }
    }

    /** rt_memheap_realloc of a live block, or of nothing. */
    method Realloc(ptr: Option<nat>, newsize: nat) returns (p: Option<nat>)
      requires Valid() && (ptr.Some? ==> IsLive(Value(), ptr.value))
      modifies this
      ensures Valid() && (Value(), p) == MemHeapSpec.Realloc(old(Value()), ptr, newsize)
      ensures old(maxUsed) <= maxUsed
    {
      hide Tiled, Coalesced, Ring, Items, FreeItems, Marks, FreeBytes, Lists, Recut, FreeAt, Live, MemHeapSpec.Alloc,
           MemHeapSpec.Free, WellFormed, High;
      if newsize == 0 {
        Free(ptr);
        return None;
      }
      var size := Align(newsize);
      if size < MIN { size := MIN; }
      if ptr == None {
        p := Alloc(size);
        return;
      }
      var header := ptr.value - HDR;
      ghost var h := Value();
      ghost var i := IndexOf(blocks, header);
      ItemsFacts(next, prev, blocks, End(), i);
      NeighbourMarks(next, prev, used, blocks, End(), i);
      var oldsize := next[header] - header - HDR;
      if size > oldsize {
        var behind := next[header];
        if !used[behind] {
          ItemsFacts(next, prev, blocks, End(), i + 1);
          if (next[behind] - behind - HDR) + oldsize > size + MIN {
            Grow(i, header, size);
            return ptr;
          }
        }
        p := Move(ptr.value, size);
        return;
      }
      if size + HDR + MIN >= oldsize { return ptr; }
      Shrink(i, header, size);
      return ptr;
    }
  }

  /** What an item's neighbours say: the first one is preceded, and the last one followed, by the tail. */
  lemma NeighbourMarks(next: Links, prev: Links, used: map<Addr, bool>, bs: seq<Block>, end: nat, i: nat)
    requires Ring(next, prev, Items(bs, end)) && Marks(used, bs, end) && Tiled(bs, 0, end) && i < |bs|
    ensures bs[i].start in next && next[bs[i].start] in used && bs[i].start in prev && prev[bs[i].start] in used
    ensures next[bs[i].start] == bs[i].end && prev[bs[i].start] == if i == 0 then end else bs[i - 1].start
    ensures used[next[bs[i].start]] <==> i + 1 == |bs| || bs[i + 1].used
    ensures used[prev[bs[i].start]] <==> i == 0 || bs[i - 1].used
  {
    hide Tiled, Ring, Items;
    ItemsFacts(next, prev, bs, end, i);
  }

  lemma SizedAt(h: Heap, end: nat, i: nat)
    requires WellFormed(h, end) && i < |h.blocks|
    ensures Sized(h.blocks[i])
  {
  }

  /** The steps of rt_memheap_free add up to what it does. */
  lemma FreeSteps(h: Heap, end: nat, i: nat)
    requires WellFormed(h, end) && i < |h.blocks| && h.blocks[i].used
    ensures var un := Mark(h.blocks, i, false);
            var left, right := RunStart(h.blocks, i) < i, RunEnd(h.blocks, i) == i + 2;
            var at := if left then i - 1 else i;
            && (left ==> at + 1 < |un|)
            && var one := if left then Join(un, at) else un;
               && at < |one| && one[at].start == (if left then h.blocks[i - 1].start else h.blocks[i].start)
               && (at + 1 < |one| <==> i + 1 < |h.blocks|) && (at + 1 < |one| ==> one[at + 1] == h.blocks[i + 1])
               && (left <==> i > 0 && !un[i - 1].used) && un[i].start == h.blocks[i].start && |un| == |h.blocks|
               && (left ==> un[i - 1].start == h.blocks[i - 1].start)
               && (right ==> h.blocks[i + 1].start in h.free)
               && h.blocks[i].start !in DropRight(h, i)
               && FreeAt(h, i) == Heap(if right then Join(one, at) else one,
                                       if left then DropRight(h, i) else [h.blocks[i].start] + DropRight(h, i))
  {
    hide Tiled, Coalesced, FreeStarts, Sized, DropRight, FreeAt, Join, Mark;
    ListOf(h, end);
    StartNotFree(h.blocks, end, i);
    DropRightList(h, end, i);
    assert h.blocks[i].start !in WaitQueue.Members(DropRight(h, i));
    if RunEnd(h.blocks, i) == i + 2 {
      FreeBlockListed(h, end, h.blocks[i + 1]);
    }
    FreeLayouts(h, i);
  }

  lemma FreeLayouts(h: Heap, i: nat)
    requires i < |h.blocks| && h.blocks[i].used
    ensures var un := Mark(h.blocks, i, false);
            var left, right := RunStart(h.blocks, i) < i, RunEnd(h.blocks, i) == i + 2;
            var at := if left then i - 1 else i;
            && |un| == |h.blocks| && un[i].start == h.blocks[i].start
            && (left <==> i > 0 && !un[i - 1].used) && (left ==> un[i - 1].start == h.blocks[i - 1].start)
            && var one := if left then Join(un, at) else un;
               && at < |one| && one[at].start == (if left then h.blocks[i - 1].start else h.blocks[i].start)
               && (at + 1 < |one| <==> i + 1 < |h.blocks|) && (at + 1 < |one| ==> one[at + 1] == h.blocks[i + 1])
               && FreeAt(h, i) == Heap(if right then Join(one, at) else one,
                                       if left then DropRight(h, i) else [h.blocks[i].start] + DropRight(h, i))
  {
    hide DropRight, Splice;
    var bs := h.blocks;
    var un := Mark(bs, i, false);
    var left, right := RunStart(bs, i) < i, RunEnd(bs, i) == i + 2;
    var at := if left then i - 1 else i;
    var own := [bs[i].(used := false)];
    MarkIsSplice(bs, i, false);
    var joined := [Block(bs[at].start, bs[i].end, false)];
    assert joined + own[1..] == joined && (!left ==> own == joined);
    if left {
      SpliceLeft(bs, i, i + 1, own, 1, 1, joined);
      SpliceAt(bs, i, i + 1, own, i - 1);
    }
    SpliceAt(bs, i, i + 1, own, i);
    var one := if left then Join(un, at) else un;
    assert one == Splice(bs, at, i + 1, joined);
    SpliceAt(bs, at, i + 1, joined, at);
    if i + 1 < |bs| { SpliceAt(bs, at, i + 1, joined, at + 1); }
    if right {
      var whole := [Block(bs[at].start, bs[i + 1].end, false)];
      SpliceRight(bs, at, i + 1, joined, 0, 1, whole);
      assert joined[..0] + whole == whole;
    }
  }

  lemma GrowSteps(h: Heap, end: nat, i: nat, cut: nat)
    requires WellFormed(h, end) && i < |h.blocks| && h.blocks[i].used && RunEnd(h.blocks, i) == i + 2
    requires CutFits(h, i, cut)
    ensures var one := Join(h.blocks, i);
            && h.blocks[i + 1].start in h.free
            && i < |one| && one[i].start == h.blocks[i].start < cut < one[i].end
            && cut !in WaitQueue.Without(h.free, h.blocks[i + 1].start)
            && Recut(h, i, cut) == Heap(Split(one, i, cut), [cut] + WaitQueue.Without(h.free, h.blocks[i + 1].start))
  {
    hide Tiled, Coalesced, FreeStarts, Sized, Split, Join;
    CutNotListed(h, end, i, cut);
    FreeBlockListed(h, end, h.blocks[i + 1]);
    GrowLayouts(h, i, cut);
  }

  lemma GrowLayouts(h: Heap, i: nat, cut: nat)
    requires i + 1 < |h.blocks| && h.blocks[i].used && RunEnd(h.blocks, i) == i + 2
    ensures var one := Join(h.blocks, i);
            && i < |one| && one[i].start == h.blocks[i].start && one[i].end == h.blocks[i + 1].end
            && Split(one, i, cut) == Recut(h, i, cut).blocks
  {
    hide Splice, DropRight;
    var bs := h.blocks;
    var one := [Block(bs[i].start, bs[i + 1].end, bs[i].used)];
    SpliceAt(bs, i, i + 2, one, i);
    var two := [Block(bs[i].start, cut, true), Block(cut, bs[i + 1].end, false)];
    SpliceWithin(bs, i, i + 2, one, 0, 1, two);
    assert one[..0] + two + one[1..] == two;
  }

  lemma CutNotListed(h: Heap, end: nat, i: nat, cut: nat)
    requires WellFormed(h, end) && i < |h.blocks| && h.blocks[i].used && CutFits(h, i, cut)
    ensures cut !in DropRight(h, i)
  {
    hide Tiled, Coalesced, FreeStarts, Sized, DropRight;
    DropRightList(h, end, i);
    NoStartInside(h.blocks, end, i, RunEnd(h.blocks, i), cut);
    assert cut !in WaitQueue.Members(DropRight(h, i));
  }

  lemma ShrinkSteps(h: Heap, end: nat, i: nat, cut: nat)
    requires WellFormed(h, end) && i < |h.blocks| && h.blocks[i].used && CutFits(h, i, cut) && cut < h.blocks[i].end
    ensures var two := Split(h.blocks, i, cut); var right := RunEnd(h.blocks, i) == i + 2;
            && i + 1 < |two| && two[i + 1].start == cut && !two[i + 1].used
            && (i + 2 < |two| <==> i + 1 < |h.blocks|) && (i + 2 < |two| ==> two[i + 2] == h.blocks[i + 1])
            && (right ==> h.blocks[i + 1].start in h.free)
            && cut !in DropRight(h, i)
            && DropRight(h, i) == (if right then WaitQueue.Without(h.free, h.blocks[i + 1].start) else h.free)
            && Recut(h, i, cut) == Heap(if right then Join(two, i + 1) else two, [cut] + DropRight(h, i))
            && var one := if right then Join(two, i + 1) else two;
               && i + 1 < |one| && one[i + 1].start == cut
               && one[i + 1].end == if right then h.blocks[i + 1].end else h.blocks[i].end
  {
    hide Tiled, Coalesced, FreeStarts, Sized, Split, Join;
    CutNotListed(h, end, i, cut);
    if RunEnd(h.blocks, i) == i + 2 { FreeBlockListed(h, end, h.blocks[i + 1]); }
    ShrinkLayouts(h, i, cut);
  }

  lemma ShrinkLayouts(h: Heap, i: nat, cut: nat)
    requires i < |h.blocks| && h.blocks[i].used
    ensures var two := Split(h.blocks, i, cut); var right := RunEnd(h.blocks, i) == i + 2;
            && i + 1 < |two| && two[i + 1].start == cut && !two[i + 1].used
            && (i + 2 < |two| <==> i + 1 < |h.blocks|) && (i + 2 < |two| ==> two[i + 2] == h.blocks[i + 1])
            && var one := if right then Join(two, i + 1) else two;
               && Recut(h, i, cut).blocks == one
               && i + 1 < |one| && one[i + 1].start == cut
               && one[i + 1].end == if right then h.blocks[i + 1].end else h.blocks[i].end
  {
    hide Splice, DropRight;
    var bs := h.blocks;
    var two := [Block(bs[i].start, cut, true), Block(cut, bs[i].end, false)];
    SpliceAt(bs, i, i + 1, two, i + 1);
    if i + 1 < |bs| { SpliceAt(bs, i, i + 1, two, i + 2); }
    if RunEnd(bs, i) == i + 2 {
      var one := [Block(cut, bs[i + 1].end, false)];
      SpliceRight(bs, i, i + 1, two, 1, 1, one);
      assert two[..1] + one == [two[0], one[0]];
      SpliceAt(bs, i, i + 2, [two[0], one[0]], i + 1);
    }
  }

  lemma FitIs(h: Heap, need: nat, k: nat)
    requires k <= |h.free| && (forall j | 0 <= j < k :: SizeAt(h.blocks, h.free[j]) < need)
    requires k < |h.free| ==> SizeAt(h.blocks, h.free[k]) >= need
    ensures FirstFit(h.free, h.blocks, need) == k
  {
  }

  /** What the search reads of item `k` of the free list. */
  lemma FreeItem(h: Heap, end: nat, next: Links, prev: Links, k: nat)
    requires WellFormed(h, end) && Ring(next, prev, Items(h.blocks, end)) && k < |h.free|
    ensures var i := IndexOf(h.blocks, h.free[k]);
            && i < |h.blocks| && !h.blocks[i].used && h.blocks[i].start == h.free[k]
            && h.free[k] in next && next[h.free[k]] - h.free[k] - HDR == SizeAt(h.blocks, h.free[k])
            && SizeAt(h.blocks, h.free[k]) == Payload(h.blocks[i])
  {
    hide Tiled, Coalesced, Ring, Items, Lists;
    ListOf(h, end);
    Listed(h, end, h.free[k]);
    ItemsFacts(next, prev, h.blocks, end, IndexOf(h.blocks, h.free[k]));
  }

  lemma NextIsItem(next: Links, prev: Links, bs: seq<Block>, end: nat, i: nat)
    requires Ring(next, prev, Items(bs, end)) && Tiled(bs, 0, end) && i < |bs|
    ensures bs[i].end in prev && prev[bs[i].end] == bs[i].start
  {
    TiledOrdered(bs, 0, end);
    var c := Items(bs, end);
    assert c[i + 1] == bs[i].end && c[i] == bs[i].start;
    assert prev[c[i + 1]] == Before(c, i + 1);
  }

  lemma Neighbours(next: Links, prev: Links, free: seq<nat>, x: nat)
    requires Ring(next, prev, FreeItems(free)) && x in free
    ensures x in next && x in prev && next[x] != x && prev[x] != x
    ensures var prev' := prev[next[x] := prev[x]];
            && prev' == RemovePrev(next, prev, x) && prev'[x] == prev[x]
            && next[prev'[x] := next[x]] == RemoveNext(next, prev, x)
  {
    var c := FreeItems(free);
    var k :| 0 <= k < |free| && free[k] == x;
    assert c[k + 1] == x;
    assert next[c[k + 1]] == After(c, k + 1) && prev[c[k + 1]] == Before(c, k + 1);
    assert After(c, k + 1) != c[k + 1] && Before(c, k + 1) != c[k + 1];
  }

  /** The steps of an allocation add up to what it does. */
  lemma TakeSteps(h: Heap, end: nat, i: nat, size: nat)
    requires WellFormed(h, end) && i < |h.blocks| && !h.blocks[i].used && Payload(h.blocks[i]) >= size
    ensures var b, cut := h.blocks[i], h.blocks[i].start + HDR + size;
            && b.start in h.free
            && (Splits(b, size) ==>
                  && i < |Split(h.blocks, i, cut)| && Split(h.blocks, i, cut)[i].start == b.start
                  && MemHeapSpec.Take(h, i, size)
                     == Heap(Mark(Split(h.blocks, i, cut), i, true), [cut] + WaitQueue.Without(h.free, b.start))
                  && cut !in WaitQueue.Without(h.free, b.start))
            && (!Splits(b, size) ==>
                  MemHeapSpec.Take(h, i, size) == Heap(Mark(h.blocks, i, true), WaitQueue.Without(h.free, b.start)))
  {
    hide Tiled, Coalesced, FreeStarts, Split, Mark, Sized, Live, MemHeapSpec.Take;
    var b, cut := h.blocks[i], h.blocks[i].start + HDR + size;
    OneFree(h.blocks, i);
    ListOf(h, end);
    WithoutList(h.free, b.start);
    assert b.start in WaitQueue.Members(h.free);
    if Splits(b, size) {
      NoStartInside(h.blocks, end, i, i + 1, cut);
      assert cut !in WaitQueue.Members(WaitQueue.Without(h.free, b.start));
    }
    TakeLayouts(h, i, size);
  }

  lemma TakeLayouts(h: Heap, i: nat, size: nat)
    requires i < |h.blocks| && !h.blocks[i].used
    ensures var b, cut := h.blocks[i], h.blocks[i].start + HDR + size;
            && (Splits(b, size) ==>
                  && i < |Split(h.blocks, i, cut)| && Split(h.blocks, i, cut)[i].start == b.start
                  && MemHeapSpec.Take(h, i, size)
                     == Heap(Mark(Split(h.blocks, i, cut), i, true), [cut] + WaitQueue.Without(h.free, b.start)))
            && (!Splits(b, size) ==>
                  MemHeapSpec.Take(h, i, size) == Heap(Mark(h.blocks, i, true), WaitQueue.Without(h.free, b.start)))
  {
  }
}
