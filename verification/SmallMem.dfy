/** The small-memory allocator (mem.c), working in its buffer. */
module SmallMem {
  import opened Basics
  import opened Requests
  import opened Tiling
  import opened SmallHeapSpec
  import opened SmallWalk
  import opened SmallHeapTheory
  import opened SmallItems

  class SmallMem {
    const tag: nat                // MEM_FREED(): the address of this object, with bit 0 clear
    const size: nat               // mem_size_aligned
    const mem: array<nat>         // heap_ptr
    var lfree: nat
    var used: int
    var max: int
    ghost var blocks: seq<Block>

    ghost function End(): nat { size + HDR }

    ghost predicate Shape()
      reads this
    {
      && tag % 2 == 0 && tag > 0
      && size % ALIGN == 0 && size + HDR < WRAP
      && mem.Length == size + 2 * HDR
    }

    /** The end stub is used and is its own successor; its back link is never read. */
    ghost predicate Stub()
      requires Shape()
      reads this, mem
    {
      mem[End()] == tag + 1 && mem[End() + NEXT] == End()
    }

    /** The items in the buffer spell out the layout `blocks`. */
    ghost predicate Layout()
      reads this, mem
    {
      && Shape() && Stub()
      && WellFormed(blocks, End())
      && Items(mem[..], tag, blocks, 0)
    }

    ghost predicate Valid()
      reads this, mem
    {
      && Layout()
      && lfree == StartOf(blocks, FirstFree(blocks), End())
      && used == UsedBytes(blocks) && used <= max
    }

    /** rt_smem_init, on a buffer of `size` bytes between the first item and the end stub. */
    constructor (tag: nat, size: nat)
      requires tag % 2 == 0 && tag > 0
      requires size % ALIGN == 0 && size + HDR < WRAP
      ensures Valid() && blocks == Fresh(size + HDR) && fresh(mem)
      ensures this.tag == tag && this.size == size && used == 0 && max == 0
    {
      this.tag, this.size := tag, size;
      mem := new nat[size + 2 * HDR];
      lfree, used, max := 0, 0, 0;
      blocks := Fresh(size + HDR);
      new;
      mem[0], mem[NEXT], mem[PREV] := tag, size + HDR, 0;
      var end := mem[NEXT];
      mem[end], mem[end + NEXT], mem[end + PREV] := tag + 1, size + HDR, size + HDR;
      FreshWellFormed(size + HDR);
      UsedBytesOne(Fresh(size + HDR)[0]);
    }

    /** The writes of rt_smem_alloc to a chosen free block `b` at `ptr`. */
    method WriteTake(ghost b: Block, ptr: nat, need: nat)
      requires Shape() && b.start == ptr && Sized(b) && Fits(b, need) && b.end <= End()
      requires mem[ptr + NEXT] == b.end
      modifies this`used, this`max, mem
      ensures mem[..] == TakeWords(old(mem[..]), tag, b, need, End())
      ensures used == old(used) + UsedSize(Carve(b, need)[0])
      ensures max == if old(max) < used then used else old(max)
    {
      if mem[ptr + NEXT] - (ptr + HDR) >= need + HDR + MIN {
        var ptr2 := ptr + HDR + need;
        mem[ptr2], mem[ptr2 + NEXT], mem[ptr2 + PREV] := tag, mem[ptr + NEXT], ptr;
        mem[ptr + NEXT] := ptr2;
        if mem[ptr2 + NEXT] != size + HDR {
          mem[mem[ptr2 + NEXT] + PREV] := ptr2;
        }
        used := used + need + HDR;
      } else {
        used := used + mem[ptr + NEXT] - ptr;
      }
      if max < used { max := used; }
      mem[ptr] := tag + 1;
    }

    /** The body of rt_smem_alloc once block `i` at `ptr` is chosen: split it if the rest can hold a
        block, and mark it used. */
    method Take(ghost i: nat, ptr: nat, need: nat)
      requires Layout() && used == UsedBytes(blocks) && used <= max
      requires i < |blocks| && blocks[i].start == ptr && Fits(blocks[i], need)
      requires need >= MIN && need % ALIGN == 0
      modifies this`used, this`max, this`blocks, mem
      ensures Layout() && used == UsedBytes(blocks)
      ensures blocks == Splice(old(blocks), i, i + 1, Carve(old(blocks[i]), need))
      ensures max == if old(max) < used then used else old(max)
      ensures Within(old(mem[..]), mem[..], ptr, old(blocks[i].end))
    {
      hide WellFormed, Items, TakeWords, ItemAt, UsedBytes, Splice, Carve, Within;
      ghost var b, w := blocks[i], mem[..];
      ReadTaken(w, tag, blocks, i, End());
      TakeLayout(w, tag, blocks, i, need, End());
      WriteTake(b, ptr, need);
      blocks := Splice(blocks, i, i + 1, Carve(b, need));
      assert mem[..][End()] == mem[End()] && mem[..][End() + NEXT] == mem[End() + NEXT];
    }

    /** Moves lfree from used items to the next free one, or to the end stub. */
    method AdvanceFree(ghost from: nat)
      requires Layout() && from <= |blocks| && lfree == StartOf(blocks, from, End())
      requires forall x | 0 <= x < from :: blocks[x].used
      modifies this`lfree
      ensures lfree == StartOf(blocks, FirstFree(blocks), End())
    {
      hide Items, ItemAt, Tiled, Coalesced;
      ghost var j := from;
      StartBound(blocks, End(), j);
      while mem[lfree] % 2 == 1 && lfree != size + HDR
        invariant j <= |blocks| && lfree == StartOf(blocks, j, End()) && lfree <= End()
        invariant forall x | 0 <= x < j :: blocks[x].used
        decreases |blocks| - j
      {
        ReadItem(mem[..], tag, blocks, j, End());
        lfree := mem[lfree + NEXT];
        j := j + 1;
        StartBound(blocks, End(), j);
      }
      if j < |blocks| { ReadItem(mem[..], tag, blocks, j, End()); }
      FirstFreeIs(blocks, j);
    }

    /** What rt_smem_alloc does with the first block that fits: take it, and keep lfree the lowest free item. */
    method Claim(ghost i: nat, ptr: nat, need: nat)
      requires Valid() && i < |blocks| && i == FirstFit(blocks, need) && ptr == blocks[i].start
      requires need >= MIN && need % ALIGN == 0
      modifies this`lfree, this`used, this`max, this`blocks, mem
      ensures Valid() && blocks == AllocLayout(old(blocks), need)
      ensures max == if old(max) < used then used else old(max)
      ensures PayloadsKept(old(mem[..]), mem[..], Live(old(blocks)))
    {
      hide Items, ItemAt, Tiled, Coalesced, Splice, Within, Carve, UsedBytes;
      Take(i, ptr, need);
      WithinKeeps(old(mem[..]), mem[..], old(blocks), i, i + 1, Live(old(blocks)), End());
      TakeFirstFree(old(blocks), i, need, End());
      if ptr == lfree { AdvanceFree(i); }
    }

    /** rt_smem_alloc, when it returns (SmallWalk.WalkEnds). */
    method Alloc(request: nat) returns (p: Option<nat>)
      requires Valid() && Returns(size, request)
      modifies this`lfree, this`used, this`max, this`blocks, mem
      ensures Valid()
      ensures (blocks, p) == SmallHeapSpec.Alloc(old(blocks), size, request)
      ensures max == if old(max) < used then used else old(max)
      ensures PayloadsKept(old(mem[..]), mem[..], Live(old(blocks)))
    {
      hide Items, ItemAt, Tiled, Coalesced, AllocLayout, UsedBytes, Live, PayloadsKept;
      KeptSelf(mem[..], Live(blocks));
      if request == 0 { return None; }
      var need := Align(request);
      if need > size { return None; }
      if need < MIN { need := MIN; }
      var ptr := lfree;
      ghost var i: nat := FirstFree(blocks);
      StartBound(blocks, End(), i);
      while ptr <= Bound(size, need)
        invariant i <= |blocks| && ptr == StartOf(blocks, i, End())
        invariant forall x | 0 <= x < i :: !Fits(blocks[x], need)
        invariant Valid() && unchanged(this) && unchanged(mem)
        decreases |blocks| - i
      {
        assert mem[..] == old(mem[..]);
        ReadItem(mem[..], tag, blocks, i, End());
        if mem[ptr] % 2 == 0 && mem[ptr + NEXT] - (ptr + HDR) >= need {
          FirstFitIs(blocks, need, i);
          Claim(i, ptr, need);
          return Some(ptr + HDR);
        }
        ptr := mem[ptr + NEXT];
        i := i + 1;
      }
      StartBound(blocks, End(), i);
      NoneFurther(blocks, End(), i, need);
      FirstFitIs(blocks, need, |blocks|);
      AllocNone(blocks, need);
      assert mem[..] == old(mem[..]);
      return None;
    }

    /** The state plug_holes works in: the items spell out `blocks`, which need not be coalesced. */
    ghost predicate Open()
      reads this, mem
    {
      Shape() && Stub() && Placed(blocks, End()) && Items(mem[..], tag, blocks, 0)
    }

    ghost predicate LowestKnown()
      reads this
    {
      lfree == StartOf(blocks, FirstFree(blocks), End())
    }

    /** One half of plug_holes: the free item at `m` swallows the free item at `n` right after it. */
    method Swallow(ghost i: nat, m: nat, n: nat)
      requires Open() && i + 1 < |blocks| && !blocks[i].used && !blocks[i + 1].used
      requires m == blocks[i].start && n == blocks[i + 1].start
      modifies this`lfree, this`blocks, mem
      ensures Open() && blocks == Join(old(blocks), i) && UsedBytes(blocks) == UsedBytes(old(blocks))
      ensures lfree == if old(lfree) == n then m else old(lfree)
      ensures Live(blocks) == Live(old(blocks)) && PayloadsKept(old(mem[..]), mem[..], Live(blocks))
    {
      hide Items, ItemAt, Tiled, Placed, UsedBytes, Join, Within;
      ghost var w, b, c := mem[..], blocks[i], blocks[i + 1];
      MergeLayout(w, tag, blocks, i, End());
      ReadItem(w, tag, blocks, i + 1, End());
      if lfree == n { lfree := m; }
      mem[n] := 0;
      mem[m + NEXT] := mem[n + NEXT];
      mem[mem[m + NEXT] + PREV] := m;
      assert mem[..] == MergeWords(w, b, c);
      MergeLive(blocks, i, End());
      WithinKeeps(w, mem[..], blocks, i, i + 2, Live(blocks), End());
      blocks := Join(blocks, i);
      assert mem[..][End()] == mem[End()] && mem[..][End() + NEXT] == mem[End() + NEXT];
    }

    /** plug_holes, forward. */
    method PlugForward(ghost i: nat, m: nat)
      requires Open() && LowestKnown() && i < |blocks| && !blocks[i].used && m == blocks[i].start
      modifies this`lfree, this`blocks, mem
      ensures Open() && LowestKnown() && i < |blocks| && !blocks[i].used && m == blocks[i].start
      ensures blocks == PlugRight(old(blocks), i) && UsedBytes(blocks) == UsedBytes(old(blocks))
      ensures Live(blocks) == Live(old(blocks)) && PayloadsKept(old(mem[..]), mem[..], Live(blocks))
    {
      hide Items, ItemAt, Tiled, UsedBytes, FirstFree;
      ReadItem(mem[..], tag, blocks, i, End());
      var n := mem[m + NEXT];
      if i + 1 < |blocks| { ReadItem(mem[..], tag, blocks, i + 1, End()); }
      if m != n && mem[n] % 2 == 0 && n != size + HDR {
        MergeFirstFree(blocks, i, End());
        Swallow(i, m, n);
      }
    }

    /** plug_holes, backward. */
    method PlugBackward(ghost i: nat, m: nat)
      requires Open() && LowestKnown() && i < |blocks| && !blocks[i].used && m == blocks[i].start
      modifies this`lfree, this`blocks, mem
      ensures Open() && LowestKnown()
      ensures blocks == PlugLeft(old(blocks), i) && UsedBytes(blocks) == UsedBytes(old(blocks))
      ensures Live(blocks) == Live(old(blocks)) && PayloadsKept(old(mem[..]), mem[..], Live(blocks))
    {
      hide Items, ItemAt, Tiled, UsedBytes, FirstFree;
      ReadItem(mem[..], tag, blocks, i, End());
      var p := mem[m + PREV];
      if i > 0 { ReadItem(mem[..], tag, blocks, i - 1, End()); }
      if p != m && mem[p] % 2 == 0 {
        MergeFirstFree(blocks, i - 1, End());
        Swallow(i - 1, p, m);
      }
    }

    /** plug_holes: merge the free item at `m` with free neighbours. */
    method PlugHoles(ghost i: nat, m: nat)
      requires Open() && LowestKnown() && i < |blocks| && !blocks[i].used && m == blocks[i].start
      modifies this`lfree, this`blocks, mem
      ensures i < |PlugRight(old(blocks), i)| && blocks == PlugLeft(PlugRight(old(blocks), i), i)
      ensures Open() && LowestKnown() && UsedBytes(blocks) == UsedBytes(old(blocks))
      ensures Live(blocks) == Live(old(blocks)) && PayloadsKept(old(mem[..]), mem[..], Live(blocks))
    {
      hide Items, ItemAt, Tiled, UsedBytes, FirstFree, Placed, PlugLeft, PlugRight, PayloadsKept;
      PlugForward(i, m);
      ghost var v := mem[..];
      PlugBackward(i, m);
      KeptTrans(old(mem[..]), v, mem[..], Live(blocks));
    }

    /** rt_smem_free of a live payload. */
    method Free(rmem: Option<nat>)
      requires Valid() && (rmem.Some? ==> IsLive(blocks, rmem.value))
      modifies this`lfree, this`used, this`blocks, mem
      ensures Valid()
      ensures blocks == if rmem.Some? then SmallHeapSpec.Free(old(blocks), rmem.value) else old(blocks)
      ensures rmem.Some? ==>
                PayloadsKept(old(mem[..]), mem[..], Live(old(blocks)) - {Owner(old(blocks), rmem.value)})
    {
      hide Items, ItemAt, Tiled, UsedBytes, FirstFree, PlugLeft, PlugRight, FreeLayout, Coalesced, PayloadsKept, Within;
      if rmem == None { return; }
      var m := rmem.value - HDR;
      ghost var i := IndexOf(blocks, m);
      ghost var bs, w := blocks, mem[..];
      ReadItem(w, tag, bs, i, End());
      UnmarkItems(w, tag, bs, i, End());
      UnmarkFirstFree(bs, i, End());
      UnmarkLive(bs, i, End());
      WithinKeeps(w, w[m := tag], bs, i, i + 1, Live(bs) - {bs[i]}, End());
      mem[m] := tag;
      if m < lfree { lfree := m; }
      used := used - (mem[m + NEXT] - m);
      blocks := Unmark(bs, i);
      assert mem[..] == w[m := tag];
      assert mem[..][End()] == mem[End()] && mem[..][End() + NEXT] == mem[End() + NEXT];
      PlugHoles(i, m);
      KeptTrans(w, w[m := tag], mem[..], Live(bs) - {bs[i]});
      PlugFreed(bs, i);
      FreeKeeps(bs, End(), i);
    }

    /** The writes of rt_smem_realloc that cut the used item `b` at `m` down to `newsize` bytes. */
    method WriteCut(ghost b: Block, m: nat, newsize: nat)
      requires Shape() && b.start == m && b.start + HDR + newsize + HDR + MIN < b.end <= End()
      requires b.end % ALIGN == 0 && newsize % ALIGN == 0 && m % ALIGN == 0
      requires mem[m + NEXT] == b.end
      modifies mem
      ensures mem[..] == SplitWords(old(mem[..]), tag, b, m + HDR + newsize, End())
    {
      var ptr2 := m + HDR + newsize;
      mem[ptr2], mem[ptr2 + NEXT], mem[ptr2 + PREV] := tag, mem[m + NEXT], m;
      mem[m + NEXT] := ptr2;
      if mem[ptr2 + NEXT] != size + HDR {
        mem[mem[ptr2 + NEXT] + PREV] := ptr2;
      }
    }

    /** rt_smem_realloc, when a block can be split off the used item at `m`. */
    method Shrink(ghost i: nat, m: nat, newsize: nat)
      requires Valid() && i < |blocks| && blocks[i].used && m == blocks[i].start
      requires newsize > 0 && newsize % ALIGN == 0 && m + HDR + newsize + HDR + MIN < blocks[i].end
      modifies this`lfree, this`used, this`blocks, mem
      ensures Valid() && blocks == ShrinkLayout(old(blocks), i, newsize)
      ensures PayloadsKept(old(mem[..]), mem[..], Live(old(blocks)) - {old(blocks[i])})
      ensures PayloadsKept(old(mem[..]), mem[..], {Block(m, m + HDR + newsize, true)})
    {
      hide Items, ItemAt, Tiled, UsedBytes, FirstFree, PlugLeft, PlugRight, ShrinkLayout, Coalesced,
           PayloadsKept, Within, SplitWords, CutLayout;
      ghost var bs, w, b := blocks, mem[..], blocks[i];
      ghost var short := Block(m, m + HDR + newsize, true);
      ReadItem(w, tag, bs, i, End());
      CutItems(w, tag, bs, i, newsize, End());
      CutFirstFree(bs, i, newsize, End());
      CutLive(bs, i, newsize, End());
      CutKeeps(w, tag, bs, i, newsize, End());
      PlugCut(bs, i, newsize);
      used := used - ((mem[m + NEXT] - m - HDR) - newsize);
      WriteCut(b, m, newsize);
      ghost var v := mem[..];
      if m + HDR + newsize < lfree { lfree := m + HDR + newsize; }
      blocks := CutLayout(bs, i, newsize);
      assert mem[..][End()] == mem[End()] && mem[..][End() + NEXT] == mem[End() + NEXT];
      PlugHoles(i + 1, m + HDR + newsize);
      KeptLess(v, mem[..], Live(blocks), Live(bs) - {b});
      KeptLess(v, mem[..], Live(blocks), {short});
      KeptTrans(w, v, mem[..], Live(bs) - {b});
      KeptTrans(w, v, mem[..], {short});
      ShrinkKeeps(bs, End(), i, newsize);
    }

    /** rt_memcpy of `n` bytes from the payload of one used block to that of another. */
    method Copy(ghost b: Block, ghost c: Block, to: nat, from: nat, n: nat)
      requires Valid() && b in Live(blocks) && c in Live(blocks) && b != c
      requires from == b.start + HDR && from + n <= b.end && to == c.start + HDR && to + n <= c.end
      modifies mem
      ensures Valid() && to + n <= mem.Length && from + n <= mem.Length
      ensures mem[to..to + n] == old(mem[from..from + n])
      ensures PayloadsKept(old(mem[..]), mem[..], Live(blocks) - {c})
    {
      hide Items, ItemAt, Tiled, UsedBytes, FirstFree, Coalesced, PayloadsKept, Live;
      ghost var w := mem[..];
      TwoLive(blocks, b, c, End());
      for k := 0 to n
        invariant forall a | 0 <= a < mem.Length && !(to <= a < c.end) :: mem[a] == w[a]
        invariant mem[to..to + k] == w[from..from + k]
      {
        mem[to + k] := mem[from + k];
      }
      ghost var j := LiveIndex(blocks, c);
      PayloadWrite(w, mem[..], tag, blocks, j, End());
      assert mem[..][End()] == mem[End()] && mem[..][End() + NEXT] == mem[End() + NEXT];
    }

    /** The end of a move: the payload is copied to `to`, in block `c`, and its old block is freed. */
    method CopyThenFree(ghost b: Block, ghost c: Block, to: nat, from: nat, n: nat)
      requires Valid() && IsLive(blocks, from) && b == Owner(blocks, from)
      requires b in Live(blocks) && c in Live(blocks) && b != c && b.end <= mem.Length && c.end <= mem.Length
      requires from + n <= b.end && to == c.start + HDR && to + n <= c.end
      modifies this`lfree, this`used, this`blocks, mem
      ensures Valid() && blocks == SmallHeapSpec.Free(old(blocks), from)
      ensures Copied(old(mem[..]), mem[..], to, from, n)
      ensures PayloadsKept(old(mem[..]), mem[..], Live(old(blocks)) - {b, c})
    {
      hide Items, ItemAt, Tiled, UsedBytes, FirstFree, Coalesced, Live, PayloadsKept, FreeLayout, Placed;
      ghost var w, live := mem[..], Live(blocks);
      Copy(b, c, to, from, n);
      ghost var v := mem[..];
      Free(Some(from));
      SliceKept(v, mem[..], live - {b}, c, to, n);
      KeptLess(w, v, live - {c}, live - {b, c});
      KeptLess(v, mem[..], live - {b}, live - {b, c});
      KeptTrans(w, v, mem[..], live - {b, c});
    }

    /** rt_smem_realloc, when the payload has to move: a new block, a copy, and the old one freed. */
    method Move(ghost own: Block, rmem: nat, sz: nat, newsz: nat) returns (p: Option<nat>)
      requires Valid() && IsLive(blocks, rmem) && own == Owner(blocks, rmem)
      requires sz == PayloadSize(blocks, rmem) && 0 < newsz == Align(newsz) <= size && Returns(size, newsz)
      modifies this`lfree, this`used, this`max, this`blocks, mem
      ensures Valid()
      ensures var (bs, q) := SmallHeapSpec.Alloc(old(blocks), size, newsz);
              && p == q
              && (if q.Some? then IsLive(bs, rmem) && blocks == SmallHeapSpec.Free(bs, rmem) else blocks == bs)
              && max == if old(max) < UsedBytes(bs) then UsedBytes(bs) else old(max)
      ensures PayloadsKept(old(mem[..]), mem[..], Live(old(blocks)) - {own})
      ensures p.Some? ==> Copied(old(mem[..]), mem[..], p.value, rmem, MinOf(sz, newsz))
    {
      hide Items, ItemAt, Tiled, UsedBytes, FirstFree, FirstFit, Coalesced, Live, PayloadsKept, FreeLayout, AllocLayout, Placed,
           Copied;
      ghost var w, live := mem[..], Live(blocks);
      MoveFacts(blocks, End(), size, newsz, rmem);
      p := Alloc(newsz);
      KeptLess(w, mem[..], live, live - {own});
      if p.Some? {
        ghost var v, live', dst := mem[..], Live(blocks), Owner(blocks, p.value);
        var n := if sz < newsz then sz else newsz;
        SliceKept(w, v, live, own, rmem, n);
        CopyThenFree(own, dst, p.value, rmem, n);
        KeptLess(v, mem[..], live' - {own, dst}, live - {own});
        KeptTrans(w, v, mem[..], live - {own});
        CopiedFrom(w, v, mem[..], p.value, rmem, n);
      }
    }

    /** rt_smem_realloc of a live payload, or of nothing. What the block holds is kept up to the
        smaller of the two sizes, and no other payload changes. */
    method Realloc(rmem: Option<nat>, newsize: nat) returns (p: Option<nat>)
      requires Valid() && (rmem.Some? ==> IsLive(blocks, rmem.value)) && Returns(size, Align(newsize))
      modifies this`lfree, this`used, this`max, this`blocks, mem
      ensures Valid()
      ensures (blocks, p) == SmallHeapSpec.Realloc(old(blocks), size, rmem, newsize)
      ensures old(max) <= max
      ensures rmem.Some? ==>
                PayloadsKept(old(mem[..]), mem[..], Live(old(blocks)) - {Owner(old(blocks), rmem.value)})
      ensures rmem.Some? && p.Some? ==>
                Copied(old(mem[..]), mem[..], p.value, rmem.value,
                       MinOf(PayloadSize(old(blocks), rmem.value), Align(newsize)))
    {
      hide Items, ItemAt, Tiled, UsedBytes, FirstFree, FirstFit, Coalesced, Live, PayloadsKept, ShrinkLayout, FreeLayout, AllocLayout,
           Placed, SmallHeapSpec.Alloc, SmallHeapSpec.Free, Copied;
      var newsz := Align(newsize);
      if rmem.Some? {
        KeptSelf(mem[..], Live(blocks) - {Owner(blocks, rmem.value)});
        KeptSelf(mem[..], {Owner(blocks, rmem.value)});
      }
      if newsz > size {
        return None;
      }
      if newsz == 0 {
        Free(rmem);
        return None;
      }
      if rmem == None {
        p := Alloc(newsz);
        return;
      }
      var m := rmem.value - HDR;
      ghost var i := IndexOf(blocks, m);
      ghost var own, w := blocks[i], mem[..];
      ReadItem(w, tag, blocks, i, End());
      var sz: nat := mem[m + NEXT] - m - HDR;
      if sz == newsz {
        SliceKept(w, w, {own}, own, rmem.value, sz);
        return rmem;
      }
      if newsz + HDR + MIN < sz {
        Shrink(i, m, newsz);
        ghost var short := Block(m, m + HDR + newsz, true);
        SliceKept(w, mem[..], {short}, short, rmem.value, newsz);
        return rmem;
      }
      p := Move(own, rmem.value, sz, newsz);
    }
  }
}
