/** Properties of the small-memory allocator's calls, over all layouts and all runs. */
module SmallHeapTheory {
  import opened Basics
  import opened Requests
  import opened Tiling
  import opened SmallHeapSpec

  // ---- Every call keeps the layout well formed -------------------------------------------

  lemma CarveTiled(b: Block, need: nat)
    requires Sized(b) && Fits(b, need) && need >= MIN && need % ALIGN == 0
    ensures Tiled(Carve(b, need), b.start, b.end)
    ensures forall c | c in Carve(b, need) :: Sized(c)
    ensures Live(Carve(b, need)) == {Carve(b, need)[0]}
  {
    hide Tiled, Live;
    var c := Carve(b, need);
    if |c| == 2 { PairTiled(c[0], c[1]); } else { OneTiled(c[0]); }
  }

  lemma PairTiled(x: Block, y: Block)
    requires x.start < x.end == y.start < y.end && x.used && !y.used
    ensures Tiled([x, y], x.start, y.end) && Live([x, y]) == {x}
  {
    OneTiled(y);
    assert [x, y][1..] == [y];
  }

  lemma SizedSplice(bs: seq<Block>, i: nat, k: nat, mid: seq<Block>)
    requires i <= k <= |bs|
    requires (forall b | b in bs :: Sized(b)) && (forall b | b in mid :: Sized(b))
    ensures forall b | b in Splice(bs, i, k, mid) :: Sized(b)
  {
  }

  lemma PlacedSplice(bs: seq<Block>, end: nat, i: nat, k: nat, mid: seq<Block>)
    requires Placed(bs, end) && i < k <= |bs|
    requires Tiled(mid, bs[i].start, bs[k - 1].end) && (forall b | b in mid :: Sized(b))
    ensures Placed(Splice(bs, i, k, mid), end)
  {
    TiledSplice(bs, i, k, mid, 0, end);
    SizedSplice(bs, i, k, mid);
  }

  /** Replacing blocks by others that fit the gap and meet no free neighbour. */
  lemma WellFormedSplice(bs: seq<Block>, end: nat, i: nat, k: nat, mid: seq<Block>)
    requires WellFormed(bs, end) && i < k <= |bs| && mid != []
    requires Tiled(mid, bs[i].start, bs[k - 1].end) && Coalesced(mid) && (forall b | b in mid :: Sized(b))
    requires i > 0 ==> bs[i - 1].used || mid[0].used
    requires k < |bs| ==> bs[k].used || mid[|mid| - 1].used
    ensures WellFormed(Splice(bs, i, k, mid), end)
    ensures Live(Splice(bs, i, k, mid)) == (Live(bs) - Live(bs[i..k])) + Live(mid)
  {
    PlacedSplice(bs, end, i, k, mid);
    LiveSplice(bs, i, k, mid, 0, end);
    CoalescedSplice(bs, i, k, mid);
  }

  lemma CarveFits(b: Block, need: nat)
    requires Fits(b, need)
    ensures b.start + HDR + need <= Carve(b, need)[0].end
    ensures Coalesced(Carve(b, need))
  {
  }

  /** Allocation keeps the layout, and adds to the used blocks the lowest place that fits. */
  lemma AllocKeeps(bs: seq<Block>, end: nat, need: nat)
    requires WellFormed(bs, end) && need >= MIN && need % ALIGN == 0
    ensures WellFormed(AllocLayout(bs, need), end)
    ensures var i := FirstFit(bs, need);
            if i == |bs| then AllocLayout(bs, need) == bs
            else
              var b := Carve(bs[i], need)[0];
              && b.used && b.start == bs[i].start && b.start + HDR + need <= b.end
              && b !in Live(bs) && Live(AllocLayout(bs, need)) == Live(bs) + {b}
  {
    hide Tiled, Coalesced, Live, Carve, Splice;
    var i := FirstFit(bs, need);
    if i < |bs| {
      assert bs[i] in bs;
      CarveTiled(bs[i], need);
      CarveFits(bs[i], need);
      NeighboursUsed(bs, i);
      WellFormedSplice(bs, end, i, i + 1, Carve(bs[i], need));
      LiveFree(bs, i);
      NotLive(bs, 0, end, i, Carve(bs[i], need)[0]);
    }
  }

  /** What block `i` and its free neighbours make up: the bounds of the run. */
  lemma RunAround(bs: seq<Block>, end: nat, lo: nat, i: nat)
    requires WellFormed(bs, end) && i < |bs| && bs[i].used
    requires lo == i || lo == RunStart(bs, i)
    ensures var hi := RunEnd(bs, i);
            && Live(bs[lo..hi]) == {bs[i]}
            && Sized(bs[lo]) && Sized(bs[i]) && Sized(bs[hi - 1])
            && bs[lo].start <= bs[i].start && bs[i].end <= bs[hi - 1].end
            && (lo == RunStart(bs, i) && lo > 0 ==> bs[lo - 1].used)
            && (hi < |bs| ==> bs[hi].used)
  {
    hide Tiled, Live, Coalesced, RunStart, Sized;
    var hi := RunEnd(bs, i);
    RunBounds(bs, end, lo, i);
    assert bs[lo] in bs && bs[hi - 1] in bs && bs[i] in bs;
  }

  /** Freeing keeps the layout and removes exactly the freed block from the used ones. */
  lemma FreeKeeps(bs: seq<Block>, end: nat, i: nat)
    requires WellFormed(bs, end) && i < |bs| && bs[i].used
    ensures WellFormed(FreeLayout(bs, i), end)
    ensures Live(FreeLayout(bs, i)) == Live(bs) - {bs[i]}
  {
    var lo, hi := RunStart(bs, i), RunEnd(bs, i);
    RunAround(bs, end, lo, i);
    var one := Block(bs[lo].start, bs[hi - 1].end, false);
    assert [one][1..] == [];
    WellFormedSplice(bs, end, lo, hi, [one]);
  }

  lemma CutTiled(lo: nat, cut: nat, hi: nat)
    requires lo < cut < hi
    ensures var mid := [Block(lo, cut, true), Block(cut, hi, false)];
            && Tiled(mid, lo, hi) && Coalesced(mid) && Live(mid) == {mid[0]}
            && (Sized(mid[0]) && Sized(mid[1]) ==> forall b | b in mid :: Sized(b))
  {
    var mid := [Block(lo, cut, true), Block(cut, hi, false)];
    assert mid[1..] == [mid[1]] && mid[1..][1..] == [];
    assert mid[0] in mid;
  }

  lemma CutAligned(b: Block, last: Block, size: nat)
    requires Sized(b) && Sized(last) && size > 0 && size % ALIGN == 0
    requires b.start + HDR + size + HDR + MIN < b.end <= last.end
    ensures var cut := b.start + HDR + size;
            cut % ALIGN == 0 && Sized(Block(b.start, cut, true)) && Sized(Block(cut, last.end, false))
  {
  }

  /** Shrinking in place keeps the layout and shortens exactly one used block. */
  lemma ShrinkKeeps(bs: seq<Block>, end: nat, i: nat, size: nat)
    requires WellFormed(bs, end) && i < |bs| && bs[i].used
    requires size > 0 && size % ALIGN == 0 && bs[i].start + HDR + size + HDR + MIN < bs[i].end
    ensures WellFormed(ShrinkLayout(bs, i, size), end)
    ensures Live(ShrinkLayout(bs, i, size))
         == Live(bs) - {bs[i]} + {Block(bs[i].start, bs[i].start + HDR + size, true)}
  {
    hide Tiled, Coalesced, Live, Splice, Sized, RunEnd;
    var hi := RunEnd(bs, i);
    var cut := bs[i].start + HDR + size;
    RunAround(bs, end, i, i);
    var mid := [Block(bs[i].start, cut, true), Block(cut, bs[hi - 1].end, false)];
    CutTiled(bs[i].start, cut, bs[hi - 1].end);
    CutAligned(bs[i], bs[hi - 1], size);
    WellFormedSplice(bs, end, i, hi, mid);
  }

  // ---- Pointers --------------------------------------------------------------------------

  lemma LivePointer(bs: seq<Block>, end: nat, b: Block)
    requires Tiled(bs, 0, end) && b in Live(bs)
    ensures IsLive(bs, b.start + HDR) && bs[IndexOf(bs, b.start)] == b
  {
    var i :| 0 <= i < |bs| && bs[i] == b;
    IndexAt(bs, end, i);
  }

  /** The block a live payload pointer belongs to. */
  function Owner(bs: seq<Block>, p: nat): (b: Block)
    requires IsLive(bs, p)
    ensures b.used && b in bs && b.start + HDR == p
  {
    bs[IndexOf(bs, p - HDR)]
  }

  // ---- What each call does to the set of used blocks ---------------------------------------

  /** rt_smem_alloc is first-fit and complete: it fails exactly when no free block fits, else it
      takes the lowest one, and what it hands out is aligned, long enough and new. */
  lemma AllocMeaning(bs: seq<Block>, end: nat, capacity: nat, request: nat)
    requires WellFormed(bs, end) && request > 0 && Align(request) <= capacity
    ensures var (bs', p) := Alloc(bs, capacity, request);
            && WellFormed(bs', end)
            && (p.None? <==> forall b | b in bs :: !Fits(b, Need(request)))
            && (p.None? ==> bs' == bs)
            && (p.Some? ==>
                  && IsLive(bs', p.value) && p.value % ALIGN == 0
                  && PayloadSize(bs', p.value) >= request
                  && Owner(bs', p.value) !in Live(bs)
                  && Live(bs') == Live(bs) + {Owner(bs', p.value)}
                  && forall b | b in bs && Fits(b, Need(request)) :: p.value <= b.start + HDR)
  {
    hide Tiled, Coalesced, Carve, AllocLayout, Need;
    var need := Need(request);
    var i := FirstFit(bs, need);
    AllocKeeps(bs, end, need);
    if i < |bs| {
      LivePointer(AllocLayout(bs, need), end, Carve(bs[i], need)[0]);
      assert Sized(bs[i]) by { assert bs[i] in bs; }
      LowestFits(bs, end, need);
      assert Fits(bs[i], need) && bs[i] in bs;
    }
  }

  lemma LowestFits(bs: seq<Block>, end: nat, need: nat)
    requires Tiled(bs, 0, end)
    ensures var i := FirstFit(bs, need);
            forall b | b in bs && Fits(b, need) :: i < |bs| && bs[i].start <= b.start
  {
    TiledOrdered(bs, 0, end);
    var i := FirstFit(bs, need);
    forall b | b in bs && Fits(b, need) ensures i < |bs| && bs[i].start <= b.start {
      var j :| 0 <= j < |bs| && bs[j] == b;
      assert i <= j;
      assert i < j ==> bs[i].end <= bs[j].start;
    }
  }

  lemma FreeMeaning(bs: seq<Block>, end: nat, p: nat)
    requires WellFormed(bs, end) && IsLive(bs, p)
    ensures WellFormed(Free(bs, p), end)
    ensures Live(Free(bs, p)) == Live(bs) - {Owner(bs, p)}
  {
    FreeKeeps(bs, end, IndexOf(bs, p - HDR));
  }

  /** Freeing what was just allocated restores the whole layout. */
  lemma FreeUndoesAlloc(bs: seq<Block>, end: nat, capacity: nat, request: nat)
    requires WellFormed(bs, end) && Alloc(bs, capacity, request).1.Some?
    ensures var (bs', p) := Alloc(bs, capacity, request);
            IsLive(bs', p.value) && Free(bs', p.value) == bs
  {
    AllocMeaning(bs, end, capacity, request);
    var (bs', p) := Alloc(bs, capacity, request);
    FreeMeaning(bs', end, p.value);
    assert Live(Free(bs', p.value)) == Live(bs);
    Canonical(Free(bs', p.value), bs, 0, end);
  }

  /** Freeing one block leaves every other live pointer as it was. */
  lemma FreeOther(bs: seq<Block>, end: nat, p: nat, q: nat)
    requires WellFormed(bs, end) && IsLive(bs, p) && IsLive(bs, q) && p != q
    ensures IsLive(Free(bs, p), q) && Owner(Free(bs, p), q) == Owner(bs, q)
    ensures PayloadSize(Free(bs, p), q) == PayloadSize(bs, q)
  {
    FreeMeaning(bs, end, p);
    LivePointer(Free(bs, p), end, Owner(bs, q));
  }

  lemma FreeBoth(bs: seq<Block>, end: nat, p: nat, q: nat)
    requires WellFormed(bs, end) && IsLive(bs, p) && IsLive(bs, q) && p != q
    ensures IsLive(Free(bs, p), q) && WellFormed(Free(Free(bs, p), q), end)
    ensures Live(Free(Free(bs, p), q)) == Live(bs) - {Owner(bs, p), Owner(bs, q)}
  {
    FreeOther(bs, end, p, q);
    FreeMeaning(bs, end, p);
    FreeMeaning(Free(bs, p), end, q);
  }

  /** The order in which two blocks are freed does not matter. */
  lemma FreesCommute(bs: seq<Block>, end: nat, p: nat, q: nat)
    requires WellFormed(bs, end) && IsLive(bs, p) && IsLive(bs, q) && p != q
    ensures IsLive(Free(bs, p), q) && IsLive(Free(bs, q), p)
    ensures Free(Free(bs, p), q) == Free(Free(bs, q), p)
  {
    hide Placed, Coalesced, Live, FreeLayout;
    FreeBoth(bs, end, p, q);
    FreeBoth(bs, end, q, p);
    SameLayout(Free(Free(bs, p), q), Free(Free(bs, q), p), end);
  }

  lemma SameLayout(a: seq<Block>, b: seq<Block>, end: nat)
    requires WellFormed(a, end) && WellFormed(b, end) && Live(a) == Live(b)
    ensures a == b
  {
    Canonical(a, b, 0, end);
  }

  lemma ShrinkMeaning(bs: seq<Block>, end: nat, p: nat, size: nat)
    requires WellFormed(bs, end) && IsLive(bs, p) && size > 0 && size % ALIGN == 0
    requires size + HDR + MIN < PayloadSize(bs, p)
    ensures var bs' := ShrinkLayout(bs, IndexOf(bs, p - HDR), size);
            && WellFormed(bs', end) && IsLive(bs', p) && PayloadSize(bs', p) == size
            && Live(bs') == Live(bs) - {Owner(bs, p)} + {Owner(bs', p)}
            && Owner(bs', p) !in Live(bs)
  {
    hide Tiled, Coalesced, Sized, ShrinkLayout;
    var i := IndexOf(bs, p - HDR);
    ShrinkKeeps(bs, end, i, size);
    var short := Block(bs[i].start, bs[i].start + HDR + size, true);
    LivePointer(ShrinkLayout(bs, i, size), end, short);
    if short in Live(bs) { LivePointer(bs, end, short); }
  }

  /** Allocating a second block and freeing the first: the first is still live in between. */
  lemma MoveMeaning(bs: seq<Block>, end: nat, capacity: nat, p: nat, size: nat)
    requires WellFormed(bs, end) && IsLive(bs, p) && 0 < Align(size) <= capacity
    requires Alloc(bs, capacity, size).1.Some?
    ensures var (bs1, q) := Alloc(bs, capacity, size);
            && IsLive(bs1, p) && IsLive(bs1, q.value) && q.value != p
            && var bs' := Free(bs1, p);
            && WellFormed(bs', end) && IsLive(bs', q.value) && PayloadSize(bs', q.value) >= size
            && Live(bs') == Live(bs) - {Owner(bs, p)} + {Owner(bs', q.value)}
            && Owner(bs', q.value) !in Live(bs)
  {
    hide Tiled, Coalesced, FirstFit, AllocLayout, FreeLayout, Sized, Carve, Alloc;
    AllocMeaning(bs, end, capacity, size);
    var (bs1, q) := Alloc(bs, capacity, size);
    LivePointer(bs1, end, Owner(bs, p));
    assert q.value != p;
    FreeMeaning(bs1, end, p);
    FreeOther(bs1, end, p, q.value);
  }

  /** rt_smem_realloc: the block either stays at its address with the new size, or moves; every
      other used block stays, and a failed call changes nothing. */
  lemma ReallocMeaning(bs: seq<Block>, end: nat, capacity: nat, p: nat, newsize: nat)
    requires WellFormed(bs, end) && IsLive(bs, p) && newsize > 0
    ensures var (bs', q) := Realloc(bs, capacity, Some(p), newsize);
            && WellFormed(bs', end)
            && (q.None? ==> bs' == bs)
            && (q.Some? ==>
                  && IsLive(bs', q.value) && PayloadSize(bs', q.value) >= newsize
                  && Live(bs') == Live(bs) - {Owner(bs, p)} + {Owner(bs', q.value)}
                  && Owner(bs', q.value) !in Live(bs) - {Owner(bs, p)})
  {
    hide Tiled, Coalesced, FirstFit, AllocLayout, FreeLayout, Sized, Carve, Alloc, ShrinkLayout;
    var size := Align(newsize);
    if size <= capacity && PayloadSize(bs, p) != size {
      if size + HDR + MIN < PayloadSize(bs, p) {
        ShrinkMeaning(bs, end, p, size);
      } else {
        AllocMeaning(bs, end, capacity, size);
        if Alloc(bs, capacity, size).1.Some? { MoveMeaning(bs, end, capacity, p, size); }
      }
    }
  }

  /** The block can stay: it has the size asked for, or room behind it for a block to be split off. */
  predicate Keeps(bs: seq<Block>, p: nat, size: nat)
    requires IsLive(bs, p)
  {
    PayloadSize(bs, p) == size || size + HDR + MIN < PayloadSize(bs, p)
  }

  /** rt_smem_realloc keeps a block where it is exactly when it can stay, and fails exactly when it cannot and no free
      block fits, even if the block it has is large enough. */
  lemma ReallocExactly(bs: seq<Block>, end: nat, capacity: nat, p: nat, newsize: nat)
    requires WellFormed(bs, end) && IsLive(bs, p) && newsize > 0
    ensures var size := Align(newsize); var q := Realloc(bs, capacity, Some(p), newsize).1;
            && (q == Some(p) <==> size <= capacity && Keeps(bs, p, size))
            && (q == None <==> size > capacity || (!Keeps(bs, p, size) && forall b | b in bs :: !Fits(b, Need(newsize))))
  {
    hide Tiled, Coalesced, FirstFit, AllocLayout, FreeLayout, Sized, Carve, Alloc, ShrinkLayout;
    var size := Align(newsize);
    if size <= capacity && !Keeps(bs, p, size) {
      AlignAgain(newsize);
      AllocMeaning(bs, end, capacity, size);
      if Alloc(bs, capacity, size).1.Some? { MoveMeaning(bs, end, capacity, p, size); }
    }
  }

  lemma AlignAgain(n: nat)
    ensures Align(Align(n)) == Align(n) && Need(Align(n)) == Need(n)
  {
  }

  /** A heap of 100 bytes, all of it in one block: it cannot be cut down by a word. */
  lemma CutRefused()
    ensures var bs := Alloc(Fresh(112), 100, 100).0;
            && Alloc(Fresh(112), 100, 100).1 == Some(12) && IsLive(bs, 12) && PayloadSize(bs, 12) == 100
            && Realloc(bs, 100, Some(12), 96) == (bs, None)
  {
    var b := Block(0, 112, false);
    assert FirstFit(Fresh(112), 100) == 0;
    var bs := Alloc(Fresh(112), 100, 100).0;
    assert bs == [Block(0, 112, true)];
    assert bs[1..] == [];
    assert FirstFit(bs, 96) == 1;
  }

  /** The granted block is cut from a free one at the same place: to the size asked for if a block can be left behind it,
      else it is taken whole. */
  lemma AllocSize(bs: seq<Block>, end: nat, capacity: nat, request: nat) returns (i: nat)
    requires WellFormed(bs, end) && Alloc(bs, capacity, request).1.Some?
    ensures var (bs', p) := Alloc(bs, capacity, request); var need := Need(request);
            && i < |bs| && !bs[i].used && bs[i].start + HDR == p.value && IsLive(bs', p.value)
            && PayloadSize(bs', p.value) == if bs[i].end - p.value >= need + HDR + MIN then need else bs[i].end - p.value
  {
    hide Tiled, Coalesced, AllocLayout, Sized;
    i := FirstFit(bs, Need(request));
    AllocKeeps(bs, end, Need(request));
    LivePointer(AllocLayout(bs, Need(request)), end, Carve(bs[i], Need(request))[0]);
  }

  /** A block that is cut down keeps just the size asked for; any other result wastes less than a block. */
  lemma ReallocSize(bs: seq<Block>, end: nat, capacity: nat, p: nat, newsize: nat)
    requires WellFormed(bs, end) && IsLive(bs, p) && newsize > 0 && Realloc(bs, capacity, Some(p), newsize).1.Some?
    ensures var (bs', q) := Realloc(bs, capacity, Some(p), newsize);
            && IsLive(bs', q.value)
            && (q == Some(p) ==> PayloadSize(bs', p) == Align(newsize))
            && Align(newsize) <= PayloadSize(bs', q.value) < Need(newsize) + HDR + MIN
  {
    hide Tiled, Coalesced, FirstFit, AllocLayout, FreeLayout, Sized, Carve, Alloc, ShrinkLayout;
    var size := Align(newsize);
    AlignAgain(newsize);
    if PayloadSize(bs, p) != size {
      if size + HDR + MIN < PayloadSize(bs, p) {
        ShrinkMeaning(bs, end, p, size);
      } else {
        AllocMeaning(bs, end, capacity, size);
        if Alloc(bs, capacity, size).1.Some? {
          MoveMeaning(bs, end, capacity, p, size);
          var i := AllocSize(bs, end, capacity, size);
          var (bs1, q) := Alloc(bs, capacity, size);
          FreeOther(bs1, end, p, q.value);
        }
      }
    }
  }

  // ---- All runs ----------------------------------------------------------------------------

  datatype Call = AllocCall(request: nat) | FreeCall(p: nat) | ReallocCall(ptr: Option<nat>, newsize: nat)

  /** A caller frees and reallocates only what it was given. */
  predicate Allowed(bs: seq<Block>, c: Call) {
    match c
    case AllocCall(_) => true
    case FreeCall(p) => IsLive(bs, p)
    case ReallocCall(ptr, _) => ptr.Some? ==> IsLive(bs, ptr.value)
  }

  function Apply(bs: seq<Block>, capacity: nat, c: Call): seq<Block>
    requires Allowed(bs, c)
  {
    match c
    case AllocCall(request) => Alloc(bs, capacity, request).0
    case FreeCall(p) => Free(bs, p)
    case ReallocCall(ptr, newsize) => Realloc(bs, capacity, ptr, newsize).0
  }

  ghost predicate Run(states: seq<seq<Block>>, capacity: nat, calls: seq<Call>) {
    && |states| == |calls| + 1
    && (forall k | 0 <= k < |calls| ::
          Allowed(states[k], calls[k]) && states[k + 1] == Apply(states[k], capacity, calls[k]))
  }

  lemma ApplyKeeps(bs: seq<Block>, end: nat, capacity: nat, c: Call)
    requires WellFormed(bs, end) && Allowed(bs, c)
    ensures WellFormed(Apply(bs, capacity, c), end)
  {
    hide Tiled, Coalesced, FirstFit, AllocLayout, FreeLayout, Sized, ShrinkLayout;
    match c
    case AllocCall(request) =>
      if request > 0 && Align(request) <= capacity { AllocMeaning(bs, end, capacity, request); }
    case FreeCall(p) => FreeMeaning(bs, end, p);
    case ReallocCall(ptr, newsize) =>
      if ptr.Some? {
        if newsize > 0 { ReallocMeaning(bs, end, capacity, ptr.value, newsize); }
        else { FreeMeaning(bs, end, ptr.value); }
      } else if 0 < Align(newsize) <= capacity {
        AllocMeaning(bs, end, capacity, Align(newsize));
      }
  }

  /** The heap right after rt_smem_init: one free block. */
  function Fresh(end: nat): seq<Block> {
    [Block(0, end, false)]
  }

  lemma FreshWellFormed(end: nat)
    requires end % ALIGN == 0 && end >= HDR
    ensures WellFormed(Fresh(end), end) && Live(Fresh(end)) == {}
  {
    assert Fresh(end)[1..] == [];
  }

  lemma {:induction false} RunKeeps(states: seq<seq<Block>>, end: nat, capacity: nat, calls: seq<Call>)
    requires Run(states, capacity, calls) && WellFormed(states[0], end)
    ensures forall k | 0 <= k < |states| :: WellFormed(states[k], end)
  {
    if calls != [] {
      var n := |calls| - 1;
      assert Run(states[..n + 1], capacity, calls[..n]);
      RunKeeps(states[..n + 1], end, capacity, calls[..n]);
      assert WellFormed(states[..n + 1][n], end);
      ApplyKeeps(states[n], end, capacity, calls[n]);
      forall k | 0 <= k < |states| ensures WellFormed(states[k], end) {
        if k <= n { assert states[k] == states[..n + 1][k]; }
      }
    }
  }

  /** Whatever was allocated, freed and reallocated in whatever order: the layout depends only on
      what is in use now. In particular, once everything is freed, the heap is as it was at first. */
  lemma HistoryIndependent(s: seq<seq<Block>>, t: seq<seq<Block>>, end: nat, capacity: nat,
                           sCalls: seq<Call>, tCalls: seq<Call>)
    requires end % ALIGN == 0 && end >= HDR
    requires Run(s, capacity, sCalls) && s[0] == Fresh(end)
    requires Run(t, capacity, tCalls) && t[0] == Fresh(end)
    ensures Live(s[|sCalls|]) == Live(t[|tCalls|]) ==> s[|sCalls|] == t[|tCalls|]
    ensures Live(s[|sCalls|]) == {} ==> s[|sCalls|] == Fresh(end)
  {
    FreshWellFormed(end);
    RunKeeps(s, end, capacity, sCalls);
    RunKeeps(t, end, capacity, tCalls);
    if Live(s[|sCalls|]) == Live(t[|tCalls|]) {
      Canonical(s[|sCalls|], t[|tCalls|], 0, end);
    }
    if Live(s[|sCalls|]) == {} {
      Canonical(s[|sCalls|], Fresh(end), 0, end);
    }
  }
}
