/** The search loop of rt_smem_alloc (mem.c), on unsigned 32-bit numbers: when it ends, and where. */
module SmallWalk {
  import opened Basics
  import opened Requests
  import opened Tiling
  import opened SmallHeapSpec

  /** mem_size_aligned - size, which wraps around when the request is raised above the size of the heap. */
  function Bound(capacity: nat, need: nat): nat {
    (capacity - need) % WRAP
  }

  datatype Where = At(item: nat) | Found(item: nat) | Left

  /** One turn of the loop, at an item of the layout, or at the end stub behind them, which is followed by itself. */
  function Turn(bs: seq<Block>, end: nat, need: nat, bound: nat, i: nat): Where
    requires i <= |bs|
  {
    if StartOf(bs, i, end) > bound then Left
    else if i < |bs| && Fits(bs[i], need) then Found(i)
    else At(if i < |bs| then i + 1 else i)
  }

  function Turns(bs: seq<Block>, end: nat, need: nat, bound: nat, i: nat, n: nat): Where
    requires i <= |bs|
    decreases n
  {
    if n == 0 then At(i)
    else
      var w := Turn(bs, end, need, bound, i);
      if w.At? then Turns(bs, end, need, bound, w.item, n - 1) else w
  }

  ghost predicate Ends(bs: seq<Block>, end: nat, need: nat, bound: nat, i: nat)
    requires i <= |bs|
  {
    exists n :: !Turns(bs, end, need, bound, i, n).At?
  }

  /** What a caller can check: nothing or too much is asked for, or the heap holds the least request. */
  predicate Returns(capacity: nat, request: nat) {
    request == 0 || Align(request) > capacity || capacity >= MIN
  }

  /** A search that is begun ends exactly when the call returns by this check. */
  lemma WalkEnds(bs: seq<Block>, end: nat, capacity: nat, request: nat)
    requires WellFormed(bs, end) && end == capacity + HDR < WRAP && request > 0 && Align(request) <= capacity
    ensures Ends(bs, end, Need(request), Bound(capacity, Need(request)), FirstFree(bs)) <==> Returns(capacity, request)
  {
    var need := Need(request);
    if capacity >= MIN {
      var n := WalkFinds(bs, end, capacity, need, FirstFree(bs));
    } else {
      forall n ensures Turns(bs, end, need, Bound(capacity, need), FirstFree(bs), n).At? {
        WalkSpins(bs, end, capacity, need, FirstFree(bs), n);
      }
    }
  }

  /** It ends where first fit says. */
  lemma {:induction false} WalkFinds(bs: seq<Block>, end: nat, capacity: nat, need: nat, i: nat) returns (n: nat)
    requires WellFormed(bs, end) && end == capacity + HDR < WRAP && need <= capacity && i <= |bs|
    requires forall j | 0 <= j < i :: !Fits(bs[j], need)
    ensures var k := FirstFit(bs, need);
            Turns(bs, end, need, Bound(capacity, need), i, n) == if k < |bs| then Found(k) else Left
    decreases |bs| - i
  {
    hide Tiled, Coalesced;
    if StartOf(bs, i, end) > Bound(capacity, need) || (i < |bs| && Fits(bs[i], need)) {
      n := 1;
      if i < |bs| && StartOf(bs, i, end) > Bound(capacity, need) { NoneFurther(bs, end, i, need); }
    } else {
      n := WalkFinds(bs, end, capacity, need, i + 1);
      n := n + 1;
    }
  }

  /** A block that starts too late cannot fit, nor can any after it. */
  lemma NoneFurther(bs: seq<Block>, end: nat, i: nat, need: nat)
    requires Placed(bs, end) && i <= |bs| && StartOf(bs, i, end) + HDR + need > end
    ensures forall x | i <= x < |bs| :: !Fits(bs[x], need)
  {
    TiledOrdered(bs, 0, end);
    forall x | i <= x < |bs| ensures !Fits(bs[x], need) {
      assert i < x ==> bs[i].end <= bs[x].start;
    }
  }

  /** In a heap smaller than the request is raised to, the bound has wrapped around, and the search stays at the stub. */
  lemma {:induction false} WalkSpins(bs: seq<Block>, end: nat, capacity: nat, need: nat, i: nat, n: nat)
    requires WellFormed(bs, end) && end == capacity + HDR && capacity < need <= MIN && i <= |bs|
    ensures Turns(bs, end, need, Bound(capacity, need), i, n).At?
    decreases n
  {
    hide Tiled, Coalesced;
    if n > 0 {
      assert StartOf(bs, i, end) <= end && (i < |bs| ==> bs[i].end <= end) by { InHeap(bs, end, i); }
      WalkSpins(bs, end, capacity, need, if i < |bs| then i + 1 else i, n - 1);
    }
  }

  lemma InHeap(bs: seq<Block>, end: nat, i: nat)
    requires Placed(bs, end) && i <= |bs|
    ensures StartOf(bs, i, end) <= end && (i < |bs| ==> bs[i].end <= end)
  {
    TiledOrdered(bs, 0, end);
  }

  /** A heap of 8 bytes, as rt_smem_init sets it up, does not return from a request of 4. */
  lemma SmallestHang(n: nat)
    ensures var bs := [Block(0, 20, false)];
            WellFormed(bs, 20) && !Returns(8, 4) && Turns(bs, 20, Need(4), Bound(8, Need(4)), FirstFree(bs), n).At?
  {
    var bs := [Block(0, 20, false)];
    assert bs[1..] == [];
    WalkSpins(bs, 20, 8, 12, 0, n);
  }
}
