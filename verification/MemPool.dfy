/** The memory pool (mempool.c): fixed-size blocks, with a free list through their headers. */
module MemPool {
  import opened Basics
  import opened WaitQueue
  import opened NodeChain
  import opened MemPoolSpec
  import opened Numbers
  import opened Requests

  /** RT_ALIGN_DOWN(n, 4). */
  function AlignDown(n: nat): nat {
    n / 4 * 4
  }

  /** The distance of two headers, and block_total_count. */
  function Stride(blockSize: nat): nat {
    Align(blockSize) + 4
  }

  function Total(size: nat, blockSize: nat): nat {
    AlignDown(size) / Stride(blockSize)
  }

  /** Where block `n` starts: its header, with its payload behind it. */
  function Start(n: Node, blockSize: nat): nat {
    n * Stride(blockSize)
  }

  /** Blocks neither overlap nor run over the end of the pool. */
  lemma BlocksApart(a: Node, b: Node, blockSize: nat, size: nat)
    ensures a < b ==> Start(a, blockSize) + 4 + blockSize <= Start(b, blockSize)
    ensures b < Total(size, blockSize) ==> Start(b, blockSize) + 4 + blockSize <= size
  {
    var n, k := AlignDown(size), Stride(blockSize);
    hide AlignDown, Stride;
    AlignedSizes(size, blockSize);
    Quotient(n, k);
    Scale(a + 1, b, k);
    Scale(b + 1, n / k, k);
    assert (a + 1) * k == Start(a, blockSize) + k;
    assert (b + 1) * k == Start(b, blockSize) + k;
  }

  // ---- The writes of rt_mp_init ----------------------------------------------------------------

  /** Where header `offset` is written, on unsigned 32-bit numbers; the last write is for `offset - 1`. */
  function HeaderAt(start: nat, offset: int, blockSize: nat): nat {
    (start + offset % WRAP * Stride(blockSize)) % WRAP
  }

  predicate InPool(start: nat, size: nat, a: nat) {
    start <= a && a + 4 <= start + size
  }

  lemma HoldsOne(size: nat, blockSize: nat)
    ensures Total(size, blockSize) >= 1 <==> Stride(blockSize) <= AlignDown(size)
  {
    var n, k := AlignDown(size), Stride(blockSize);
    hide AlignDown, Stride;
    AlignedSizes(size, blockSize);
    Quotient(n, k);
    Scale(1, n / k, k);
    Scale(n / k, 0, k);
  }

  /** All headers are written inside the pool if and only if it holds a block; else the last write goes to where a
      block in front of the pool would start. */
  lemma WritesInPool(start: nat, size: nat, blockSize: nat)
    requires size > 0 && start + size <= WRAP && Stride(blockSize) + size < WRAP
    ensures var total := Total(size, blockSize);
            && (InPool(start, size, HeaderAt(start, total - 1, blockSize))
                && (forall i | 0 <= i < total :: InPool(start, size, HeaderAt(start, i, blockSize)))
                <==> Stride(blockSize) <= AlignDown(size))
            && (AlignDown(size) < Stride(blockSize) ==>
                  HeaderAt(start, total - 1, blockSize) == (start - Stride(blockSize)) % WRAP)
  {
    var total, k := Total(size, blockSize), Stride(blockSize);
    HoldsOne(size, blockSize);
    if total == 0 {
      InFront(start, k);
    } else {
      forall i: nat | i < total ensures InPool(start, size, HeaderAt(start, i, blockSize)) {
        HeaderInPool(start, size, blockSize, i);
      }
    }
  }

  lemma InFront(start: nat, k: nat)
    requires 0 < k < WRAP && start < WRAP
    ensures (start + (-1) % WRAP * k) % WRAP == (start - k) % WRAP
  {
    assert (-1) % WRAP == WRAP - 1;
    assert start + (WRAP - 1) * k == start - k + WRAP * k;
    Wraps(start - k, k);
  }

  lemma Wraps(n: int, k: int)
    ensures (n + WRAP * k) % WRAP == n % WRAP
  {
  }

  lemma HeaderInPool(start: nat, size: nat, blockSize: nat, i: nat)
    requires start + size <= WRAP && i < Total(size, blockSize)
    ensures InPool(start, size, HeaderAt(start, i, blockSize))
  {
    var n, k := AlignDown(size), Stride(blockSize);
    hide AlignDown, Stride, InPool;
    AlignedSizes(size, blockSize);
    Quotient(n, k);
    Scale(i + 1, n / k, k);
    Scale(1, k, i);
    Inside(start, size, i, i * k, k);
    SmallMod(i);
  }

  lemma AlignedSizes(size: nat, blockSize: nat)
    ensures AlignDown(size) <= size && Stride(blockSize) >= blockSize + 4
  {
  }

  lemma SmallMod(i: nat)
    requires i < WRAP
    ensures i % WRAP == i
  {
  }

  lemma Inside(start: nat, size: nat, i: nat, x: nat, k: nat)
    requires start + size <= WRAP && i <= x && x == i * k && (i + 1) * k <= size && k >= 4
    ensures i < WRAP && x + 4 <= size && InPool(start, size, (start + x) % WRAP)
  {
    assert (i + 1) * k == x + k;
  }

  /** The header of a block in use, which leads rt_mp_free back to the pool. */
  const POOL: int := -2

  class MemPool {
    const link: array<int>         // the headers
    var freeCount: nat
    var list: int
    var wait: Waiters
    ghost var free: seq<Node>
    ghost var taken: set<Node>

    ghost function Value(): Blocks
      reads this
    {
      Blocks(free, taken, wait)
    }

    ghost predicate Valid()
      reads this, link
    {
      && Partition(Value(), link.Length)
      && Chain(link[..], list, free) && freeCount == |free|
      && forall n | n in taken :: n < link.Length && link[n] == POOL
    }

    /** rt_mp_init, when its writes stay in the pool (WritesInPool). */
    constructor (size: nat, blockSize: nat)
      requires Stride(blockSize) <= AlignDown(size)
      ensures Valid() && link.Length == Total(size, blockSize) && taken == {} && wait == NOBODY && fresh(link)
      ensures |free| == Total(size, blockSize) && forall i | 0 <= i < |free| :: free[i] == i
    {
      HoldsOne(size, blockSize);
      var total := AlignDown(size) / (Align(blockSize) + 4);
      link := new int[total](_ => NULL);
      freeCount, list, wait, free, taken := total, 0, NOBODY, seq(total, i => i), {};
      new;
      for offset := 0 to total
        invariant forall i | 0 <= i < offset :: link[i] == i + 1
        invariant list == 0 && freeCount == total && wait == NOBODY && taken == {} && free == seq(total, i => i)
      {
        link[offset] := offset + 1;
      }
      link[total - 1] := NULL;
      UpwardChain(link[..], 0);
      Upward(total);
      assert seq(total, i => 0 + i) == free;
    }

    /** A region of rt_mp_alloc, first or repeated. */
    method Alloc(who: Option<Tid>, time: Wait) returns (o: Outcome)
      requires Valid() && (time != NoWait ==> who.Some?)
      modifies this, link
      ensures Valid() && (Value(), o) == MemPoolSpec.Alloc(old(Value()), who, time)
      ensures o.Block? ==> o.node !in old(taken)
    {
      hide Partition, Chain, Entered;
      ghost var b, was := Value(), link[..];
      ChainFirst(was, list, free);
      wait := Entered(wait, who);
      if freeCount == 0 {
        if time == NoWait {
          SameBlocks(b, Value(), link.Length);
          return Refused;
        }
        wait := Push(wait, who.value, time);
        SameBlocks(b, Value(), link.Length);
        return Blocked;
      }
      TakeFirst(was, b, list);
      freeCount := freeCount - 1;
      var block := list;
      list := link[block];
      link[block] := POOL;
      assert link[..] == was[block := POOL];
      free, taken := free[1..], taken + {block};
      SameBlocks(Blocks(free, taken, b.wait), Value(), link.Length);
      return Block(block);
    }

    /** rt_mp_free of a block in use. */
    method Free(block: Node)
      requires Valid() && block in taken
      modifies this, link
      ensures Valid() && Value() == MemPoolSpec.Free(old(Value()), block)
    {
      hide Partition, Chain, WakeFirst;
      ghost var b, was := Value(), link[..];
      GiveBack(was, b, block, list);
      freeCount := freeCount + 1;
      link[block] := list;
      assert link[..] == was[block := list];
      list := block;
      free, taken := [block] + free, taken - {block};
      wait := WakeFirst(wait);
      SameBlocks(Blocks(free, taken, b.wait), Value(), link.Length);
    }
  }

  lemma {:induction false} UpwardChain(link: seq<int>, from: nat)
    requires from < |link| && link[|link| - 1] == NULL
    requires forall i | 0 <= i < |link| - 1 :: link[i] == i + 1
    ensures Chain(link, from, seq(|link| - from, i => from + i))
    decreases |link| - from
  {
    var q := seq(|link| - from, i => from + i);
    if from + 1 < |link| {
      UpwardChain(link, from + 1);
      assert q[1..] == seq(|link| - (from + 1), i => from + 1 + i);
    } else {
      assert q[1..] == [];
    }
  }

  lemma {:induction false} Upward(total: nat)
    ensures multiset(seq<Node>(total, i => i)) == multiset(Pool(total))
  {
    if total > 0 {
      Upward(total - 1);
      var last: Node := total - 1;
      assert seq<Node>(total, i => i) == seq<Node>(total - 1, i => i) + [last];
      assert multiset(Pool(total)) == multiset(Pool(total - 1)) + multiset{last};
    }
  }

  lemma TakeFirst(link: seq<int>, b: Blocks, list: int)
    requires Partition(b, |link|) && Chain(link, list, b.free) && b.free != []
    ensures var n := b.free[0];
            && n == list && n < |link| && n !in b.taken
            && Chain(link[n := POOL], link[n], b.free[1..])
            && Partition(Blocks(b.free[1..], b.taken + {n}, b.wait), |link|)
  {
    var n := b.free[0];
    NotTaken(b, |link|, n);
    ListDistinct(b.free, multiset(Pool(|link|)));
    ChainFirst(link, list, b.free);
    ChainKept(link, link[n], b.free[1..], n, POOL);
    assert b.free == [n] + b.free[1..];
  }

  lemma GiveBack(link: seq<int>, b: Blocks, n: Node, list: int)
    requires Partition(b, |link|) && Chain(link, list, b.free) && n in b.taken
    ensures n < |link| && n !in b.free && Chain(link[n := list], n, [n] + b.free)
    ensures Partition(Blocks([n] + b.free, b.taken - {n}, b.wait), |link|)
  {
    NotTaken(b, |link|, n);
    ChainPush(link, list, b.free, n);
  }
}
