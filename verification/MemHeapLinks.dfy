/** How the memory heap (memheap.c) links its items: all blocks and the tail in address order, and the free ones. */
module MemHeapLinks {
  import opened Basics
  import opened Requests
  import opened Tiling
  import opened Rings
  import opened MemHeapSpec
  import opened MemHeapTheory
  import WaitQueue

  /** The address of free_header, which lies outside the pool. */
  const FREE: Addr := -1

  /** The items in address order. */
  function Starts(bs: seq<Block>): (s: seq<Addr>)
    ensures |s| == |bs|
    ensures forall i | 0 <= i < |bs| :: s[i] == bs[i].start
  {
    seq(|bs|, i requires 0 <= i < |bs| => bs[i].start)
  }

  function Items(bs: seq<Block>, end: nat): seq<Addr> {
    Starts(bs) + [end]
  }

  function FreeItems(free: seq<nat>): seq<Addr> {
    [FREE] + free
  }

  ghost predicate Marks(used: map<Addr, bool>, bs: seq<Block>, end: nat) {
    && (forall i | 0 <= i < |bs| :: bs[i].start in used && used[bs[i].start] == bs[i].used)
    && end in used && used[end]
  }

  lemma ItemsFacts(next: Links, prev: Links, bs: seq<Block>, end: nat, i: nat)
    requires Ring(next, prev, Items(bs, end)) && Tiled(bs, 0, end) && i < |bs|
    ensures bs[i].start in next && next[bs[i].start] == bs[i].end
    ensures bs[i].start in prev && prev[bs[i].start] == if i == 0 then end else bs[i - 1].start
    ensures Items(bs, end)[i] == bs[i].start && |Items(bs, end)| == |bs| + 1
    ensures i + 1 < |bs| ==> bs[i].end == bs[i + 1].start
    ensures 0 <= bs[i].start < bs[i].end <= end && (i + 1 == |bs| ==> bs[i].end == end)
  {
    TiledOrdered(bs, 0, end);
    var c := Items(bs, end);
    assert c[i] == bs[i].start && c[i + 1] == bs[i].end;
    assert After(c, i) == c[i + 1];
    assert Before(c, i) == if i == 0 then end else bs[i - 1].start;
  }

  lemma NotAnItem(bs: seq<Block>, end: nat, i: nat, cut: nat)
    requires Tiled(bs, 0, end) && i < |bs| && bs[i].start < cut < bs[i].end
    ensures cut !in Items(bs, end)
  {
    TiledOrdered(bs, 0, end);
    var c := Items(bs, end);
    forall j | 0 <= j < |c| ensures c[j] != cut {
      if j < i { assert c[j] == bs[j].start && bs[j].end <= bs[i].start; }
      if i < j < |bs| { assert c[j] == bs[j].start && bs[i].end <= bs[j].start; }
    }
  }

  /** Block `i` in two, at `cut`. */
  function Split(bs: seq<Block>, i: nat, cut: nat): seq<Block>
    requires i < |bs|
  {
    Splice(bs, i, i + 1, [Block(bs[i].start, cut, bs[i].used), Block(cut, bs[i].end, false)])
  }

  function Mark(bs: seq<Block>, i: nat, used: bool): seq<Block>
    requires i < |bs|
  {
    bs[i := bs[i].(used := used)]
  }

  lemma SplitItems(bs: seq<Block>, end: nat, i: nat, cut: nat)
    requires Tiled(bs, 0, end) && i < |bs| && bs[i].start < cut < bs[i].end
    ensures Tiled(Split(bs, i, cut), 0, end)
    ensures Items(Split(bs, i, cut), end) == InsertBehind(Items(bs, end), i, cut)
  {
    var mid := [Block(bs[i].start, cut, bs[i].used), Block(cut, bs[i].end, false)];
    assert mid[1..] == [mid[1]] && mid[1..][1..] == [];
    TiledSplice(bs, i, i + 1, mid, 0, end);
  }

  lemma JoinItems(bs: seq<Block>, end: nat, i: nat)
    requires Tiled(bs, 0, end) && i + 1 < |bs|
    ensures Tiled(Join(bs, i), 0, end)
    ensures Items(Join(bs, i), end) == RemoveAt(Items(bs, end), i + 1)
  {
    hide Tiled;
    TiledOrdered(bs, 0, end);
    assert bs[i].end <= bs[i + 1].start;
    OneTiled(Block(bs[i].start, bs[i + 1].end, bs[i].used));
    TiledSplice(bs, i, i + 2, [Block(bs[i].start, bs[i + 1].end, bs[i].used)], 0, end);
    JoinStarts(bs, end, i);
  }

  lemma JoinStarts(bs: seq<Block>, end: nat, i: nat)
    requires i + 1 < |bs|
    ensures Items(Join(bs, i), end) == RemoveAt(Items(bs, end), i + 1)
  {
    var one := Block(bs[i].start, bs[i + 1].end, bs[i].used);
    assert Join(bs, i) == bs[..i] + [one] + bs[i + 2..];
    assert Starts(Join(bs, i)) == Starts(bs)[..i + 1] + Starts(bs)[i + 2..];
  }

  lemma MarkItems(bs: seq<Block>, end: nat, i: nat, used: bool)
    requires Tiled(bs, 0, end) && i < |bs|
    ensures Tiled(Mark(bs, i, used), 0, end)
    ensures Items(Mark(bs, i, used), end) == Items(bs, end)
  {
    hide Tiled;
    TiledOrdered(bs, 0, end);
    OneTiled(Block(bs[i].start, bs[i].end, used));
    TiledSplice(bs, i, i + 1, [bs[i].(used := used)], 0, end);
    MarkIsSplice(bs, i, used);
    MarkStarts(bs, i, used);
  }

  lemma MarkIsSplice(bs: seq<Block>, i: nat, used: bool)
    requires i < |bs|
    ensures Mark(bs, i, used) == Splice(bs, i, i + 1, [bs[i].(used := used)])
  {
  }

  lemma MarkStarts(bs: seq<Block>, i: nat, used: bool)
    requires i < |bs|
    ensures Starts(Mark(bs, i, used)) == Starts(bs)
  {
  }

  lemma MarksSplit(used: map<Addr, bool>, bs: seq<Block>, end: nat, i: nat, cut: nat)
    requires Marks(used, bs, end) && Tiled(bs, 0, end) && i < |bs| && bs[i].start < cut < bs[i].end
    ensures Marks(used[cut := false], Split(bs, i, cut), end)
  {
    NotAnItem(bs, end, i, cut);
    var r, c := Split(bs, i, cut), Items(bs, end);
    forall x | 0 <= x < |r| ensures r[x].start in used[cut := false] && used[cut := false][r[x].start] == r[x].used {
      if x != i + 1 {
        var y := if x <= i then x else x - 1;
        assert r[x].start == bs[y].start == c[y] && r[x].used == bs[y].used;
      }
    }
    assert c[|bs|] == end;
  }

  lemma MarksJoin(used: map<Addr, bool>, bs: seq<Block>, end: nat, i: nat)
    requires Marks(used, bs, end) && i + 1 < |bs|
    ensures Marks(used, Join(bs, i), end)
  {
    var r := Join(bs, i);
    assert forall x | 0 <= x < |r| :: var y := if x <= i then x else x + 1;
                                      r[x].start == bs[y].start && r[x].used == bs[y].used;
  }

  lemma MarksMark(used: map<Addr, bool>, bs: seq<Block>, end: nat, i: nat, u: bool)
    requires Marks(used, bs, end) && Tiled(bs, 0, end) && i < |bs|
    ensures Marks(used[bs[i].start := u], Mark(bs, i, u), end)
  {
    TiledOrdered(bs, 0, end);
    assert forall j | 0 <= j < |bs| && j != i :: bs[j].start != bs[i].start;
  }

  // ---- The free list -------------------------------------------------------------------------

  lemma FreeFirst(next: Links, prev: Links, free: seq<nat>)
    requires Ring(next, prev, FreeItems(free))
    ensures FREE in next && next[FREE] == if free == [] then FREE else free[0]
  {
    var c := FreeItems(free);
    assert c[0] == FREE && next[c[0]] == After(c, 0);
  }

  lemma FreeNext(next: Links, prev: Links, free: seq<nat>, k: nat)
    requires Ring(next, prev, FreeItems(free)) && k < |free|
    ensures free[k] in next && free[k] in prev && next[free[k]] == if k + 1 < |free| then free[k + 1] else FREE
  {
    var c := FreeItems(free);
    assert c[k + 1] == free[k];
    assert next[c[k + 1]] == After(c, k + 1);
  }

  lemma PushRing(next: Links, prev: Links, free: seq<nat>, x: nat)
    requires Ring(next, prev, FreeItems(free)) && x !in free
    ensures FREE in next
    ensures Ring(InsertNext(next, FREE, x), InsertPrev(next, prev, FREE, x), FreeItems([x] + free))
  {
    var c := FreeItems(free);
    assert c[0] == FREE && next[c[0]] == After(c, 0);
    RingInsert(next, prev, c, 0, x);
    assert InsertBehind(c, 0, x) == FreeItems([x] + free);
  }

  lemma DropRing(next: Links, prev: Links, free: seq<nat>, x: nat)
    requires Ring(next, prev, FreeItems(free)) && x in free
    ensures x in next && x in prev
    ensures Ring(RemoveNext(next, prev, x), RemovePrev(next, prev, x), FreeItems(WaitQueue.Without(free, x)))
  {
    hide RemoveNext, RemovePrev, Ring;
    var c := FreeItems(free);
    var k :| 0 <= k < |free| && free[k] == x;
    assert c[k + 1] == x;
    RingRemove(next, prev, c, k + 1);
    FreeDistinct(next, prev, free);
    WaitQueue.WithoutAt(free, k);
    assert RemoveAt(c, k + 1) == FreeItems(free[..k] + free[k + 1..]);
  }

  lemma FreeDistinct(next: Links, prev: Links, free: seq<nat>)
    requires Ring(next, prev, FreeItems(free))
    ensures Distinct(free)
  {
    forall i, j | 0 <= i < j < |free| ensures free[i] != free[j] {
      assert FreeItems(free)[i + 1] != FreeItems(free)[j + 1];
    }
  }
}
