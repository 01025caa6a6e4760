/**
  Layouts of a heap: a sequence of blocks that tile an address range.

  Both heap allocators of the kernel keep their memory as such a sequence. A layout in which
  no two neighbouring blocks are free is the only such layout with its set of used blocks
  (`Canonical`), so what an operation does to the layout is fixed by what it does to that set.
*/
module Tiling {

  datatype Block = Block(start: nat, end: nat, used: bool)

  ghost predicate Tiled(bs: seq<Block>, lo: nat, hi: nat) {
    if bs == [] then lo == hi
    else bs[0].start == lo && lo < bs[0].end && Tiled(bs[1..], bs[0].end, hi)
  }

  /** No two neighbours are both free: the layout is fully coalesced. */
  ghost predicate Coalesced(bs: seq<Block>) {
    forall i, j | 0 <= i && j == i + 1 && j < |bs| :: bs[i].used || bs[j].used
  }

  /** The blocks follow each other without gap or overlap, in address order. */
  ghost predicate Ordered(bs: seq<Block>, lo: nat, hi: nat) {
    && (forall i | 0 <= i < |bs| :: lo <= bs[i].start < bs[i].end <= hi)
    && (forall i, j | 0 <= i < j < |bs| :: bs[i].end <= bs[j].start)
    && (forall i, j | 0 <= i && j == i + 1 && j < |bs| :: bs[i].end == bs[j].start)
    && (bs != [] ==> bs[0].start == lo && bs[|bs| - 1].end == hi)
  }

  /** The used blocks. */
  ghost function Live(bs: seq<Block>): set<Block> {
    set b | b in bs && b.used
  }

  /** The index of the block that starts at `at`, or the length when there is none. */
  function IndexOf(bs: seq<Block>, at: nat): (i: nat)
    ensures i <= |bs|
    ensures i < |bs| ==> bs[i].start == at
    ensures forall j | 0 <= j < i :: bs[j].start != at
  {
    if bs == [] then 0
    else if bs[0].start == at then 0
    else
      var i := IndexOf(bs[1..], at);
      assert forall j | 0 < j < i + 1 :: bs[j] == bs[1..][j - 1];
      i + 1
  }

  /** The layout with blocks `i` up to `k` replaced by `mid`. */
  function Splice(bs: seq<Block>, i: nat, k: nat, mid: seq<Block>): (r: seq<Block>)
    requires i <= k <= |bs|
    ensures |r| == |bs| - (k - i) + |mid|
  {
    bs[..i] + mid + bs[k..]
  }

  /** Block `i` and the next one in one. */
  function Join(bs: seq<Block>, i: nat): seq<Block>
    requires i + 1 < |bs|
  {
    Splice(bs, i, i + 2, [Block(bs[i].start, bs[i + 1].end, bs[i].used)])
  }

  lemma SpliceAt(bs: seq<Block>, i: nat, k: nat, mid: seq<Block>, x: nat)
    requires i <= k <= |bs| && x < |bs| - (k - i) + |mid|
    ensures Splice(bs, i, k, mid)[x]
         == if x < i then bs[x] else if x < i + |mid| then mid[x - i] else bs[x - |mid| - i + k]
  {
  }

  /** A splice inside, over the right end, and over the left end of what an earlier one put there. */
  lemma SpliceWithin(bs: seq<Block>, i: nat, k: nat, a: seq<Block>, x: nat, y: nat, m: seq<Block>)
    requires i <= k <= |bs| && x <= y <= |a|
    ensures Splice(Splice(bs, i, k, a), i + x, i + y, m) == Splice(bs, i, k, a[..x] + m + a[y..])
  {
    var r := Splice(bs, i, k, a);
    assert r[..i + x] == bs[..i] + a[..x] && r[i + y..] == a[y..] + bs[k..];
  }

  lemma SpliceRight(bs: seq<Block>, i: nat, k: nat, a: seq<Block>, x: nat, z: nat, m: seq<Block>)
    requires i <= k <= |bs| && x <= |a| && k + z <= |bs|
    ensures Splice(Splice(bs, i, k, a), i + x, i + |a| + z, m) == Splice(bs, i, k + z, a[..x] + m)
  {
    var r := Splice(bs, i, k, a);
    assert r[..i + x] == bs[..i] + a[..x] && r[i + |a| + z..] == bs[k + z..];
  }

  lemma SpliceLeft(bs: seq<Block>, i: nat, k: nat, a: seq<Block>, x: nat, y: nat, m: seq<Block>)
    requires i <= k <= |bs| && y <= |a| && x <= i
    ensures Splice(Splice(bs, i, k, a), i - x, i + y, m) == Splice(bs, i - x, k, m + a[y..])
  {
    var r := Splice(bs, i, k, a);
    assert r[..i - x] == bs[..i - x] && r[i + y..] == a[y..] + bs[k..];
  }

  lemma {:induction false} TiledOrdered(bs: seq<Block>, lo: nat, hi: nat)
    requires Tiled(bs, lo, hi)
    ensures Ordered(bs, lo, hi) && lo <= hi
  {
    if bs != [] {
      var t := bs[1..];
      TiledOrdered(t, bs[0].end, hi);
      forall i | 0 <= i < |bs| ensures i == 0 || bs[i] == t[i - 1] {
      }
      assert t == [] ==> bs[0].end == hi;
    }
  }

  lemma {:induction false} TiledConcat(a: seq<Block>, b: seq<Block>, lo: nat, mid: nat, hi: nat)
    requires Tiled(a, lo, mid) && Tiled(b, mid, hi)
    ensures Tiled(a + b, lo, hi)
  {
    if a == [] {
      assert a + b == b;
    } else {
      assert (a + b)[1..] == a[1..] + b;
      TiledConcat(a[1..], b, a[0].end, mid, hi);
    }
  }

  lemma {:induction false} TiledCut(bs: seq<Block>, i: nat, lo: nat, hi: nat)
    requires Tiled(bs, lo, hi) && i < |bs|
    ensures Tiled(bs[..i], lo, bs[i].start) && Tiled(bs[i..], bs[i].start, hi)
  {
    if i > 0 {
      TiledCut(bs[1..], i - 1, bs[0].end, hi);
      assert bs[..i][1..] == bs[1..][..i - 1];
      assert bs[i..] == bs[1..][i - 1..];
    } else {
      assert bs[i..] == bs;
    }
  }

  lemma TiledSplice(bs: seq<Block>, i: nat, k: nat, mid: seq<Block>, lo: nat, hi: nat)
    requires Tiled(bs, lo, hi) && i < k <= |bs|
    requires Tiled(mid, bs[i].start, bs[k - 1].end)
    ensures Tiled(Splice(bs, i, k, mid), lo, hi)
  {
    TiledOrdered(bs, lo, hi);
    TiledCut(bs, i, lo, hi);
    if k < |bs| {
      TiledCut(bs, k, lo, hi);
      assert bs[k - 1].end == bs[k].start;
    } else {
      assert bs[k..] == [];
    }
    TiledConcat(bs[..i], mid, lo, bs[i].start, bs[k - 1].end);
    TiledConcat(bs[..i] + mid, bs[k..], lo, bs[k - 1].end, hi);
  }

  lemma LiveEmpty()
    ensures Live([]) == {}
  {
  }

  lemma LiveConcat(a: seq<Block>, b: seq<Block>)
    ensures Live(a + b) == Live(a) + Live(b)
  {
  }

  lemma LiveApart(a: seq<Block>, b: seq<Block>, lo: nat, mid: nat, hi: nat)
    requires Ordered(a, lo, mid) && Ordered(b, mid, hi)
    ensures Live(a) !! Live(b)
  {
    forall x | x in Live(a) ensures x !in Live(b) {
      assert x.end <= mid;
    }
  }

  /** In a tiled layout, what comes before an index and what comes after share no block. */
  lemma LiveCut(bs: seq<Block>, i: nat, lo: nat, hi: nat)
    requires Tiled(bs, lo, hi) && i <= |bs|
    ensures Live(bs) == Live(bs[..i]) + Live(bs[i..])
    ensures Live(bs[..i]) !! Live(bs[i..])
  {
    assert bs == bs[..i] + bs[i..];
    LiveConcat(bs[..i], bs[i..]);
    if i < |bs| {
      TiledCut(bs, i, lo, hi);
      TiledOrdered(bs[..i], lo, bs[i].start);
      TiledOrdered(bs[i..], bs[i].start, hi);
      LiveApart(bs[..i], bs[i..], lo, bs[i].start, hi);
    }
  }

  lemma LiveSplice(bs: seq<Block>, i: nat, k: nat, mid: seq<Block>, lo: nat, hi: nat)
    requires Tiled(bs, lo, hi) && i <= k <= |bs|
    ensures Live(Splice(bs, i, k, mid)) == (Live(bs) - Live(bs[i..k])) + Live(mid)
  {
    hide Tiled, Live;
    LiveCut(bs, i, lo, hi);
    if i < |bs| {
      TiledCut(bs, i, lo, hi);
      LiveCut(bs[i..], k - i, bs[i].start, hi);
      assert bs[i..][..k - i] == bs[i..k] && bs[i..][k - i..] == bs[k..];
    } else {
      assert bs[i..k] == [] && bs[k..] == [];
      LiveEmpty();
    }
    LiveConcat(bs[..i], mid);
    LiveConcat(bs[..i] + mid, bs[k..]);
  }

  lemma TiledTail(bs: seq<Block>, lo: nat, hi: nat)
    requires Tiled(bs, lo, hi) && bs != []
    ensures Live(bs[1..]) == Live(bs) - Live([bs[0]])
    ensures Coalesced(bs) ==> Coalesced(bs[1..])
  {
    LiveCut(bs, 1, lo, hi);
    assert bs[..1] == [bs[0]];
    var t := bs[1..];
    forall i, j | Coalesced(bs) && 0 <= i && j == i + 1 && j < |t| ensures t[i].used || t[j].used {
      assert bs[i + 1].used || bs[j + 1].used;
    }
  }

  /** Where a used block of one layout starts, the other layout has that same block. */
  lemma SameBlock(a: seq<Block>, b: seq<Block>, i: nat, lo: nat, hi: nat) returns (j: nat)
    requires Tiled(a, lo, hi) && Tiled(b, lo, hi) && Live(a) == Live(b)
    requires i < |a| && a[i].used
    ensures j < |b| && b[j] == a[i]
    ensures Ordered(b, lo, hi)
  {
    TiledOrdered(b, lo, hi);
    assert a[i] in Live(b);
    j :| 0 <= j < |b| && b[j] == a[i];
  }

  /** With free heads, the head of the second layout is no longer than that of the first. */
  lemma FreeHead(a: seq<Block>, b: seq<Block>, lo: nat, hi: nat)
    requires Tiled(a, lo, hi) && Tiled(b, lo, hi) && Live(a) == Live(b)
    requires Coalesced(a) && a != [] && b != [] && !a[0].used && !b[0].used
    ensures b[0].end <= a[0].end
  {
    TiledOrdered(a, lo, hi);
    TiledOrdered(b, lo, hi);
    if |a| > 1 {
      assert a[0].used || a[1].used;
      var j := SameBlock(a, b, 1, lo, hi);
      assert j != 0;
      assert b[0].end <= b[j].start;
    }
  }

  /** A coalesced layout is determined by its set of used blocks. */
  lemma {:induction false} Canonical(a: seq<Block>, b: seq<Block>, lo: nat, hi: nat)
    requires Tiled(a, lo, hi) && Tiled(b, lo, hi) && Coalesced(a) && Coalesced(b)
    requires Live(a) == Live(b)
    ensures a == b
  {
    hide Live, Coalesced;
    TiledOrdered(a, lo, hi);
    TiledOrdered(b, lo, hi);
    if a != [] && b != [] {
      if a[0].used {
        var j := SameBlock(a, b, 0, lo, hi);
      } else if b[0].used {
        var j := SameBlock(b, a, 0, lo, hi);
      } else {
        FreeHead(a, b, lo, hi);
        FreeHead(b, a, lo, hi);
      }
      assert a[0] == b[0];
      TiledTail(a, lo, hi);
      TiledTail(b, lo, hi);
      Canonical(a[1..], b[1..], a[0].end, hi);
      assert a == [a[0]] + a[1..] && b == [b[0]] + b[1..];
    }
  }

  // ---- Freeing a block ------------------------------------------------------------------------

  /** The first block of the free run that appears when block `i` is freed. */
  function RunStart(bs: seq<Block>, i: nat): (lo: nat)
    requires i < |bs|
    ensures lo <= i
  {
    if i > 0 && !bs[i - 1].used then i - 1 else i
  }

  /** One past the last block of that run. */
  function RunEnd(bs: seq<Block>, i: nat): (hi: nat)
    requires i < |bs|
    ensures i < hi <= |bs|
  {
    if i + 1 < |bs| && !bs[i + 1].used then i + 2 else i + 1
  }

  /** Block `i` becomes free and one with its free neighbours. */
  function FreeLayout(bs: seq<Block>, i: nat): seq<Block>
    requires i < |bs|
  {
    var lo, hi := RunStart(bs, i), RunEnd(bs, i);
    Splice(bs, lo, hi, [Block(bs[lo].start, bs[hi - 1].end, false)])
  }

  lemma NeighboursUsed(bs: seq<Block>, i: nat)
    requires Coalesced(bs) && i < |bs| && !bs[i].used
    ensures i > 0 ==> bs[i - 1].used
    ensures i + 1 < |bs| ==> bs[i + 1].used
  {
    assert i > 0 ==> bs[i - 1].used;
    assert i + 1 < |bs| ==> bs[i + 1].used;
  }

  lemma CoalescedSplice(bs: seq<Block>, i: nat, k: nat, mid: seq<Block>)
    requires Coalesced(bs) && Coalesced(mid) && i < k <= |bs| && mid != []
    requires i > 0 ==> bs[i - 1].used || mid[0].used
    requires k < |bs| ==> bs[k].used || mid[|mid| - 1].used
    ensures Coalesced(Splice(bs, i, k, mid))
  {
    var r := Splice(bs, i, k, mid);
    forall x, y | 0 <= x && y == x + 1 && y < |r| ensures r[x].used || r[y].used {
      if y < i {
        assert r[x] == bs[x] && r[y] == bs[y];
      } else if i <= x && y < i + |mid| {
        assert r[x] == mid[x - i] && r[y] == mid[y - i];
      } else if x >= i + |mid| {
        assert r[x] == bs[x - i - |mid| + k] && r[y] == bs[y - i - |mid| + k];
      }
    }
  }

  lemma LiveFree(bs: seq<Block>, i: nat)
    requires i < |bs| && !bs[i].used
    ensures Live(bs[i..i + 1]) == {}
  {
    assert bs[i..i + 1] == [bs[i]];
  }

  /** No used block starts where a free one does. */
  lemma NotLive(bs: seq<Block>, lo: nat, end: nat, i: nat, b: Block)
    requires Tiled(bs, lo, end) && i < |bs| && !bs[i].used && b.used && b.start == bs[i].start
    ensures b !in Live(bs)
  {
    TiledOrdered(bs, lo, end);
    assert forall j | 0 <= j < |bs| && j != i :: bs[j].start != bs[i].start;
  }

  lemma RunLive(bs: seq<Block>, lo: nat, i: nat)
    requires i < |bs| && bs[i].used
    requires lo == i || lo == RunStart(bs, i)
    ensures Live(bs[lo..RunEnd(bs, i)]) == {bs[i]}
  {
    var run := bs[lo..RunEnd(bs, i)];
    assert run[i - lo] == bs[i];
    forall b | b in run ensures b == bs[i] || !b.used {
      var x :| 0 <= x < |run| && run[x] == b;
      assert b == bs[lo + x];
    }
  }

  /** What block `i` and its free neighbours make up: used blocks on both sides, and one used inside. */
  lemma RunBounds(bs: seq<Block>, end: nat, lo: nat, i: nat)
    requires Tiled(bs, 0, end) && Coalesced(bs) && i < |bs| && bs[i].used
    requires lo == i || lo == RunStart(bs, i)
    ensures var hi := RunEnd(bs, i);
            && Live(bs[lo..hi]) == {bs[i]}
            && bs[lo].start <= bs[i].start && bs[i].end <= bs[hi - 1].end
            && (lo == RunStart(bs, i) && lo > 0 ==> bs[lo - 1].used)
            && (hi < |bs| ==> bs[hi].used)
  {
    hide Tiled, Live;
    var hi := RunEnd(bs, i);
    RunLive(bs, lo, i);
    if lo < i { NeighboursUsed(bs, lo); }
    if hi == i + 2 { NeighboursUsed(bs, i + 1); }
    TiledOrdered(bs, 0, end);
    assert lo < i ==> bs[lo].end <= bs[i].start;
    assert i < hi - 1 ==> bs[i].end <= bs[hi - 1].start;
  }

  lemma IndexAt(bs: seq<Block>, end: nat, i: nat)
    requires Tiled(bs, 0, end) && i < |bs|
    ensures IndexOf(bs, bs[i].start) == i
  {
    TiledOrdered(bs, 0, end);
    var j := IndexOf(bs, bs[i].start);
    assert bs[j].start == bs[i].start;
  }

  lemma OneTiled(x: Block)
    requires x.start < x.end
    ensures Tiled([x], x.start, x.end) && Live([x]) == if x.used then {x} else {}
  {
    assert [x][1..] == [];
  }
}
