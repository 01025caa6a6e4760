/**
  How the small-memory allocator (mem.c) lays out its items in the heap buffer.

  The buffer is addressed by byte offset; the word of an item field is at its offset, so an item
  at `o` has its pool tag at `o`, its next offset at `o + 4` and its previous one at `o + 8`.
*/
module SmallItems {
  import opened Basics
  import opened Requests
  import opened Tiling
  import opened SmallHeapSpec
  import opened SmallHeapTheory

  const NEXT: nat := 4
  const PREV: nat := 8

  // ---- Items in a buffer -------------------------------------------------------------------

  /** The item in front of block `b` says so: used or free, where the next one and the previous one are. */
  predicate ItemAt(w: seq<nat>, tag: nat, b: Block, prev: nat) {
    && b.start + HDR <= |w|
    && w[b.start] == (if b.used then tag + 1 else tag)
    && w[b.start + NEXT] == b.end
    && w[b.start + PREV] == prev
  }

  /** The back link of block `i`; the first block links back to `first`. */
  function PrevOf(bs: seq<Block>, i: nat, first: nat): nat
    requires i < |bs|
  {
    if i == 0 then first else bs[i - 1].start
  }

  ghost predicate Items(w: seq<nat>, tag: nat, bs: seq<Block>, first: nat) {
    forall i | 0 <= i < |bs| :: ItemAt(w, tag, bs[i], PrevOf(bs, i, first))
  }

  /** The writes from `w` to `v` stay inside `lo..hi`, but for the back link of the item at `hi`. */
  ghost predicate Within(w: seq<nat>, v: seq<nat>, lo: nat, hi: nat) {
    && |v| == |w|
    && forall a | 0 <= a < |w| && !(lo <= a < hi) && a != hi + PREV :: v[a] == w[a]
  }

  lemma ItemKept(w: seq<nat>, v: seq<nat>, tag: nat, b: Block, prev: nat, lo: nat, hi: nat)
    requires Sized(b) && ItemAt(w, tag, b, prev) && Within(w, v, lo, hi) && lo <= hi
    requires b.end <= lo || hi == b.start || hi + HDR <= b.start
    ensures ItemAt(v, tag, b, if b.start == hi then v[b.start + PREV] else prev)
  {
  }

  /** Blocks outside a range lie before it, right after it, or further on. */
  lemma Outside(bs: seq<Block>, end: nat, x: nat, i: nat, k: nat)
    requires Placed(bs, end) && i < k <= |bs| && x < |bs| && !(i <= x < k)
    ensures Sized(bs[x]) && bs[i].start <= bs[k - 1].end
    ensures if x < i then bs[x].end <= bs[i].start
            else if x == k then bs[k - 1].end == bs[x].start
            else bs[k - 1].end + HDR <= bs[x].start
  {
    TiledOrdered(bs, 0, end);
    assert bs[x] in bs;
    if x > k {
      assert bs[k] in bs && Sized(bs[k]);
      assert bs[k - 1].end <= bs[k].start;
      assert bs[k].end <= bs[x].start;
    }
    assert i < k - 1 ==> bs[i].end <= bs[k - 1].start;
  }

  lemma SpliceIndex(bs: seq<Block>, i: nat, k: nat, mid: seq<Block>, x: nat)
    requires i < k <= |bs| && mid != [] && x < |Splice(bs, i, k, mid)|
    ensures var r := Splice(bs, i, k, mid);
            if x < i then r[x] == bs[x] && PrevOf(r, x, 0) == PrevOf(bs, x, 0)
            else if x < i + |mid| then
              r[x] == mid[x - i] && PrevOf(r, x, 0) == PrevOf(mid, x - i, PrevOf(bs, i, 0))
            else
              var y := x - i - |mid| + k;
              r[x] == bs[y] && PrevOf(r, x, 0) == if y == k then mid[|mid| - 1].start else PrevOf(bs, y, 0)
  {
  }

  /** If blocks `i` up to `k` are rewritten into `mid` within their own range, and the next item
      links back to the last of `mid`, the buffer spells out the spliced layout. */
  lemma ItemsSplice(w: seq<nat>, v: seq<nat>, tag: nat, bs: seq<Block>, i: nat, k: nat, mid: seq<Block>, end: nat)
    requires Placed(bs, end) && Items(w, tag, bs, 0) && i < k <= |bs| && mid != []
    requires Within(w, v, bs[i].start, bs[k - 1].end)
    requires Items(v, tag, mid, PrevOf(bs, i, 0))
    requires k < |bs| ==> v[bs[k].start + PREV] == mid[|mid| - 1].start
    ensures Items(v, tag, Splice(bs, i, k, mid), 0)
  {
    hide Tiled, Placed, ItemAt, Splice, Within;
    var r := Splice(bs, i, k, mid);
    forall x | 0 <= x < |r| ensures ItemAt(v, tag, r[x], PrevOf(r, x, 0)) {
      SpliceIndex(bs, i, k, mid, x);
      if i <= x < i + |mid| {
        assert ItemAt(v, tag, mid[x - i], PrevOf(mid, x - i, PrevOf(bs, i, 0)));
      } else {
        var y := if x < i then x else x - |mid| - i + k;
        assert ItemAt(w, tag, bs[y], PrevOf(bs, y, 0));
        Outside(bs, end, y, i, k);
        ItemKept(w, v, tag, bs[y], PrevOf(bs, y, 0), bs[i].start, bs[k - 1].end);
      }
    }
  }

  lemma {:induction false} UsedBytesConcat(a: seq<Block>, b: seq<Block>)
    ensures UsedBytes(a + b) == UsedBytes(a) + UsedBytes(b)
  {
    if a == [] {
      assert a + b == b;
    } else {
      assert (a + b)[1..] == a[1..] + b;
      UsedBytesConcat(a[1..], b);
    }
  }

  lemma UsedBytesSplice(bs: seq<Block>, i: nat, k: nat, mid: seq<Block>)
    requires i <= k <= |bs|
    ensures UsedBytes(Splice(bs, i, k, mid)) == UsedBytes(bs) - UsedBytes(bs[i..k]) + UsedBytes(mid)
  {
    assert bs == bs[..i] + bs[i..k] + bs[k..];
    UsedBytesConcat(bs[..i] + bs[i..k], bs[k..]);
    UsedBytesConcat(bs[..i], bs[i..k]);
    UsedBytesConcat(bs[..i] + mid, bs[k..]);
    UsedBytesConcat(bs[..i], mid);
  }

  lemma UsedBytesOne(b: Block)
    ensures UsedBytes([b]) == UsedSize(b)
  {
    assert [b][1..] == [];
  }

  lemma UsedBytesTwo(b: Block, c: Block)
    ensures UsedBytes([b, c]) == UsedSize(b) + UsedSize(c)
  {
    assert [b, c][1..] == [c];
    UsedBytesOne(c);
  }

  lemma CarveUsed(b: Block, need: nat)
    requires !b.used
    ensures UsedBytes(Carve(b, need)) == UsedSize(Carve(b, need)[0])
  {
    var c := Carve(b, need);
    if |c| == 1 { UsedBytesOne(c[0]); } else { UsedBytesTwo(c[0], c[1]); }
  }

  lemma TakeKeeps(bs: seq<Block>, end: nat, i: nat, need: nat)
    requires WellFormed(bs, end) && i < |bs| && Fits(bs[i], need) && need >= MIN && need % ALIGN == 0
    ensures var bs' := Splice(bs, i, i + 1, Carve(bs[i], need));
            WellFormed(bs', end) && UsedBytes(bs') == UsedBytes(bs) + UsedSize(Carve(bs[i], need)[0])
  {
    assert bs[i] in bs;
    CarveTiled(bs[i], need);
    NeighboursUsed(bs, i);
    WellFormedSplice(bs, end, i, i + 1, Carve(bs[i], need));
    UsedBytesSplice(bs, i, i + 1, Carve(bs[i], need));
    CarveUsed(bs[i], need);
    assert bs[i..i + 1] == [bs[i]];
    UsedBytesOne(bs[i]);
  }

  /** The buffer once block `b` is cut in two at `cut`; the second part is free. */
  function SplitWords(w: seq<nat>, tag: nat, b: Block, cut: nat, end: nat): seq<nat>
    requires b.start + HDR <= cut && cut + HDR <= b.end <= end && end + HDR <= |w|
  {
    var v := w[cut := tag][cut + NEXT := b.end][cut + PREV := b.start][b.start + NEXT := cut];
    if b.end != end then v[b.end + PREV := cut] else v
  }

  /** The buffer once a free block is taken: split when the rest can hold a block. */
  function TakeWords(w: seq<nat>, tag: nat, b: Block, need: nat, end: nat): seq<nat>
    requires Sized(b) && Fits(b, need) && b.end <= end && end + HDR <= |w|
  {
    if |Carve(b, need)| == 1 then w[b.start := tag + 1]
    else SplitWords(w, tag, b, b.start + HDR + need, end)[b.start := tag + 1]
  }

  lemma PlacedFacts(bs: seq<Block>, end: nat, i: nat)
    requires Placed(bs, end) && i < |bs|
    ensures Sized(bs[i]) && bs[i].end <= end && (i == 0 ==> bs[i].start == 0)
    ensures i + 1 < |bs| ==> bs[i + 1].start == bs[i].end && bs[i].end + HDR <= end
    ensures i + 1 == |bs| ==> bs[i].end == end
  {
    TiledOrdered(bs, 0, end);
    assert bs[i] in bs;
    if i + 1 < |bs| { assert bs[i + 1] in bs; }
  }

  lemma TakeItems(w: seq<nat>, tag: nat, b: Block, need: nat, prev: nat, end: nat)
    requires Sized(b) && Fits(b, need) && b.end <= end && |w| == end + HDR
    requires need >= MIN && need % ALIGN == 0 && ItemAt(w, tag, b, prev)
    requires b.end < end ==> b.end + HDR <= end && w[b.end + PREV] == b.start
    ensures var v, mid := TakeWords(w, tag, b, need, end), Carve(b, need);
            && Items(v, tag, mid, prev)
            && Within(w, v, b.start, b.end)
            && v[end] == w[end] && v[end + NEXT] == w[end + NEXT]
            && (b.end < end ==> v[b.end + PREV] == mid[|mid| - 1].start)
  {
  }

  lemma TakeLayout(w: seq<nat>, tag: nat, bs: seq<Block>, i: nat, need: nat, end: nat)
    requires WellFormed(bs, end) && Items(w, tag, bs, 0) && |w| == end + HDR && i < |bs|
    requires Fits(bs[i], need) && need >= MIN && need % ALIGN == 0
    ensures Sized(bs[i]) && bs[i].end <= end && ItemAt(w, tag, bs[i], PrevOf(bs, i, 0))
    ensures var v, bs' := TakeWords(w, tag, bs[i], need, end), Splice(bs, i, i + 1, Carve(bs[i], need));
            && WellFormed(bs', end) && Items(v, tag, bs', 0)
            && Within(w, v, bs[i].start, bs[i].end)
            && v[end] == w[end] && v[end + NEXT] == w[end + NEXT]
            && UsedBytes(bs') == UsedBytes(bs) + UsedSize(Carve(bs[i], need)[0])
  {
    hide Items, ItemAt, Tiled, Coalesced, UsedBytes, Splice, Carve, TakeWords, Within;
    PlacedFacts(bs, end, i);
    ItemOf(w, tag, bs, i);
    if i + 1 < |bs| { PlacedFacts(bs, end, i + 1); ReadBack(w, tag, bs, i + 1); }
    TakeItems(w, tag, bs[i], need, PrevOf(bs, i, 0), end);
    TakeKeeps(bs, end, i, need);
    CarveTiled(bs[i], need);
    ItemsSplice(w, TakeWords(w, tag, bs[i], need, end), tag, bs, i, i + 1, Carve(bs[i], need), end);
  }

  /** The buffer once free block `i` has swallowed the next one, also free. */
  function MergeWords(w: seq<nat>, b: Block, c: Block): seq<nat>
    requires b.end == c.start && b.start < b.end < c.end && c.end + HDR <= |w|
  {
    w[c.start := 0][b.start + NEXT := c.end][c.end + PREV := b.start]
  }

  lemma MergeItems(w: seq<nat>, tag: nat, b: Block, c: Block, prev: nat, end: nat)
    requires b.end == c.start && Sized(b) && Sized(c) && |w| == end + HDR
    requires c.end == end || c.end + HDR <= end
    requires ItemAt(w, tag, b, prev) && ItemAt(w, tag, c, b.start)
    ensures var v, one := MergeWords(w, b, c), Block(b.start, c.end, b.used);
            && Items(v, tag, [one], prev) && Within(w, v, b.start, c.end) && v[c.end + PREV] == b.start
            && v[end] == w[end] && v[end + NEXT] == w[end + NEXT]
            && Sized(one) && Tiled([one], b.start, c.end)
  {
    assert [Block(b.start, c.end, b.used)][1..] == [];
  }

  lemma MergeLayout(w: seq<nat>, tag: nat, bs: seq<Block>, i: nat, end: nat)
    requires Placed(bs, end) && Items(w, tag, bs, 0) && |w| == end + HDR
    requires i + 1 < |bs| && !bs[i].used && !bs[i + 1].used
    ensures bs[i].end == bs[i + 1].start && bs[i].start < bs[i].end < bs[i + 1].end <= end
    ensures var v := MergeWords(w, bs[i], bs[i + 1]);
            && Placed(Join(bs, i), end) && Items(v, tag, Join(bs, i), 0)
            && Within(w, v, bs[i].start, bs[i + 1].end)
            && v[end] == w[end] && v[end + NEXT] == w[end + NEXT]
            && UsedBytes(Join(bs, i)) == UsedBytes(bs)
  {
    hide MergeWords, ItemAt, UsedBytes, Tiled, Items, Placed, Within, Splice, Live, Coalesced;
    PlacedFacts(bs, end, i);
    PlacedFacts(bs, end, i + 1);
    ItemOf(w, tag, bs, i);
    ItemOf(w, tag, bs, i + 1);
    MergeItems(w, tag, bs[i], bs[i + 1], PrevOf(bs, i, 0), end);
    MergeUsed(bs, i);
    var one := Block(bs[i].start, bs[i + 1].end, bs[i].used);
    PlacedSplice(bs, end, i, i + 2, [one]);
    ItemsSplice(w, MergeWords(w, bs[i], bs[i + 1]), tag, bs, i, i + 2, [one], end);
  }

  lemma ItemOf(w: seq<nat>, tag: nat, bs: seq<Block>, i: nat)
    requires Items(w, tag, bs, 0) && i < |bs|
    ensures ItemAt(w, tag, bs[i], PrevOf(bs, i, 0))
  {
  }

  lemma MergeUsed(bs: seq<Block>, i: nat)
    requires i + 1 < |bs| && !bs[i].used && !bs[i + 1].used
    ensures UsedBytes(Join(bs, i)) == UsedBytes(bs)
  {
    var one := Block(bs[i].start, bs[i + 1].end, bs[i].used);
    UsedBytesSplice(bs, i, i + 2, [one]);
    UsedBytesOne(one);
    UsedBytesTwo(bs[i], bs[i + 1]);
    assert bs[i..i + 2] == [bs[i], bs[i + 1]];
  }

  lemma SplitItems(w: seq<nat>, tag: nat, b: Block, cut: nat, prev: nat, end: nat)
    requires Sized(b) && ItemAt(w, tag, b, prev) && |w| == end + HDR
    requires b.start + HDR < cut && cut + HDR < b.end <= end && cut % ALIGN == 0
    requires b.end == end || b.end + HDR <= end
    ensures var v, mid := SplitWords(w, tag, b, cut, end), [Block(b.start, cut, b.used), Block(cut, b.end, false)];
            && Items(v, tag, mid, prev) && Within(w, v, b.start, b.end)
            && (b.end < end ==> v[b.end + PREV] == cut)
            && v[end] == w[end] && v[end + NEXT] == w[end + NEXT]
            && (forall a | b.start + HDR <= a < cut :: v[a] == w[a])
  {
  }

  /** Used block `i` keeps `size` bytes of payload, the rest becomes a free block of its own. */
  function CutLayout(bs: seq<Block>, i: nat, size: nat): seq<Block>
    requires i < |bs|
  {
    var cut := bs[i].start + HDR + size;
    Splice(bs, i, i + 1, [Block(bs[i].start, cut, true), Block(cut, bs[i].end, false)])
  }

  /** What rt_smem_alloc reads of a block before it takes it. */
  lemma ReadTaken(w: seq<nat>, tag: nat, bs: seq<Block>, i: nat, end: nat)
    requires WellFormed(bs, end) && Items(w, tag, bs, 0) && i < |bs|
    ensures bs[i].start + HDR <= |w| && w[bs[i].start + NEXT] == bs[i].end
  {
    ItemOf(w, tag, bs, i);
  }

  lemma CutUsed(bs: seq<Block>, i: nat, size: nat)
    requires i < |bs| && bs[i].used && bs[i].start + HDR + size <= bs[i].end
    ensures UsedBytes(CutLayout(bs, i, size)) == UsedBytes(bs) - (bs[i].end - (bs[i].start + HDR + size))
  {
    var cut := bs[i].start + HDR + size;
    var mid := [Block(bs[i].start, cut, true), Block(cut, bs[i].end, false)];
    UsedBytesSplice(bs, i, i + 1, mid);
    UsedBytesOne(bs[i]);
    UsedBytesTwo(mid[0], mid[1]);
    assert bs[i..i + 1] == [bs[i]];
  }

  lemma CutItems(w: seq<nat>, tag: nat, bs: seq<Block>, i: nat, size: nat, end: nat)
    requires Placed(bs, end) && Items(w, tag, bs, 0) && |w| == end + HDR && i < |bs| && bs[i].used
    requires size > 0 && size % ALIGN == 0 && bs[i].start + HDR + size + HDR + MIN < bs[i].end
    ensures Sized(bs[i]) && bs[i].end <= end
    ensures var cut := bs[i].start + HDR + size; var v := SplitWords(w, tag, bs[i], cut, end);
            && Placed(CutLayout(bs, i, size), end) && Items(v, tag, CutLayout(bs, i, size), 0)
            && v[end] == w[end] && v[end + NEXT] == w[end + NEXT]
            && Within(w, v, bs[i].start, bs[i].end)
            && (forall a | bs[i].start + HDR <= a < cut :: v[a] == w[a])
            && UsedBytes(CutLayout(bs, i, size)) == UsedBytes(bs) - (bs[i].end - cut)
  {
    hide ItemAt, Tiled, Placed, SplitWords, UsedBytes, Items, Within, Splice, Sized, Coalesced, Live;
    PlacedFacts(bs, end, i);
    ItemOf(w, tag, bs, i);
    if i + 1 < |bs| { PlacedFacts(bs, end, i + 1); }
    var b := bs[i];
    var cut := b.start + HDR + size;
    var mid := [Block(b.start, cut, true), Block(cut, b.end, false)];
    SplitItems(w, tag, b, cut, PrevOf(bs, i, 0), end);
    CutTiled(b.start, cut, b.end);
    CutAligned(b, b, size);
    PlacedSplice(bs, end, i, i + 1, mid);
    ItemsSplice(w, SplitWords(w, tag, b, cut, end), tag, bs, i, i + 1, mid, end);
    CutUsed(bs, i, size);
  }

  /** Block `i` with its used mark taken off. */
  function Unmark(bs: seq<Block>, i: nat): seq<Block>
    requires i < |bs|
  {
    bs[i := bs[i].(used := false)]
  }

  lemma UnmarkItem(w: seq<nat>, tag: nat, b: Block, prev: nat, end: nat)
    requires Sized(b) && ItemAt(w, tag, b, prev) && |w| == end + HDR && b.end <= end
    ensures var v, free := w[b.start := tag], b.(used := false);
            && Items(v, tag, [free], prev) && Within(w, v, b.start, b.end)
            && v[end] == w[end] && v[end + NEXT] == w[end + NEXT]
            && (b.end < end ==> v[b.end + PREV] == w[b.end + PREV])
  {
  }

  lemma UnmarkItems(w: seq<nat>, tag: nat, bs: seq<Block>, i: nat, end: nat)
    requires Placed(bs, end) && Items(w, tag, bs, 0) && |w| == end + HDR && i < |bs| && bs[i].used
    ensures bs[i].start + HDR <= end
    ensures var v := w[bs[i].start := tag];
            && Placed(Unmark(bs, i), end) && Items(v, tag, Unmark(bs, i), 0)
            && v[end] == w[end] && v[end + NEXT] == w[end + NEXT] && Within(w, v, bs[i].start, bs[i].end)
            && UsedBytes(Unmark(bs, i)) == UsedBytes(bs) - (bs[i].end - bs[i].start)
  {
    hide Tiled, Placed, UsedBytes, ItemAt, Items, Within;
    PlacedFacts(bs, end, i);
    ItemOf(w, tag, bs, i);
    var b := bs[i];
    var free := b.(used := false);
    UnmarkItem(w, tag, b, PrevOf(bs, i, 0), end);
    assert Unmark(bs, i) == Splice(bs, i, i + 1, [free]);
    OneTiled(free);
    PlacedSplice(bs, end, i, i + 1, [free]);
    if i + 1 < |bs| { PlacedFacts(bs, end, i + 1); ReadBack(w, tag, bs, i + 1); }
    ItemsSplice(w, w[b.start := tag], tag, bs, i, i + 1, [free], end);
    UsedBytesSplice(bs, i, i + 1, [free]);
    UsedBytesOne(b);
    UsedBytesOne(free);
    assert bs[i..i + 1] == [b];
  }

  lemma ReadBack(w: seq<nat>, tag: nat, bs: seq<Block>, i: nat)
    requires Items(w, tag, bs, 0) && i < |bs|
    ensures bs[i].start + HDR <= |w| && w[bs[i].start + PREV] == PrevOf(bs, i, 0)
  {
    ItemOf(w, tag, bs, i);
  }

  /** What reading the item of block `i` tells: whether it is used, and where the next one is. */
  lemma ReadItem(w: seq<nat>, tag: nat, bs: seq<Block>, i: nat, end: nat)
    requires Placed(bs, end) && Items(w, tag, bs, 0) && i < |bs| && tag % 2 == 0 && |w| == end + HDR
    ensures bs[i].start + HDR <= bs[i].end <= end
    ensures w[bs[i].start] % 2 == (if bs[i].used then 1 else 0)
    ensures w[bs[i].start + NEXT] == bs[i].end == StartOf(bs, i + 1, end)
    ensures w[bs[i].start + PREV] == PrevOf(bs, i, 0)
    ensures i == 0 ==> bs[i].start == 0
  {
    PlacedFacts(bs, end, i);
    ItemOf(w, tag, bs, i);
  }

  lemma FirstFreeIs(bs: seq<Block>, j: nat)
    requires j <= |bs| && (j < |bs| ==> !bs[j].used)
    requires forall x | 0 <= x < j :: bs[x].used
    ensures FirstFree(bs) == j
  {
    assert FirstFree(bs) <= j;
  }

  lemma AllocNone(bs: seq<Block>, need: nat)
    requires FirstFit(bs, need) == |bs|
    ensures AllocLayout(bs, need) == bs
  {
  }

  lemma FirstFitIs(bs: seq<Block>, need: nat, j: nat)
    requires j <= |bs| && (j < |bs| ==> Fits(bs[j], need))
    requires forall x | 0 <= x < j :: !Fits(bs[x], need)
    ensures FirstFit(bs, need) == j
  {
    assert FirstFit(bs, need) <= j;
  }

  lemma StartBound(bs: seq<Block>, end: nat, i: nat)
    requires Placed(bs, end) && i <= |bs|
    ensures StartOf(bs, i, end) <= end && (i < |bs| ==> StartOf(bs, i, end) < end)
  {
    if i < |bs| { PlacedFacts(bs, end, i); }
  }

  /** The payloads of the blocks `live` are the same in both buffers. */
  ghost predicate PayloadsKept(w: seq<nat>, v: seq<nat>, live: set<Block>) {
    && |v| == |w|
    && forall b, a | b in live && b.start + HDR <= a < b.end && a < |w| :: v[a] == w[a]
  }

  lemma WithinKeeps(w: seq<nat>, v: seq<nat>, bs: seq<Block>, i: nat, k: nat, live: set<Block>, end: nat)
    requires Placed(bs, end) && i < k <= |bs| && Within(w, v, bs[i].start, bs[k - 1].end)
    requires live <= Live(bs) && forall x | i <= x < k :: bs[x] !in live
    ensures PayloadsKept(w, v, live)
  {
    forall b, a | b in live && b.start + HDR <= a < b.end && a < |w| ensures v[a] == w[a] {
      var x :| 0 <= x < |bs| && bs[x] == b;
      Outside(bs, end, x, i, k);
    }
  }

  lemma KeptSelf(w: seq<nat>, live: set<Block>)
    ensures PayloadsKept(w, w, live)
  {
  }

  lemma KeptTrans(w: seq<nat>, v: seq<nat>, u: seq<nat>, live: set<Block>)
    requires PayloadsKept(w, v, live) && PayloadsKept(v, u, live)
    ensures PayloadsKept(w, u, live)
  {
  }

  lemma KeptLess(w: seq<nat>, v: seq<nat>, live: set<Block>, less: set<Block>)
    requires PayloadsKept(w, v, live) && less <= live
    ensures PayloadsKept(w, v, less)
  {
  }

  /** A payload that is written to leaves all items as they are. */
  lemma PayloadWrite(w: seq<nat>, v: seq<nat>, tag: nat, bs: seq<Block>, i: nat, end: nat)
    requires Placed(bs, end) && Items(w, tag, bs, 0) && |v| == |w| == end + HDR && i < |bs|
    requires forall a | 0 <= a < |w| && !(bs[i].start + HDR <= a < bs[i].end) :: v[a] == w[a]
    ensures Items(v, tag, bs, 0)
    ensures v[end] == w[end] && v[end + NEXT] == w[end + NEXT]
    ensures PayloadsKept(w, v, Live(bs) - {bs[i]})
  {
    hide Tiled, Placed, ItemAt, Within, Live;
    PlacedFacts(bs, end, i);
    forall x | 0 <= x < |bs| ensures ItemAt(v, tag, bs[x], PrevOf(bs, x, 0)) {
      ItemOf(w, tag, bs, x);
      if x != i { Outside(bs, end, x, i, i + 1); }
      HeaderKept(w, v, tag, bs[x], PrevOf(bs, x, 0), bs[i].start + HDR, bs[i].end);
    }
    PayloadWithin(w, v, bs[i]);
    LiveLess(bs, bs[i]);
    WithinKeeps(w, v, bs, i, i + 1, Live(bs) - {bs[i]}, end);
  }

  lemma LiveLess(bs: seq<Block>, b: Block)
    ensures Live(bs) - {b} <= Live(bs)
  {
  }

  lemma PayloadWithin(w: seq<nat>, v: seq<nat>, b: Block)
    requires |v| == |w| && forall a | 0 <= a < |w| && !(b.start + HDR <= a < b.end) :: v[a] == w[a]
    ensures Within(w, v, b.start, b.end)
  {
  }

  lemma HeaderKept(w: seq<nat>, v: seq<nat>, tag: nat, b: Block, prev: nat, lo: nat, hi: nat)
    requires ItemAt(w, tag, b, prev) && |v| == |w| && (b.start + HDR <= lo || hi <= b.start)
    requires forall a | 0 <= a < |w| && !(lo <= a < hi) :: v[a] == w[a]
    ensures ItemAt(v, tag, b, prev)
  {
  }

  /** Cutting a block touches no payload, but for the part of its own that becomes free. */
  lemma CutKeeps(w: seq<nat>, tag: nat, bs: seq<Block>, i: nat, size: nat, end: nat)
    requires Placed(bs, end) && Items(w, tag, bs, 0) && |w| == end + HDR && i < |bs| && bs[i].used
    requires size > 0 && size % ALIGN == 0 && bs[i].start + HDR + size + HDR + MIN < bs[i].end <= end
    ensures var cut := bs[i].start + HDR + size; var v := SplitWords(w, tag, bs[i], cut, end);
            && PayloadsKept(w, v, Live(bs) - {bs[i]})
            && PayloadsKept(w, v, {Block(bs[i].start, cut, true)})
  {
    hide Items, ItemAt, Tiled, Placed, Within, SplitWords, CutLayout, Live;
    CutItems(w, tag, bs, i, size, end);
    LiveLess(bs, bs[i]);
    WithinKeeps(w, SplitWords(w, tag, bs[i], bs[i].start + HDR + size, end), bs, i, i + 1, Live(bs) - {bs[i]}, end);
  }

  lemma MergeLive(bs: seq<Block>, i: nat, end: nat)
    requires Placed(bs, end) && i + 1 < |bs| && !bs[i].used && !bs[i + 1].used
    ensures Live(Join(bs, i)) == Live(bs)
  {
    LiveSplice(bs, i, i + 2, [Block(bs[i].start, bs[i + 1].end, false)], 0, end);
    assert bs[i..i + 2] == [bs[i], bs[i + 1]];
  }

  lemma UnmarkLive(bs: seq<Block>, i: nat, end: nat)
    requires Placed(bs, end) && i < |bs| && bs[i].used
    ensures Live(Unmark(bs, i)) == Live(bs) - {bs[i]}
  {
    LiveSplice(bs, i, i + 1, [bs[i].(used := false)], 0, end);
    assert Unmark(bs, i) == Splice(bs, i, i + 1, [bs[i].(used := false)]);
    assert bs[i..i + 1] == [bs[i]];
  }

  lemma CutLive(bs: seq<Block>, i: nat, size: nat, end: nat)
    requires Placed(bs, end) && i < |bs| && bs[i].used
    ensures var short := Block(bs[i].start, bs[i].start + HDR + size, true);
            Live(CutLayout(bs, i, size)) == Live(bs) - {bs[i]} + {short}
  {
    var cut := bs[i].start + HDR + size;
    var mid := [Block(bs[i].start, cut, true), Block(cut, bs[i].end, false)];
    LiveSplice(bs, i, i + 1, mid, 0, end);
    assert bs[i..i + 1] == [bs[i]];
    assert mid[0] in Live(mid);
  }

  /** Taking a block other than the lowest free one leaves that one where it is. */
  lemma TakeFirstFree(bs: seq<Block>, i: nat, need: nat, end: nat)
    requires Placed(bs, end) && i < |bs| && !bs[i].used
    ensures var bs', f := Splice(bs, i, i + 1, Carve(bs[i], need)), FirstFree(bs);
            && f <= i < |bs'| && bs'[i].start == bs[i].start
            && (forall x | 0 <= x < f :: bs'[x].used)
            && (f < i ==> FirstFree(bs') == f && bs'[f].start == bs[f].start && bs[f].start < bs[i].start)
  {
    var f := FirstFree(bs);
    var bs' := Splice(bs, i, i + 1, Carve(bs[i], need));
    TiledOrdered(bs, 0, end);
    assert f <= i;
    forall x | 0 <= x < i ensures bs'[x] == bs[x] {
    }
    if f < i {
      assert bs[f].end <= bs[i].start;
      FirstFreeIs(bs', f);
    }
  }

  lemma MergeFirstFree(bs: seq<Block>, i: nat, end: nat)
    requires Placed(bs, end) && i + 1 < |bs| && !bs[i].used && !bs[i + 1].used
    ensures FirstFree(Join(bs, i)) == FirstFree(bs) <= i
    ensures StartOf(Join(bs, i), FirstFree(bs), end) == StartOf(bs, FirstFree(bs), end) < bs[i + 1].start
  {
    var f := FirstFree(bs);
    assert f <= i;
    forall x | 0 <= x <= i ensures Join(bs, i)[x].used == bs[x].used && Join(bs, i)[x].start == bs[x].start {
    }
    FirstFreeIs(Join(bs, i), f);
    TiledOrdered(bs, 0, end);
    assert bs[f].end <= bs[i + 1].start;
  }

  /** Marking a block free makes it the lowest free one exactly when it lies below that. */
  lemma UnmarkFirstFree(bs: seq<Block>, i: nat, end: nat)
    requires Placed(bs, end) && i < |bs| && bs[i].used
    ensures var f := FirstFree(bs);
            && FirstFree(Unmark(bs, i)) == (if i < f then i else f)
            && (i < f <==> bs[i].start < StartOf(bs, f, end))
            && StartOf(Unmark(bs, i), FirstFree(Unmark(bs, i)), end)
               == (if i < f then bs[i].start else StartOf(bs, f, end))
  {
    var f := FirstFree(bs);
    TiledOrdered(bs, 0, end);
    FirstFreeIs(Unmark(bs, i), if i < f then i else f);
    StartBound(bs, end, i);
    if f < |bs| {
      assert f != i;
      assert i < f ==> bs[i].end <= bs[f].start;
      assert f < i ==> bs[f].end <= bs[i].start;
    }
  }

  /** Cutting a used block adds a free one, the lowest exactly when it lies below the lowest so far. */
  lemma CutFirstFree(bs: seq<Block>, i: nat, size: nat, end: nat)
    requires Placed(bs, end) && i < |bs| && bs[i].used && bs[i].start + HDR + size < bs[i].end
    ensures var f, cut, bs' := FirstFree(bs), bs[i].start + HDR + size, CutLayout(bs, i, size);
            && (i < f <==> cut < StartOf(bs, f, end))
            && FirstFree(bs') == (if i < f then i + 1 else f)
            && StartOf(bs', FirstFree(bs'), end) == (if i < f then cut else StartOf(bs, f, end))
  {
    var f, bs' := FirstFree(bs), CutLayout(bs, i, size);
    TiledOrdered(bs, 0, end);
    forall x | 0 <= x <= i ensures bs'[x].used == bs[x].used && (x < i ==> bs'[x] == bs[x]) {
    }
    FirstFreeIs(bs', if i < f then i + 1 else f);
    if f < |bs| {
      assert f != i;
      assert i < f ==> bs[i].end <= bs[f].start;
      assert f < i ==> bs[f].end <= bs[i].start;
    }
  }

  // ---- plug_holes restores the coalesced layouts ------------------------------------------

  lemma PlugFreed(bs: seq<Block>, i: nat)
    requires i < |bs| && bs[i].used
    ensures i < |PlugRight(Unmark(bs, i), i)|
    ensures PlugLeft(PlugRight(Unmark(bs, i), i), i) == FreeLayout(bs, i)
  {
    var un := Unmark(bs, i);
    var right := PlugRight(un, i);
    var hi := RunEnd(bs, i);
    assert right == Splice(bs, i, hi, [Block(bs[i].start, bs[hi - 1].end, false)]);
    assert right[..i] == bs[..i] && right[i + 1..] == bs[hi..];
  }

  lemma PlugCut(bs: seq<Block>, i: nat, size: nat)
    requires i < |bs| && bs[i].used && bs[i].start + HDR + size <= bs[i].end
    ensures var cut := CutLayout(bs, i, size);
            && i + 1 < |cut| && cut[i + 1] == Block(bs[i].start + HDR + size, bs[i].end, false)
            && i + 1 < |PlugRight(cut, i + 1)|
            && PlugLeft(PlugRight(cut, i + 1), i + 1) == ShrinkLayout(bs, i, size)
  {
    var cut := CutLayout(bs, i, size);
    assert cut[i].used && forall x | i + 2 <= x < |cut| :: cut[x] == bs[x - 1];
    assert PlugRight(cut, i + 1) == ShrinkLayout(bs, i, size);
  }

  lemma LiveIndex(bs: seq<Block>, b: Block) returns (j: nat)
    requires b in Live(bs)
    ensures j < |bs| && bs[j] == b
  {
    j :| 0 <= j < |bs| && bs[j] == b;
  }

  /** Two used blocks lie apart, inside the heap. */
  lemma TwoLive(bs: seq<Block>, b: Block, c: Block, end: nat)
    requires Placed(bs, end) && b in Live(bs) && c in Live(bs) && b != c
    ensures b.end <= c.start || c.end <= b.start
    ensures b.end <= end && c.end <= end
  {
    TiledOrdered(bs, 0, end);
    var i := LiveIndex(bs, b);
    var j := LiveIndex(bs, c);
    if i < j {
      assert bs[i].end <= bs[j].start;
    } else {
      assert bs[j].end <= bs[i].start;
    }
  }

  /** `n` bytes of `w` at `from` are found in `v` at `to`. */
  predicate Copied(w: seq<nat>, v: seq<nat>, to: nat, from: nat, n: int) {
    0 <= n && to + n <= |v| && from + n <= |w| && v[to..to + n] == w[from..from + n]
  }

  lemma CopiedFrom(w: seq<nat>, v: seq<nat>, u: seq<nat>, to: nat, from: nat, n: nat)
    requires Copied(w, v, from, from, n) && Copied(v, u, to, from, n)
    ensures Copied(w, u, to, from, n)
  {
  }

  lemma SliceKept(w: seq<nat>, v: seq<nat>, live: set<Block>, b: Block, lo: nat, n: nat)
    requires PayloadsKept(w, v, live) && b in live
    requires b.start + HDR <= lo && lo + n <= b.end && b.end <= |w|
    ensures |v| == |w| && v[lo..lo + n] == w[lo..lo + n] && Copied(w, v, lo, lo, n)
  {
    forall a | lo <= a < lo + n ensures v[a] == w[a] {
    }
  }

  /** When a second block is allocated, the first stays where it is and lies apart from the second. */
  lemma MoveFacts(bs: seq<Block>, end: nat, capacity: nat, size: nat, p: nat)
    requires WellFormed(bs, end) && IsLive(bs, p) && 0 < Align(size) <= capacity
    ensures var (bs1, q) := SmallHeapSpec.Alloc(bs, capacity, size);
            && Owner(bs, p) in Live(bs) && Owner(bs, p).end <= end
            && (q.Some? ==>
                  && IsLive(bs1, p) && Owner(bs1, p) == Owner(bs, p) && Owner(bs, p) in Live(bs1)
                  && IsLive(bs1, q.value)
                  && var dst := Owner(bs1, q.value);
                  && dst in Live(bs1) && dst != Owner(bs, p) && dst.end <= end && q.value + size <= dst.end
                  && Live(bs) - {Owner(bs, p)} <= Live(bs1) - {Owner(bs, p), dst})
  {
    hide Tiled, Coalesced, FirstFit, AllocLayout, Live, Sized, Carve, SmallHeapSpec.Alloc;
    AllocMeaning(bs, end, capacity, size);
    var (bs1, q) := SmallHeapSpec.Alloc(bs, capacity, size);
    var own := Owner(bs, p);
    OwnerLive(bs, p);
    PlacedFacts(bs, end, IndexOf(bs, p - HDR));
    if q.Some? {
      LivePointer(bs1, end, own);
      OwnerLive(bs1, q.value);
      PlacedFacts(bs1, end, IndexOf(bs1, q.value - HDR));
    }
  }

  lemma OwnerLive(bs: seq<Block>, p: nat)
    requires IsLive(bs, p)
    ensures Owner(bs, p) in Live(bs)
  {
  }
}
