/** The alignment of what the slab allocator (slab.c) hands out. `heap` is the address the heap starts at. */
module SlabAlignment {
  import opened Basics
  import opened Numbers
  import opened SlabPages
  import opened SlabClasses
  import opened SlabSpec
  import T = SlabTheory

  /** A live chunk of a power-of-two size is aligned to it exactly when its zone is. */
  lemma ChunkAligned(s: Slab, c: Config, p: nat, heap: nat)
    requires T.Inv(s, c) && p in s.live && s.live[p].Chunk? && PowerOfTwo(s.live[p].bytes)
    ensures (heap + p) % s.live[p].bytes == 0 <==> (heap + s.live[p].zone * PAGE) % s.live[p].bytes == 0
  {
    hide T.Inv, Offset, PowerOfTwo;
    T.LiveChunk(s, c, p);
    var Chunk(z, k, size) := s.live[p];
    T.FitIndex(s.zones[z], c);
    OffsetMeaning(size);
    AddOffset(heap + z * PAGE, Offset(size), k, size);
    assert heap + p == heap + z * PAGE + Offset(size) + k * size;
  }

  lemma AddOffset(n: nat, base: nat, k: nat, size: nat)
    requires size > 0 && base % size == 0
    ensures (n + base + k * size) % size == n % size
  {
    var q := base / size;
    assert base == q * size;
    Distribute(q, k, size);
    AddMultiple(n, q + k, size);
  }

  /** What is handed out for a request below the limit is a chunk of its class. */
  lemma ChunkOfClass(s: Slab, c: Config, size: nat)
    requires T.Inv(s, c) && |s.lists| == NZONES && Proper(c) && 0 < size < c.limit && AllocSlab(s, size, c).1.Some?
    ensures var (t, p) := AllocSlab(s, size, c);
            p.value in t.live && t.live[p.value].Chunk? && t.live[p.value].bytes == ZoneIndex(size).1
  {
    hide ZoneIndex, ClassSize, Address, Offset;
    T.ClassLimit(size, c);
    var i := ZoneIndex(size).0;
    if i < NZONES && s.lists[i] != [] {
      hide T.Inv;
      T.HeadListed(s, c, i);
    }
  }

  /** A power of two keeps its size as a chunk, unless it is less than the smallest chunk. */
  lemma PowerClass(size: nat)
    requires PowerOfTwo(size) && size < ZONE_LIMIT
    ensures ZoneIndex(size).1 == (if size < 8 then 8 else size) && PowerOfTwo(ZoneIndex(size).1)
    ensures ZoneIndex(size).1 % size == 0
  {
    hide PowerOfTwo;
    PowersListed(size);
    ListedPowers();
  }

  lemma PowersListed(n: nat)
    requires PowerOfTwo(n) && n < ZONE_LIMIT
    ensures n in {1, 2, 4, 8, 16, 32, 64, 128, 256, 512, 1024, 2048, 4096, 8192}
  {
    if n > 1 { PowersListed(n / 2); }
  }

  lemma ListedPowers()
    ensures forall n | n in {8, 16, 32, 64, 128, 256, 512, 1024, 2048, 4096, 8192} :: PowerOfTwo(n)
  {
    assert PowerOfTwo(8) && PowerOfTwo(64) && PowerOfTwo(512) && PowerOfTwo(4096);
  }

  /** The zone the next chunk of class `i` comes from: the first one listed, else the first one parked, else pages. */
  function NextZone(s: Slab, i: nat, c: Config): Option<nat>
    requires i < |s.lists|
  {
    if s.lists[i] != [] then Some(s.lists[i][0])
    else if s.parked != [] then Some(s.parked[0])
    else SlabPages.Alloc(s.runs, c.zonePages).1
  }

  /** A power of two, from 8 up to the limit, is granted exactly when there is a zone for it, and is aligned to its size
      exactly when that zone is. */
  lemma PowerAlignment(s: Slab, c: Config, size: nat, heap: nat)
    requires T.Inv(s, c) && |s.lists| == NZONES && Proper(c) && PowerOfTwo(size) && 8 <= size < c.limit
    ensures ZoneIndex(size).0 < NZONES
    ensures var z, p := NextZone(s, ZoneIndex(size).0, c), AllocSlab(s, size, c).1;
            && (p.Some? <==> z.Some?)
            && (p.Some? ==> ((heap + p.value) % size == 0 <==> (heap + z.value * PAGE) % size == 0))
  {
    hide T.Inv, AllocSlab, ZoneIndex, PowerOfTwo, NextZone;
    PowerClass(size);
    T.ClassLimit(size, c);
    GrantedFrom(s, c, size);
    if AllocSlab(s, size, c).1.Some? {
      T.AllocKeeps(s, c, size);
      ChunkOfClass(s, c, size);
      var (t, p) := AllocSlab(s, size, c);
      ChunkAligned(t, c, p.value, heap);
    }
  }

  /** What a request below the limit gets is a chunk of that zone. */
  lemma GrantedFrom(s: Slab, c: Config, size: nat)
    requires T.Inv(s, c) && |s.lists| == NZONES && Proper(c) && 0 < size < c.limit && ZoneIndex(size).0 < NZONES
    ensures var z := NextZone(s, ZoneIndex(size).0, c); var (t, p) := AllocSlab(s, size, c);
            && (p.Some? <==> z.Some?)
            && (p.Some? ==> p.value in t.live && t.live[p.value].Chunk? && t.live[p.value].zone == z.value)
  {
    hide ZoneIndex, ClassSize, Address, Offset, Capacity, SlabPages.Alloc;
    T.ClassLimit(size, c);
    T.NewZoneFits(ZoneIndex(size).0, c);
    var i := ZoneIndex(size).0;
    if s.lists[i] != [] {
      hide T.Inv;
      T.HeadListed(s, c, i);
    }
  }

  /** So a power of two up to the size of a page is always aligned, in a heap that starts at a page. */
  lemma SmallPowersAligned(s: Slab, c: Config, size: nat, heap: nat)
    requires T.Inv(s, c) && |s.lists| == NZONES && Proper(c) && PowerOfTwo(size) && size <= PAGE && heap % PAGE == 0
    requires AllocSlab(s, size, c).1.Some?
    ensures (heap + AllocSlab(s, size, c).1.value) % size == 0
  {
    hide T.Inv, AllocSlab, ZoneIndex, PowerOfTwo;
    T.AllocKeeps(s, c, size);
    PositivePower(size);
    ChunkOfClass(s, c, size);
    PowerClass(size);
    var (t, p) := AllocSlab(s, size, c);
    var chunk := ZoneIndex(size).1;
    ChunkAligned(t, c, p.value, heap);
    PageIsPower();
    PowerDivides(chunk, PAGE);
    var z := t.live[p.value].zone;
    assert (heap + z * PAGE) % PAGE == 0;
    Divides(heap + z * PAGE, PAGE, chunk);
    Divides(heap + p.value, chunk, size);
  }

  lemma Divides(n: nat, a: nat, b: nat)
    requires b > 0 && a > 0 && n % a == 0 && a % b == 0
    ensures n % b == 0
  {
    var q, k := n / a, a / b;
    assert n == q * a && a == k * b;
    Associate(q, k, b);
    Multiple(q * k, b);
  }

  /** Beyond a page they need not be: the first zone of a fresh heap starts behind the page descriptors. */
  lemma LargePowerNotAligned(usage: seq<Usage>)
    requires |usage| == 17000
    ensures var c := Config(17000, 16, 16384); var s := T.Fresh(c, usage);
            && T.Inv(s, c) && |s.lists| == NZONES && Proper(c)
            && AllocSlab(s, 8192, c).1 == Some(17 * PAGE + 8192) && (17 * PAGE + 8192) % 8192 != 0
  {
    hide T.Inv, AllocSlab, T.Fresh;
    FirstPointer(Config(17000, 16, 16384), usage, 17, 8192);
  }

  /** The same for a request that is rounded to 8192 bytes, in a small heap. */
  lemma RoundedPowerNotAligned(usage: seq<Usage>)
    requires |usage| == 100
    ensures var c := Config(100, 8, 8192); var s := T.Fresh(c, usage);
            && T.Inv(s, c) && |s.lists| == NZONES && Proper(c)
            && AllocSlab(s, 8000, c).1 == Some(12288) && 12288 % 8192 != 0
  {
    hide T.Inv, AllocSlab, T.Fresh;
    FirstPointer(Config(100, 8, 8192), usage, 1, 8000);
  }

  lemma FirstPointer(c: Config, usage: seq<Usage>, m: nat, size: nat)
    requires Proper(c) && |usage| == c.pages && m > 0 && m * PAGE - PAGE < c.pages * 4 <= m * PAGE && c.pages >= m + c.zonePages
    requires size in {8000, 8192} && size < c.limit
    ensures var s := T.Fresh(c, usage);
            && T.Inv(s, c) && |s.lists| == NZONES && AllocSlab(s, size, c).1 == Some(m * PAGE + 8192)
  {
    hide T.Inv, AllocSlab;
    T.FreshInv(c, usage);
    FirstZone(T.Fresh(c, usage), c, m, size);
  }

  lemma FirstZone(s: Slab, c: Config, m: nat, size: nat)
    requires Proper(c) && |s.lists| == NZONES && c.pages >= m + c.zonePages && s.runs == [Run(m, c.pages - m)]
    requires (forall i | 0 <= i < NZONES :: s.lists[i] == []) && s.parked == [] && |s.usage| == c.pages
    requires size in {8000, 8192} && size < c.limit
    ensures AllocSlab(s, size, c).1 == Some(m * PAGE + 8192)
  {
    hide Offset, ZoneIndex, SlabPages.Alloc, MarkZone, MaxOf;
    FirstOffset();
    FirstClass(size);
    OneRunFits(m, c.pages - m, c.zonePages);
    assert Capacity(8192, c.zonePages) >= 1;
    assert FromNewZone(s, 63, 8192, c).1 == Some(m * PAGE + 8192);
  }

  lemma FirstOffset()
    ensures Offset(8192) == 8192
  {
    hide Offset;
    PageIsPower();
    OffsetMeaning(8192);
  }

  lemma FirstClass(size: nat)
    requires size in {8000, 8192}
    ensures ZoneIndex(size) == (63, 8192)
  {
  }

  lemma OneRunFits(m: nat, count: nat, n: nat)
    requires 0 < n <= count
    ensures SlabPages.Alloc([Run(m, count)], n).1 == Some(m)
  {
    assert FirstFit([Run(m, count)], n) == 0;
  }
}
