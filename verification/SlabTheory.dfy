/** The invariant of the slab allocator (slab.c), and what its calls do to the live pointers, over all runs. */
module SlabTheory {
  import opened Basics
  import opened Numbers
  import opened SlabPages
  import opened SlabClasses
  import opened SlabSpec
  import WaitQueue

  // ---- The invariant -----------------------------------------------------------------------

  ghost predicate Covered(taken: map<nat, nat>, x: int) {
    exists a :: a in taken && a <= x < a + taken[a]
  }

  ghost predicate Apart(taken: map<nat, nat>) {
    forall a, b | a in taken && b in taken && a != b :: a + taken[a] <= b || b + taken[b] <= a
  }

  /** Every page of the heap is free or in one run in use, and the list of free pages is normal. */
  ghost predicate PagesOk(s: Slab, c: Config) {
    && Normal(s.runs) && Apart(s.taken)
    && (forall a | a in s.taken :: 0 < s.taken[a] && a + s.taken[a] <= c.pages)
    && (forall x: int :: Has(s.runs, x) <==> 0 <= x < c.pages && !Covered(s.taken, x))
  }

  /** The header of a zone in use: its chunks fit behind it, and its free ones are counted right. */
  ghost predicate Fit(h: Zone, c: Config) {
    && h.index < NZONES && h.size == ClassSize(h.index) && 0 < h.size <= c.limit
    && h.base == Offset(h.size) && h.nmax == Capacity(h.size, c.zonePages) && h.nmax >= 2
    && h.uindex < h.nmax && Distinct(h.freed) && (forall k | k in h.freed :: k <= h.uindex)
    && h.nfree == h.nmax - 1 - h.uindex + |h.freed|
  }

  /** Every page of a zone says how far it is from the first. */
  ghost predicate Described(usage: seq<Usage>, z: nat, n: nat) {
    z + n <= |usage| && forall k | z <= k < z + n :: usage[k] == Usage(Small, k - z)
  }

  ghost predicate ZonesOk(s: Slab, c: Config) {
    && |s.usage| == c.pages
    && (forall z | z in s.zones :: z in s.taken && s.taken[z] == c.zonePages && Described(s.usage, z, c.zonePages))
    && (forall z | z in s.zones && z !in s.parked :: Fit(s.zones[z], c))
  }

  /** The zones with free chunks are on the list of their class, and at most one of a list is all free. */
  ghost predicate ListsOk(s: Slab) {
    Lists(s) && forall i | 0 <= i < NZONES :: OneFree(s, s.lists[i])
  }

  ghost predicate Lists(s: Slab) {
    && |s.lists| == NZONES
    && (forall i | 0 <= i < NZONES :: Distinct(s.lists[i]) && Listed(s, i))
    && Distinct(s.parked) && |s.parked| <= RELEASE_THRESH && (forall z | z in s.parked :: z in s.zones)
  }

  ghost predicate Listed(s: Slab, i: nat)
    requires i < |s.lists|
  {
    forall z :: z in s.lists[i] <==> z in s.zones && z !in s.parked && s.zones[z].index == i && s.zones[z].nfree > 0
  }

  ghost predicate OneFree(s: Slab, list: seq<nat>) {
    forall y, z | y in list && z in list && y in s.zones && z in s.zones && AllFree(s.zones[y]) && AllFree(s.zones[z]) :: y == z
  }

  predicate AllFree(h: Zone) {
    h.nfree == h.nmax
  }

  predicate InUse(h: Zone, k: nat) {
    k <= h.uindex && k !in h.freed
  }

  ghost predicate PieceOk(s: Slab, p: nat, piece: Piece) {
    match piece
    case Pages(n) =>
      && p % PAGE == 0 && n > 0 && p / PAGE in s.taken && s.taken[p / PAGE] == n && p / PAGE !in s.zones
      && p / PAGE < |s.usage| && s.usage[p / PAGE] == Usage(Large, n)
    case Chunk(z, k, bytes) =>
      && z in s.zones && z !in s.parked && bytes == s.zones[z].size
      && InUse(s.zones[z], k) && p == Address(z, s.zones[z], k)
  }

  /** The live pointers are the large blocks handed out and the chunks in use. */
  ghost predicate LiveOk(s: Slab) {
    && (forall p | p in s.live :: PieceOk(s, p, s.live[p]))
    && (forall z, k: nat | z in s.zones && z !in s.parked && InUse(s.zones[z], k) ::
          var p := Address(z, s.zones[z], k); p in s.live && s.live[p] == Chunk(z, k, s.zones[z].size))
  }

  ghost function Total(live: map<nat, Piece>): nat
    decreases |live|
  {
    if live == map[] then 0
    else
      var p :| p in live;
      SizeOf(live[p]) + Total(live - {p})
  }

  ghost predicate UsedOk(s: Slab) {
    s.used == Total(s.live) && s.used <= s.max
  }

  ghost predicate Inv(s: Slab, c: Config) {
    Proper(c) && PagesOk(s, c) && ZonesOk(s, c) && ListsOk(s) && LiveOk(s) && UsedOk(s)
  }

  // ---- The sum of live sizes -----------------------------------------------------------------

  lemma {:induction false} TotalWithout(live: map<nat, Piece>, p: nat)
    requires p in live
    ensures Total(live) == SizeOf(live[p]) + Total(live - {p})
    decreases |live|
  {
    var q :| q in live && Total(live) == SizeOf(live[q]) + Total(live - {q});
    if q != p {
      TotalWithout(live - {q}, p);
      TotalWithout(live - {p}, q);
      assert live - {q} - {p} == live - {p} - {q};
    }
  }

  lemma TotalWith(live: map<nat, Piece>, p: nat, piece: Piece)
    requires p !in live
    ensures Total(live[p := piece]) == Total(live) + SizeOf(piece)
  {
    TotalWithout(live[p := piece], p);
    assert live[p := piece] - {p} == live;
  }

  // ---- Addresses ---------------------------------------------------------------------------

  /** The chunks of a zone lie behind its header and end in its last page. */
  lemma ChunkInside(h: Zone, c: Config, k: nat)
    requires Proper(c) && Fit(h, c) && k < h.nmax
    ensures ZONE_HDR <= h.base && h.base + k * h.size + h.size <= c.zonePages * PAGE
  {
    hide Offset, ClassSize;
    OffsetMeaning(h.size);
    WholeChunks(c.zonePages * PAGE - h.base, h.size, h.nmax, k);
  }

  lemma WholeChunks(room: int, size: nat, count: int, k: nat)
    requires size > 0 && count == room / size && k < count
    ensures k * size + size <= room
  {
    assert room == count * size + room % size;
    Scale(k + 1, count, size);
    Distribute(k, 1, size);
  }

  lemma InUseBelow(h: Zone, c: Config, k: nat)
    requires Fit(h, c) && InUse(h, k)
    ensures k < h.nmax
  {
  }

  /** A chunk's page lies in its zone. */
  lemma ChunkPage(z: nat, h: Zone, c: Config, k: nat)
    requires Proper(c) && Fit(h, c) && k < h.nmax
    ensures var p := Address(z, h, k);
            && z <= p / PAGE < z + c.zonePages
            && z * PAGE < p && p + h.size <= (z + c.zonePages) * PAGE
  {
    hide Fit, Proper, Offset, ClassSize;
    ChunkInside(h, c, k);
    FitSize(h, c);
    PageBetween(z, c.zonePages, h.base + k * h.size, h.size);
  }

  /** A piece at offset `r` of a run of pages. */
  lemma PageBetween(z: nat, pages: nat, r: nat, size: nat)
    requires 0 < r && 0 < size && r + size <= pages * PAGE
    ensures z <= (z * PAGE + r) / PAGE < z + pages && z * PAGE + r + size <= (z + pages) * PAGE
  {
  }

  /** Two chunks of a zone do not overlap. */
  lemma ChunksApart(z: nat, h: Zone, j: nat, k: nat)
    requires j < k && h.size > 0
    ensures Address(z, h, j) + h.size <= Address(z, h, k)
  {
    Scale(j + 1, k, h.size);
    Distribute(j, 1, h.size);
  }

  /** The pages of two zones, or of a zone and a large block, are apart. */
  lemma ExtentsApart(s: Slab, c: Config, a: nat, b: nat)
    requires PagesOk(s, c) && a in s.taken && b in s.taken && a != b
    ensures a + s.taken[a] <= b || b + s.taken[b] <= a
  {
  }

  /** Where a piece lies: inside one run of pages in use. */
  ghost function Extent(p: nat, piece: Piece): nat {
    match piece
    case Pages(_) => p / PAGE
    case Chunk(z, _, _) => z
  }

  lemma PieceInside(s: Slab, c: Config, p: nat, piece: Piece)
    requires Proper(c) && PagesOk(s, c) && ZonesOk(s, c) && PieceOk(s, p, piece)
    ensures var a := Extent(p, piece);
            && a in s.taken && a * PAGE <= p && p + SizeOf(piece) <= (a + s.taken[a]) * PAGE
            && a + s.taken[a] <= c.pages && SizeOf(piece) > 0
            && a <= p / PAGE < a + s.taken[a]
  {
    match piece
    case Pages(n) =>
    case Chunk(z, k, bytes) =>
      InUseBelow(s.zones[z], c, k);
      ChunkPage(z, s.zones[z], c, k);
  }

  /** Live pieces lie inside the heap, and no two of them overlap. */
  lemma LivePiecesApart(s: Slab, c: Config, p: nat, q: nat)
    requires Inv(s, c) && p in s.live && q in s.live && p != q
    ensures p + SizeOf(s.live[p]) <= c.pages * PAGE
    ensures p + SizeOf(s.live[p]) <= q || q + SizeOf(s.live[q]) <= p
  {
    hide Apart, Fit, Described, Normal, Has, Total, ListsOk;
    assert PieceOk(s, p, s.live[p]) && PieceOk(s, q, s.live[q]);
    PieceInside(s, c, p, s.live[p]);
    PieceInside(s, c, q, s.live[q]);
    var a, b := Extent(p, s.live[p]), Extent(q, s.live[q]);
    if a != b {
      ExtentsApart(s, c, a, b);
    } else if s.live[p].Chunk? && s.live[q].Chunk? {
      var j, k := s.live[p].chunk, s.live[q].chunk;
      if j < k { ChunksApart(a, s.zones[a], j, k); }
      if k < j { ChunksApart(a, s.zones[a], k, j); }
    }
  }

  /** The descriptor of a live pointer's page leads back to what it was handed out as. */
  lemma DescriptorLeadsBack(s: Slab, c: Config, p: nat)
    requires Inv(s, c) && p in s.live
    ensures p / PAGE < |s.usage|
    ensures match s.live[p]
            case Pages(n) => s.usage[p / PAGE] == Usage(Large, n)
            case Chunk(z, k, bytes) =>
              && s.usage[p / PAGE].kind == Small && ZoneOf(s, p) == z
              && (p - z * PAGE - s.zones[z].base) / bytes == k
  {
    hide Apart, Normal, Has, Total, ListsOk, InUse;
    assert PieceOk(s, p, s.live[p]);
    PieceInside(s, c, p, s.live[p]);
    match s.live[p]
    case Pages(_) =>
    case Chunk(z, k, bytes) =>
      assert Described(s.usage, z, c.zonePages);
      assert p - z * PAGE - s.zones[z].base == k * bytes;
      assert Fit(s.zones[z], c);
      Multiple(k, bytes);
  }

  /** A chunk that is not in use has no live pointer. */
  lemma NotLiveYet(s: Slab, c: Config, z: nat, k: nat)
    requires Proper(c) && PagesOk(s, c) && ZonesOk(s, c) && LiveOk(s)
    requires z in s.zones && z !in s.parked && k < s.zones[z].nmax && !InUse(s.zones[z], k)
    ensures Address(z, s.zones[z], k) !in s.live
  {
    hide Apart, Described, Normal, Has;
    var p := Address(z, s.zones[z], k);
    if p in s.live {
      assert PieceOk(s, p, s.live[p]);
      PieceInside(s, c, p, s.live[p]);
      ChunkPage(z, s.zones[z], c, k);
      var a := Extent(p, s.live[p]);
      if a != z { ExtentsApart(s, c, a, z); }
      SameChunk(z, s.zones[z], k, s.live[p].chunk);
    }
  }

  lemma SameChunk(z: nat, h: Zone, j: nat, k: nat)
    requires h.size > 0 && Address(z, h, j) == Address(z, h, k)
    ensures j == k
  {
    if j < k { ChunksApart(z, h, j, k); }
    if k < j { ChunksApart(z, h, k, j); }
  }

  // ---- Taking and giving pages -----------------------------------------------------------------

  lemma TakePagesOk(s: Slab, c: Config, n: nat)
    requires PagesOk(s, c)
    ensures var (t, p) := TakePages(s, n);
            && PagesOk(t, c)
            && (p == None ==> t == s) && (p == None <==> n == 0 || forall r | r in s.runs :: r.count < n)
            && (p.Some? ==> n > 0 && p.value !in s.taken && p.value + n <= c.pages)
            && (p.Some? ==> forall a | a in s.taken :: a + s.taken[a] <= p.value || p.value + n <= a)
  {
    hide Normal, Has, Alloc;
    AllocMeaning(s.runs, n);
    var (t, p) := TakePages(s, n);
    if p.Some? {
      AllocSome(s.runs, n);
      FreshRun(s, c, p.value, n);
      forall x: int ensures Covered(t.taken, x) <==> Covered(s.taken, x) || p.value <= x < p.value + n {
        CoveredMore(s.taken, p.value, n, x);
      }
    }
  }

  lemma CoveredMore(taken: map<nat, nat>, p: nat, n: nat, x: int)
    requires p !in taken
    ensures Covered(taken[p := n], x) <==> Covered(taken, x) || p <= x < p + n
  {
    var t := taken[p := n];
    if p <= x < p + n { assert p in t && p <= x < p + t[p]; }
    if Covered(taken, x) {
      var a :| a in taken && a <= x < a + taken[a];
      assert a in t && a <= x < a + t[a];
    }
  }

  /** Free pages are apart from all runs in use. */
  lemma FreshRun(s: Slab, c: Config, p: nat, n: nat)
    requires PagesOk(s, c) && n > 0 && forall x: int | p <= x < p + n :: Has(s.runs, x)
    ensures p !in s.taken && p + n <= c.pages
    ensures forall a | a in s.taken :: a + s.taken[a] <= p || p + n <= a
  {
    hide Normal, Has;
    assert Has(s.runs, p + n - 1) && Has(s.runs, p);
    forall a | a in s.taken ensures a + s.taken[a] <= p || p + n <= a {
      assert a <= p < a + s.taken[a] ==> Covered(s.taken, p);
      assert a <= a < a + s.taken[a] && Covered(s.taken, a);
      assert p <= a < p + n ==> Has(s.runs, a);
    }
  }

  lemma GivePagesOk(s: Slab, c: Config, p: nat)
    requires PagesOk(s, c) && p in s.taken
    ensures PagesOk(GivePages(s, p, s.taken[p]), c)
  {
    hide Normal, Has, Free;
    var n, t := s.taken[p], GivePages(s, p, s.taken[p]);
    forall x: int | p <= x < p + n ensures Covered(s.taken, x) { assert p in s.taken; }
    FreeMeaning(s.runs, p, n);
    forall x: int ensures Covered(t.taken, x) <==> Covered(s.taken, x) && !(p <= x < p + n) {
      CoveredLess(s.taken, p, x);
    }
  }

  lemma CoveredLess(taken: map<nat, nat>, p: nat, x: int)
    requires Apart(taken) && p in taken
    ensures Covered(taken - {p}, x) <==> Covered(taken, x) && !(p <= x < p + taken[p])
  {
    var t := taken - {p};
    if Covered(t, x) {
      var a :| a in t && a <= x < a + t[a];
      assert a in taken && a != p && t[a] == taken[a];
    }
    if Covered(taken, x) && !(p <= x < p + taken[p]) {
      var a :| a in taken && a <= x < a + taken[a];
      assert a in t && t[a] == taken[a];
    }
  }

  // ---- Chunks of a zone ------------------------------------------------------------------------

  /** What one zone hands out next was not in use, and nothing else changes in it. */
  lemma NextChunkFacts(h: Zone, c: Config)
    requires Fit(h, c) && h.nfree > 0
    ensures var (h', k) := NextChunk(h);
            && Fit(h', c) && h' == h.(uindex := h'.uindex, nfree := h.nfree - 1, freed := h'.freed) && h'.nfree < h'.nmax
            && k < h.nmax && !InUse(h, k) && InUse(h', k)
            && forall j | j != k :: InUse(h', j) <==> InUse(h, j)
  {
    hide Offset, Capacity, ClassSize;
    FreedBound(h.freed, h.uindex);
    FirstIsIn(h.freed);
    if h.uindex + 1 == h.nmax { WaitQueue.PopDistinct(h.freed); }
  }

  lemma PutChunkFacts(h: Zone, c: Config, k: nat)
    requires Fit(h, c) && InUse(h, k)
    ensures var h' := h.(freed := [k] + h.freed, nfree := h.nfree + 1);
            Fit(h', c) && h'.nfree <= h'.nmax && !InUse(h', k) && forall j | j != k :: InUse(h', j) <==> InUse(h, j)
  {
    WaitQueue.PushDistinct(h.freed, k);
    FreedBound([k] + h.freed, h.uindex);
  }

  /** A list of distinct chunks up to `top` has at most `top + 1` of them. */
  lemma {:induction false} FreedBound(q: seq<nat>, top: int)
    requires Distinct(q) && top >= -1 && forall k | k in q :: k <= top
    ensures |q| <= top + 1
    decreases top
  {
    FirstIsIn(q);
    if top in q {
      var i :| 0 <= i < |q| && q[i] == top;
      var r := q[..i] + q[i + 1..];
      assert forall x | 0 <= x < |r| :: r[x] == q[if x < i then x else x + 1];
      forall k | k in r ensures k in q && k <= top - 1 {
        var j :| 0 <= j < |r| && r[j] == k;
        assert r[j] == q[if j < i then j else j + 1];
      }
      FreedBound(r, top - 1);
    } else if top >= 0 {
      FreedBound(q, top - 1);
    }
  }

  lemma FirstIsIn(q: seq<nat>)
    ensures q != [] ==> q[0] in q
  {
  }

  /** A zone whose chunks in use change by one, at `k`, with that pointer handed out or taken back. */
  lemma LiveStep(s: Slab, t: Slab, c: Config, z: nat, k: nat)
    requires Proper(c) && PagesOk(s, c) && ZonesOk(s, c) && LiveOk(s)
    requires OneChunk(s, t, z, k)
    ensures LiveOk(t)
    ensures InUse(s.zones[z], k) <==> Address(z, s.zones[z], k) in s.live
  {
    hide PagesOk, ZonesOk, InUse, Address, Proper;
    if !InUse(s.zones[z], k) { NotLiveYet(s, c, z, k); }
    PiecesKept(s, t, z, k);
    ChunksKept(s, t, z, k);
  }

  ghost predicate OneChunk(s: Slab, t: Slab, z: nat, k: nat) {
    && z in s.zones && z !in s.parked && z in t.zones && t.parked == s.parked && k < s.zones[z].nmax
    && t.zones == s.zones[z := t.zones[z]] && t.taken == s.taken && t.usage == s.usage
    && var h, h' := s.zones[z], t.zones[z];
       && h'.base == h.base && h'.size == h.size
       && (forall j | j != k :: InUse(h', j) <==> InUse(h, j))
       && (InUse(h', k) <==> !InUse(h, k))
       && t.live == if InUse(h, k) then s.live - {Address(z, h, k)}
                    else s.live[Address(z, h, k) := Chunk(z, k, h.size)]
  }

  lemma PiecesKept(s: Slab, t: Slab, z: nat, k: nat)
    requires LiveOk(s) && OneChunk(s, t, z, k)
    ensures forall q | q in t.live :: PieceOk(t, q, t.live[q])
  {
    hide InUse, LiveOk;
    var h := s.zones[z];
    var p := Address(z, h, k);
    forall q | q in t.live ensures PieceOk(t, q, t.live[q]) {
      if q != p { OnePiece(s, q); }
    }
  }

  lemma OnePiece(s: Slab, q: nat)
    requires LiveOk(s) && q in s.live
    ensures PieceOk(s, q, s.live[q])
  {
  }

  lemma OneInUse(s: Slab, z: nat, k: nat)
    requires LiveOk(s) && z in s.zones && z !in s.parked && InUse(s.zones[z], k)
    ensures Address(z, s.zones[z], k) in s.live
    ensures s.live[Address(z, s.zones[z], k)] == Chunk(z, k, s.zones[z].size)
  {
  }

  lemma ChunksKept(s: Slab, t: Slab, z: nat, k: nat)
    requires LiveOk(s) && OneChunk(s, t, z, k)
    requires !InUse(s.zones[z], k) ==> Address(z, s.zones[z], k) !in s.live
    ensures forall y, j: nat | y in t.zones && y !in t.parked && InUse(t.zones[y], j) ::
              var q := Address(y, t.zones[y], j); q in t.live && t.live[q] == Chunk(y, j, t.zones[y].size)
    ensures InUse(s.zones[z], k) ==> Address(z, s.zones[z], k) in s.live
  {
    hide InUse, LiveOk;
    if InUse(s.zones[z], k) { OneInUse(s, z, k); }
    forall y, j: nat | y in t.zones && y !in t.parked && InUse(t.zones[y], j)
      ensures var q := Address(y, t.zones[y], j); q in t.live && t.live[q] == Chunk(y, j, t.zones[y].size)
    {
      if y != z || j != k { OneInUse(s, y, j); }
    }
  }

  // ---- Allocation ------------------------------------------------------------------------------

  /** A grant: one more live pointer, which was not live, and the bytes it counts. */
  ghost predicate Granted(s: Slab, t: Slab, p: nat, least: nat) {
    && p !in s.live && p in t.live && t.live == s.live[p := t.live[p]] && SizeOf(t.live[p]) >= least
    && t.used == s.used + SizeOf(t.live[p]) && t.max == MaxOf(s.max, t.used)
  }

  /** Two states that differ in live pointers and bytes by one grant. */
  lemma HandUsed(s: Slab, p: nat, piece: Piece)
    requires UsedOk(s) && p !in s.live
    ensures UsedOk(Hand(s, p, piece)) && Granted(s, Hand(s, p, piece), p, SizeOf(piece))
  {
    TotalWith(s.live, p, piece);
  }

  /** The lists of the other classes do not notice a change of one zone. */
  lemma OtherList(s: Slab, t: Slab, z: nat, j: nat)
    requires j < |s.lists| && j < |t.lists| && t.lists[j] == s.lists[j] && Listed(s, j) && OneFree(s, s.lists[j])
    requires forall y | y != z :: y in t.zones <==> y in s.zones
    requires forall y | y != z && y in s.zones :: t.zones[y] == s.zones[y] && (y in t.parked <==> y in s.parked)
    requires z in s.zones && z !in s.parked ==> s.zones[z].index != j
    requires z in t.zones && z !in t.parked ==> t.zones[z].index != j
    ensures Listed(t, j) && OneFree(t, t.lists[j])
  {
  }

  lemma FromZoneLists(s: Slab, t: Slab, i: nat, c: Config)
    requires ListsOk(s) && ZonesOk(s, c) && i < NZONES && s.lists[i] != []
    requires var z := s.lists[i][0];
             && z in s.zones && t.zones == s.zones[z := NextChunk(s.zones[z]).0] && t.parked == s.parked
             && t.lists == if t.zones[z].nfree == 0 then s.lists[i := s.lists[i][1..]] else s.lists
    ensures ListsOk(t)
  {
    hide Described, Fit, NextChunk, Listed, OneFree;
    var z := s.lists[i][0];
    HeadListed(s, c, i);
    NextChunkFacts(s.zones[z], c);
    FromZoneList(s, t, i, z);
    forall j | 0 <= j < NZONES ensures Distinct(t.lists[j]) && Listed(t, j) && OneFree(t, t.lists[j]) {
      if j != i { OtherList(s, t, z, j); }
    }
  }

  lemma FromZoneList(s: Slab, t: Slab, i: nat, z: nat)
    requires i < |s.lists| && s.lists[i] != [] && z == s.lists[i][0] && z in s.zones && z !in s.parked && s.zones[z].index == i
    requires Distinct(s.lists[i]) && Listed(s, i) && OneFree(s, s.lists[i])
    requires z in t.zones && t.zones == s.zones[z := t.zones[z]] && t.parked == s.parked
    requires t.zones[z].index == i && t.zones[z].nfree == s.zones[z].nfree - 1 < t.zones[z].nmax
    requires t.lists == if t.zones[z].nfree == 0 then s.lists[i := s.lists[i][1..]] else s.lists
    ensures Distinct(t.lists[i]) && Listed(t, i) && OneFree(t, t.lists[i])
  {
    WaitQueue.PopDistinct(s.lists[i]);
    assert z in s.lists[i];
  }

  lemma HeadListed(s: Slab, c: Config, i: nat)
    requires ListsOk(s) && ZonesOk(s, c) && i < NZONES && s.lists[i] != []
    ensures var z := s.lists[i][0];
            z in s.zones && z !in s.parked && s.zones[z].index == i && s.zones[z].nfree > 0 && Fit(s.zones[z], c)
  {
    assert Listed(s, i) && s.lists[i][0] in s.lists[i];
  }

  lemma FromZoneKeeps(s: Slab, c: Config, i: nat)
    requires Inv(s, c) && i < NZONES && s.lists[i] != []
    ensures var (t, p) := FromZone(s, i); p.Some? && Inv(t, c) && Granted(s, t, p.value, ClassSize(i))
  {
    hide PagesOk, Described, Fit, InUse, Total, Listed, OneFree, ClassSize, NextChunk, LiveOk, UsedOk, Proper;
    HeadListed(s, c, i);
    var z := s.lists[i][0];
    var (h, k) := NextChunk(s.zones[z]);
    NextChunkFacts(s.zones[z], c);
    var (t, p) := FromZone(s, i);
    LiveStep(s, t, c, z, k);
    HandUsed(s, p.value, Chunk(z, k, h.size));
    SameCounts(Hand(s, p.value, Chunk(z, k, h.size)), t);
    FromZoneLists(s, t, i, c);
    FitSize(h, c);
    SamePages(s, t, c);
  }

  lemma FitSize(h: Zone, c: Config)
    requires Fit(h, c)
    ensures h.size == ClassSize(h.index) > 0
  {
  }

  lemma SameCounts(s: Slab, t: Slab)
    requires UsedOk(s) && t.live == s.live && t.used == s.used && t.max == s.max
    ensures UsedOk(t)
  {
  }

  lemma SamePages(s: Slab, t: Slab, c: Config)
    requires PagesOk(s, c) && t.runs == s.runs && t.taken == s.taken
    ensures PagesOk(t, c)
  {
  }

  /** A zone for chunks of class `i` holds at least two. */
  lemma NewZoneFits(i: nat, c: Config)
    requires Proper(c) && i < NZONES && ClassSize(i) <= c.limit
    ensures ClassSize(i) > 0 && Capacity(ClassSize(i), c.zonePages) >= 2
    ensures Fit(NewZone(i, ClassSize(i), c.zonePages), c) && NewZone(i, ClassSize(i), c.zonePages).nfree > 0
    ensures forall k :: InUse(NewZone(i, ClassSize(i), c.zonePages), k) <==> k == 0
  {
    hide Offset, ClassSize;
    SmallClass(i);
    OffsetMeaning(ClassSize(i));
    RoomForTwo(c.zonePages * PAGE - Offset(ClassSize(i)), ClassSize(i));
  }

  lemma RoomForTwo(room: int, size: nat)
    requires size > 0 && room >= 2 * size
    ensures room / size >= 2
  {
    assert room == (room / size) * size + room % size;
    Scale(room / size, 1, size);
  }

  lemma SmallClass(i: nat)
    requires i < NZONES
    ensures ClassSize(i) >= 8
  {
  }

  lemma ClassLimit(size: nat, c: Config)
    requires Proper(c) && 0 < size < c.limit
    ensures var (i, chunk) := ZoneIndex(size);
            i < NZONES && chunk == ClassSize(i) && size <= chunk <= c.limit
  {
    hide ZoneIndex, ClassSize;
    ClassMeaning(size);
    var (i, chunk) := ZoneIndex(size);
    LimitIsClass(c);
    var j := if c.limit == 8192 then 63 else 71;
    if j < i { ClassesGrowUp(j, i - 1); }
    if i < j { ClassesGrow(i, j); }
  }

  lemma LimitIsClass(c: Config)
    requires Proper(c)
    ensures c.limit == 8192 || c.limit == 16384
    ensures ClassSize(63) == 8192 && ClassSize(71) == 16384
  {
  }

  /** A zone is set up for class `i`, and its first chunk handed out. */
  lemma SetUpLive(s: Slab, t: Slab, c: Config, z: nat, i: nat)
    requires Proper(c) && PagesOk(s, c) && ZonesOk(s, c) && LiveOk(s) && i < NZONES && ClassSize(i) <= c.limit
    requires z !in s.zones || z in s.parked
    requires forall p | p in s.live && s.live[p].Pages? :: p / PAGE != z && p / PAGE in t.taken && t.taken[p / PAGE] == s.taken[p / PAGE]
    requires ClassSize(i) > 0 && Capacity(ClassSize(i), c.zonePages) >= 1
    requires t.zones == s.zones[z := NewZone(i, ClassSize(i), c.zonePages)] && z !in t.parked
    requires forall y | y != z && y in s.zones :: y in t.parked <==> y in s.parked
    requires |t.usage| == |s.usage|
    requires forall p | p in s.live && s.live[p].Pages? && p / PAGE < |s.usage| :: t.usage[p / PAGE] == s.usage[p / PAGE]
    requires var h := t.zones[z]; Address(z, h, 0) !in s.live && t.live == s.live[Address(z, h, 0) := Chunk(z, 0, ClassSize(i))]
    ensures LiveOk(t)
  {
    hide Apart, Described, Normal, Has, InUse, Fit, ClassSize, Offset, Capacity;
    NewZoneFits(i, c);
    var h := t.zones[z];
    var p := Address(z, h, 0);
    forall q | q in t.live ensures PieceOk(t, q, t.live[q]) {
      if q != p { assert PieceOk(s, q, s.live[q]); }
    }
    forall y, j: nat | y in t.zones && y !in t.parked && InUse(t.zones[y], j)
      ensures var q := Address(y, t.zones[y], j); q in t.live && t.live[q] == Chunk(y, j, t.zones[y].size)
    {
      if y != z {
        assert y in s.zones && InUse(s.zones[y], j);
        var q := Address(y, s.zones[y], j);
        assert q in s.live && s.live[q] == Chunk(y, j, s.zones[y].size);
      }
    }
  }

  /** No live pointer lies in pages that are not those of its own piece. */
  lemma NoPieceAt(s: Slab, c: Config, z: nat, p: nat)
    requires Proper(c) && PagesOk(s, c) && ZonesOk(s, c) && LiveOk(s)
    requires z <= p / PAGE < z + c.zonePages
    requires (z in s.parked && z in s.zones)
             || forall a | a in s.taken :: a + s.taken[a] <= z || z + c.zonePages <= a
    ensures p !in s.live
  {
    hide Apart, Described, Normal, Has, InUse, Fit;
    if p in s.live {
      assert PieceOk(s, p, s.live[p]);
      PieceInside(s, c, p, s.live[p]);
      var a := Extent(p, s.live[p]);
      if z in s.zones && z in s.parked && a != z { ExtentsApart(s, c, a, z); }
    }
  }

  lemma SetUpList(s: Slab, t: Slab, i: nat, z: nat)
    requires i < |s.lists| && s.lists[i] == [] && (z !in s.zones || z in s.parked) && Listed(s, i)
    requires z in t.zones && t.zones == s.zones[z := t.zones[z]] && z !in t.parked
    requires forall y | y != z && y in s.zones :: y in t.parked <==> y in s.parked
    requires t.zones[z].index == i && t.zones[z].nfree > 0 && t.lists == s.lists[i := [z] + s.lists[i]]
    ensures Distinct(t.lists[i]) && Listed(t, i) && OneFree(t, t.lists[i])
  {
    assert t.lists[i] == [z];
    assert forall y :: y !in s.lists[i];
  }

  lemma FromParkedKeeps(s: Slab, c: Config, i: nat)
    requires Inv(s, c) && i < NZONES && s.lists[i] == [] && s.parked != [] && ClassSize(i) <= c.limit
    ensures ClassSize(i) > 0 && Capacity(ClassSize(i), c.zonePages) >= 1
    ensures var (t, p) := FromNewZone(s, i, ClassSize(i), c); p.Some? && Inv(t, c) && Granted(s, t, p.value, ClassSize(i))
  {
    hide PagesOk, Described, Fit, InUse, Total, Listed, OneFree, ClassSize, Capacity, LiveOk, UsedOk, Proper, Offset, NewZone, PieceOk;
    NewZoneFits(i, c);
    var z := s.parked[0];
    assert z in s.parked;
    var h := NewZone(i, ClassSize(i), c.zonePages);
    var (t, p) := FromNewZone(s, i, ClassSize(i), c);
    NewZoneShape(i, c);
    ParkedKeeps(s, t, c, i, z, h);
    SamePages(s, t, c);
    NewAddress(z, h, c);
    NoPieceAt(s, c, z, p.value);
    HandUsed(s, p.value, Chunk(z, 0, ClassSize(i)));
    SameCounts(Hand(s, p.value, Chunk(z, 0, ClassSize(i))), t);
    LargeElsewhere(s, c, z);
    SetUpLive(s, t, c, z, i);
  }

  lemma NewZoneShape(i: nat, c: Config)
    requires ClassSize(i) > 0 && Capacity(ClassSize(i), c.zonePages) >= 1
    ensures var h := NewZone(i, ClassSize(i), c.zonePages); h.index == i && h.size == ClassSize(i)
  {
  }

  lemma NewAddress(z: nat, h: Zone, c: Config)
    requires Proper(c) && Fit(h, c)
    ensures z <= Address(z, h, 0) / PAGE < z + c.zonePages
  {
    ChunkPage(z, h, c, 0);
  }

  /** Large blocks start elsewhere than zones. */
  lemma LargeElsewhere(s: Slab, c: Config, z: nat)
    requires LiveOk(s) && z in s.zones
    ensures forall p | p in s.live && s.live[p].Pages? ::
              p / PAGE != z && p / PAGE in s.taken && p / PAGE < |s.usage|
  {
    forall p | p in s.live && s.live[p].Pages? ensures p / PAGE != z && p / PAGE in s.taken && p / PAGE < |s.usage| {
      assert PieceOk(s, p, s.live[p]);
    }
  }

  lemma ParkedKeeps(s: Slab, t: Slab, c: Config, i: nat, z: nat, h: Zone)
    requires ListsOk(s) && ZonesOk(s, c) && i < NZONES && s.lists[i] == [] && s.parked != [] && z == s.parked[0] && z in s.zones
    requires t.zones == s.zones[z := h] && t.parked == s.parked[1..] && t.usage == s.usage && t.taken == s.taken
    requires t.lists == s.lists[i := [z] + s.lists[i]] && Fit(h, c) && h.index == i && h.nfree > 0
    ensures ListsOk(t) && ZonesOk(t, c)
    ensures z !in t.parked && forall y | y != z && y in s.zones :: y in t.parked <==> y in s.parked
  {
    hide Described, Fit, Listed, OneFree;
    WaitQueue.PopDistinct(s.parked);
    SetUpList(s, t, i, z);
    forall j | 0 <= j < NZONES ensures Distinct(t.lists[j]) && Listed(t, j) && OneFree(t, t.lists[j]) {
      if j != i { OtherList(s, t, z, j); }
    }
  }

  /** Descriptors outside a run of pages that was free: those of zones and large blocks stay. */
  lemma DescribedElsewhere(s: Slab, c: Config, p: nat, n: nat, usage: seq<Usage>)
    requires PagesOk(s, c) && ZonesOk(s, c) && LiveOk(s) && |usage| == |s.usage|
    requires forall a | a in s.taken :: a + s.taken[a] <= p || p + n <= a
    requires forall k | 0 <= k < |usage| && !(p <= k < p + n) :: usage[k] == s.usage[k]
    ensures forall z | z in s.zones :: Described(usage, z, c.zonePages)
    ensures forall q | q in s.live && s.live[q].Pages? :: q / PAGE < |usage| && usage[q / PAGE] == s.usage[q / PAGE]
  {
    hide Normal, Has, Apart;
    forall z | z in s.zones ensures Described(usage, z, c.zonePages) {
      assert Described(s.usage, z, c.zonePages) && s.taken[z] == c.zonePages;
    }
    forall q | q in s.live && s.live[q].Pages? ensures q / PAGE < |usage| && usage[q / PAGE] == s.usage[q / PAGE] {
      assert PieceOk(s, q, s.live[q]);
    }
  }

  lemma TakenStays(s: Slab, p: nat, n: nat)
    requires p !in s.taken && LiveOk(s)
    ensures forall q | q in s.live && s.live[q].Pages? ::
              q / PAGE != p && q / PAGE in s.taken[p := n] && s.taken[p := n][q / PAGE] == s.taken[q / PAGE]
  {
    forall q | q in s.live && s.live[q].Pages? ensures q / PAGE != p && q / PAGE in s.taken {
      assert PieceOk(s, q, s.live[q]);
    }
  }

  lemma FromPagesKeeps(s: Slab, c: Config, i: nat)
    requires Inv(s, c) && i < NZONES && s.lists[i] == [] && s.parked == [] && ClassSize(i) <= c.limit
    ensures ClassSize(i) > 0 && Capacity(ClassSize(i), c.zonePages) >= 1
    ensures var (t, p) := FromNewZone(s, i, ClassSize(i), c);
            && Inv(t, c)
            && (p == None <==> forall r | r in s.runs :: r.count < c.zonePages) && (p == None ==> t == s)
            && (p.Some? ==> Granted(s, t, p.value, ClassSize(i)))
  {
    hide PagesOk, Described, Fit, InUse, Total, Listed, OneFree, ClassSize, Capacity, LiveOk, UsedOk, Proper, Offset, NewZone, PieceOk;
    NewZoneFits(i, c);
    NewZoneShape(i, c);
    TakePagesOk(s, c, c.zonePages);
    ZonePagesPositive(c);
    var h := NewZone(i, ClassSize(i), c.zonePages);
    var (u, z) := TakePages(s, c.zonePages);
    if z.Some? {
      var (t, p) := FromNewZone(s, i, ClassSize(i), c);
      SamePages(u, t, c);
      DescribedElsewhere(s, c, z.value, c.zonePages, t.usage);
      TakenStays(s, z.value, c.zonePages);
      NewAddress(z.value, h, c);
      NoPieceAt(s, c, z.value, p.value);
      HandUsed(s, p.value, Chunk(z.value, 0, ClassSize(i)));
      SameCounts(Hand(s, p.value, Chunk(z.value, 0, ClassSize(i))), t);
      SetUpLive(s, t, c, z.value, i);
      FreshZoneLists(s, t, c, i, z.value, h);
    }
  }

  lemma ZonePagesPositive(c: Config)
    requires Proper(c)
    ensures c.zonePages > 0
  {
  }

  lemma FreshZoneLists(s: Slab, t: Slab, c: Config, i: nat, z: nat, h: Zone)
    requires ListsOk(s) && ZonesOk(s, c) && i < NZONES && s.lists[i] == [] && s.parked == [] && z !in s.taken
    requires t.zones == s.zones[z := h] && t.parked == s.parked && t.taken == s.taken[z := c.zonePages]
    requires t.lists == s.lists[i := [z] + s.lists[i]] && Fit(h, c) && h.index == i && h.nfree > 0
    requires |t.usage| == |s.usage| && z + c.zonePages <= c.pages && t.usage == MarkZone(s.usage, z, c.zonePages)
    requires forall y | y in s.zones :: Described(t.usage, y, c.zonePages)
    ensures ListsOk(t) && ZonesOk(t, c)
  {
    hide Fit, Listed, OneFree;
    SetUpList(s, t, i, z);
    forall j | 0 <= j < NZONES ensures Distinct(t.lists[j]) && Listed(t, j) && OneFree(t, t.lists[j]) {
      if j != i { OtherList(s, t, z, j); }
    }
    assert Described(t.usage, z, c.zonePages);
  }

  lemma AllocLargeKeeps(s: Slab, c: Config, size: nat)
    requires Inv(s, c) && size > 0
    ensures var (t, p) := AllocLarge(s, size);
            && Inv(t, c)
            && (p == None <==> forall r | r in s.runs :: r.count < RoundUp(size, PAGE) / PAGE) && (p == None ==> t == s)
            && (p.Some? ==> Granted(s, t, p.value, size) && p.value % PAGE == 0)
  {
    hide PagesOk, Described, Fit, InUse, Total, Listed, OneFree, LiveOk, UsedOk, Proper, PieceOk;
    var n := RoundUp(size, PAGE) / PAGE;
    WholePages(size);
    TakePagesOk(s, c, n);
    var (u, p) := TakePages(s, n);
    if p.Some? {
      var (t, _) := AllocLarge(s, size);
      SamePages(u, t, c);
      DescribedElsewhere(s, c, p.value, n, t.usage);
      TakenStays(s, p.value, n);
      NotLiveThere(s, c, p.value, n);
      HandUsed(s, p.value * PAGE, Pages(n));
      SameCounts(Hand(s, p.value * PAGE, Pages(n)), t);
      LargeLive(s, t, c, p.value, n);
      LargeLists(s, t, c);
    }
  }

  lemma WholePages(size: nat)
    requires size > 0
    ensures var n := RoundUp(size, PAGE) / PAGE; n > 0 && size <= n * PAGE
  {
  }

  lemma NotLiveThere(s: Slab, c: Config, p: nat, n: nat)
    requires Proper(c) && PagesOk(s, c) && ZonesOk(s, c) && LiveOk(s) && n > 0
    requires forall a | a in s.taken :: a + s.taken[a] <= p || p + n <= a
    ensures p * PAGE !in s.live
  {
    hide Apart, Described, Normal, Has, InUse, Fit;
    if p * PAGE in s.live {
      assert PieceOk(s, p * PAGE, s.live[p * PAGE]);
      PieceInside(s, c, p * PAGE, s.live[p * PAGE]);
    }
  }

  lemma LargeLists(s: Slab, t: Slab, c: Config)
    requires ListsOk(s) && ZonesOk(s, c) && t.zones == s.zones && t.parked == s.parked && t.lists == s.lists
    requires |t.usage| == |s.usage| && (forall z | z in s.zones :: Described(t.usage, z, c.zonePages))
    requires forall z | z in s.zones :: z in t.taken && t.taken[z] == s.taken[z]
    ensures ListsOk(t) && ZonesOk(t, c)
  {
    hide Fit, Described;
    forall i | 0 <= i < NZONES ensures Distinct(t.lists[i]) && Listed(t, i) && OneFree(t, t.lists[i]) {
      assert Distinct(s.lists[i]) && Listed(s, i) && OneFree(s, s.lists[i]);
    }
  }

  lemma LargeLive(s: Slab, t: Slab, c: Config, p: nat, n: nat)
    requires LiveOk(s) && ZonesOk(s, c) && n > 0 && p !in s.taken && p < |s.usage|
    requires t.zones == s.zones && t.parked == s.parked && t.taken == s.taken[p := n]
    requires t.usage == s.usage[p := Usage(Large, n)] && t.live == s.live[p * PAGE := Pages(n)] && p * PAGE !in s.live
    ensures LiveOk(t)
  {
    hide InUse, Fit, Described;
    forall q | q in t.live ensures PieceOk(t, q, t.live[q]) {
      if q != p * PAGE { assert PieceOk(s, q, s.live[q]); }
    }
    forall y, j: nat | y in t.zones && y !in t.parked && InUse(t.zones[y], j)
      ensures var q := Address(y, t.zones[y], j); q in t.live && t.live[q] == Chunk(y, j, t.zones[y].size)
    {
      var q := Address(y, s.zones[y], j);
      assert q in s.live && s.live[q] == Chunk(y, j, s.zones[y].size);
    }
  }

  /** No zone of the class has a free chunk, none is parked, and no run of free pages is long enough. */
  predicate NoRoom(s: Slab, size: nat, c: Config) {
    if size == 0 then true
    else if size >= c.limit then forall r | r in s.runs :: r.count < RoundUp(size, PAGE) / PAGE
    else
      && (ZoneIndex(size).0 < |s.lists| ==> s.lists[ZoneIndex(size).0] == []) && s.parked == []
      && forall r | r in s.runs :: r.count < c.zonePages
  }

  /** rt_slab_alloc keeps the invariant. It hands out a new pointer to at least `size` bytes, and
      fails, changing nothing, exactly when there is no room. */
  lemma AllocKeeps(s: Slab, c: Config, size: nat)
    requires Inv(s, c)
    ensures var (t, p) := AllocSlab(s, size, c);
            && Inv(t, c)
            && (p == None ==> t == s)
            && (p == None <==> NoRoom(s, size, c))
            && (p.Some? ==> Granted(s, t, p.value, size))
  {
    hide PagesOk, LiveOk, UsedOk, ZonesOk, FromZone, FromNewZone, AllocLarge, ClassSize, ZoneIndex, Capacity, Granted;
    if size >= c.limit && size > 0 {
      AllocLargeKeeps(s, c, size);
    } else if size > 0 {
      ClassLimit(size, c);
      var (i, chunk) := ZoneIndex(size);
      NewZoneFits(i, c);
      if s.lists[i] != [] { FromZoneKeeps(s, c, i); }
      else if s.parked != [] { FromParkedKeeps(s, c, i); }
      else { FromPagesKeeps(s, c, i); }
      if AllocSlab(s, size, c).1.Some? { GrantedLess(s, AllocSlab(s, size, c).0, AllocSlab(s, size, c).1.value, chunk, size); }
    }
  }

  lemma GrantedLess(s: Slab, t: Slab, p: nat, most: nat, least: nat)
    requires Granted(s, t, p, most) && least <= most
    ensures Granted(s, t, p, least)
  {
  }

  /** A request gets the fewest whole pages that hold it, or one chunk of its class. */
  lemma AllocSize(s: Slab, c: Config, size: nat)
    requires Inv(s, c) && AllocSlab(s, size, c).1.Some?
    ensures var (t, p) := AllocSlab(s, size, c);
            && p.value in t.live
            && (if size >= c.limit then t.live[p.value].Pages? && SizeOf(t.live[p.value]) < size + PAGE
                else t.live[p.value].Chunk? && SizeOf(t.live[p.value]) == ZoneIndex(size).1)
  {
    hide PagesOk, Described, InUse, Total, OneFree, LiveOk, UsedOk, ZoneIndex, ClassSize, Capacity, Address, Offset, MarkZone,
         TakePages;
    if size < c.limit {
      ClassLimit(size, c);
      var i := ZoneIndex(size).0;
      if s.lists[i] != [] {
        HeadListed(s, c, i);
        NextSize(s.zones[s.lists[i][0]]);
      }
    }
  }

  lemma NextSize(h: Zone)
    ensures NextChunk(h).0.size == h.size
  {
  }

  /** A zone has as many chunks as there is room for. */
  lemma ZoneFull(h: Zone, c: Config)
    requires Proper(c) && Fit(h, c)
    ensures h.base + h.nmax * h.size <= c.zonePages * PAGE < h.base + h.nmax * h.size + h.size
  {
    hide Offset, ClassSize;
    var room := c.zonePages * PAGE - h.base;
    assert room == h.nmax * h.size + room % h.size;
  }

  // ---- Freeing -----------------------------------------------------------------------------------

  /** A pointer taken back: it is live no more, and its bytes are not counted. */
  ghost predicate TakenBack(s: Slab, t: Slab, p: nat) {
    && p in s.live && t.live == s.live - {p} && t.used == s.used - SizeOf(s.live[p])
  }

  lemma TakeBackUsed(s: Slab, t: Slab, p: nat)
    requires UsedOk(s) && TakenBack(s, t, p) && t.max == s.max
    ensures UsedOk(t)
  {
    TotalWithout(s.live, p);
  }

  lemma LiveChunk(s: Slab, c: Config, p: nat)
    requires Inv(s, c) && p in s.live && s.live[p].Chunk?
    ensures var Chunk(z, k, bytes) := s.live[p];
            && z in s.zones && z !in s.parked && Fit(s.zones[z], c) && InUse(s.zones[z], k)
            && bytes == s.zones[z].size && p == Address(z, s.zones[z], k) && k < s.zones[z].nmax
  {
    hide PagesOk, Described, Total, Listed, OneFree, InUse;
    assert PieceOk(s, p, s.live[p]);
    InUseBelow(s.zones[s.live[p].zone], c, s.live[p].chunk);
  }

  /** Putting a chunk back keeps all but that its zone may now be a second free one on its list. */
  lemma PutChunkKeeps(s: Slab, c: Config, p: nat)
    requires Inv(s, c) && p in s.live && s.live[p].Chunk?
    ensures var z := s.live[p].zone;
            && z in s.zones && s.zones[z].size > 0 && s.zones[z].index < |s.lists| && p >= z * PAGE + s.zones[z].base
            && var t := PutChunk(s, p, z);
               && PagesOk(t, c) && ZonesOk(t, c) && Lists(t) && LiveOk(t) && UsedOk(t) && TakenBack(s, t, p)
               && z in t.zones && z !in t.parked && t.zones[z].index < NZONES && z in t.lists[t.zones[z].index]
               && Fit(t.zones[z], c)
               && (forall i | 0 <= i < NZONES && i != t.zones[z].index :: OneFree(t, t.lists[i]))
               && OneFree(t, WaitQueue.Without(t.lists[t.zones[z].index], z))
  {
    hide PagesOk, Described, Fit, InUse, Total, ListsOk, Lists, Listed, OneFree, LiveOk, UsedOk, Proper, PieceOk, PutChunk,
      Address, ZonesOk, ClassSize, Offset;
    LiveChunk(s, c, p);
    var Chunk(z, k, bytes) := s.live[p];
    var h := s.zones[z];
    FitIndex(h, c);
    ListCount(s);
    PutChunkIs(s, c, p);
    var t := PutChunk(s, p, z);
    PutChunkFacts(h, c, k);
    LiveStep(s, t, c, z, k);
    TakeBackUsed(s, t, p);
    SamePages(s, t, c);
    SameZones(s, t, z, c);
    PutChunkLists(s, t, z, h.index);
  }

  lemma ListCount(s: Slab)
    requires ListsOk(s)
    ensures |s.lists| == NZONES
  {
  }

  /** The effect of a chunk put back, by the number the chunk was handed out as. */
  lemma PutChunkIs(s: Slab, c: Config, p: nat)
    requires Inv(s, c) && p in s.live && s.live[p].Chunk? && s.live[p].zone in s.zones
    requires var h := s.zones[s.live[p].zone];
             h.size > 0 && h.index < |s.lists| && s.live[p].bytes == h.size && p == Address(s.live[p].zone, h, s.live[p].chunk)
    ensures var z, k := s.live[p].zone, s.live[p].chunk; var h := s.zones[z];
            && p >= z * PAGE + h.base
            && PutChunk(s, p, z)
               == s.(zones := s.zones[z := h.(freed := [k] + h.freed, nfree := h.nfree + 1)],
                     lists := if h.nfree == 0 then s.lists[h.index := [z] + s.lists[h.index]] else s.lists,
                     live := s.live - {p}, used := s.used - h.size)
  {
    hide Inv;
    DescriptorLeadsBack(s, c, p);
  }

  lemma SameZones(s: Slab, t: Slab, z: nat, c: Config)
    requires ZonesOk(s, c) && z in s.zones && z in t.zones && t.zones == s.zones[z := t.zones[z]] && Fit(t.zones[z], c)
    requires t.usage == s.usage && t.taken == s.taken && t.parked == s.parked
    ensures ZonesOk(t, c)
  {
    hide Described, Fit;
  }

  lemma FitIndex(h: Zone, c: Config)
    requires Fit(h, c)
    ensures h.index < NZONES && h.size > 0 && h.base == Offset(h.size)
  {
  }

  lemma PutChunkLists(s: Slab, t: Slab, z: nat, i: nat)
    requires ListsOk(s) && i < NZONES && z in s.zones && z !in s.parked && s.zones[z].index == i && z in t.zones
    requires t.zones == s.zones[z := t.zones[z]] && t.zones[z].index == i && t.zones[z].nfree == s.zones[z].nfree + 1
    requires t.parked == s.parked
    requires t.lists == if s.zones[z].nfree == 0 then s.lists[i := [z] + s.lists[i]] else s.lists
    ensures Lists(t) && z in t.lists[i] && OneFree(t, WaitQueue.Without(t.lists[i], z))
    ensures forall j | 0 <= j < NZONES && j != i :: OneFree(t, t.lists[j])
  {
    hide Listed, OneFree;
    PutChunkList(s, t, z, i);
    forall j | 0 <= j < NZONES ensures Distinct(t.lists[j]) && Listed(t, j) && (j != i ==> OneFree(t, t.lists[j])) {
      if j != i { OtherList(s, t, z, j); }
    }
  }

  lemma PutChunkList(s: Slab, t: Slab, z: nat, i: nat)
    requires i < |s.lists| && Distinct(s.lists[i]) && Listed(s, i) && OneFree(s, s.lists[i])
    requires z in s.zones && z !in s.parked && s.zones[z].index == i && z in t.zones
    requires t.zones == s.zones[z := t.zones[z]] && t.zones[z].index == i && t.zones[z].nfree == s.zones[z].nfree + 1
    requires t.parked == s.parked
    requires t.lists == if s.zones[z].nfree == 0 then s.lists[i := [z] + s.lists[i]] else s.lists
    ensures Distinct(t.lists[i]) && Listed(t, i) && z in t.lists[i]
    ensures OneFree(t, WaitQueue.Without(t.lists[i], z))
  {
    if s.zones[z].nfree == 0 { WaitQueue.PushDistinct(s.lists[i], z); }
  }

  /** A zone that counts all its chunks as free has none in use. */
  lemma AllFreeNoneUsed(h: Zone, c: Config, k: nat)
    requires Fit(h, c) && AllFree(h)
    ensures !InUse(h, k)
  {
    hide Offset, Capacity, ClassSize;
    if InUse(h, k) {
      WaitQueue.PushDistinct(h.freed, k);
      FreedBound([k] + h.freed, h.uindex);
    }
  }

  /** The zone leaves the list of its class, and is parked or gone. */
  lemma UnlistZone(t: Slab, u: Slab, z: nat, i: nat)
    requires Lists(t) && i < NZONES && z in t.zones && z !in t.parked && t.zones[z].index == i && z in t.lists[i]
    requires (forall j | 0 <= j < NZONES && j != i :: OneFree(t, t.lists[j])) && OneFree(t, WaitQueue.Without(t.lists[i], z))
    requires u.lists == t.lists[i := WaitQueue.Without(t.lists[i], z)]
    requires (u.zones == t.zones && u.parked == [z] + t.parked && |t.parked| < RELEASE_THRESH)
             || (u.zones == t.zones - {z} && u.parked == t.parked)
    ensures ListsOk(u)
  {
    hide Listed, OneFree, WaitQueue.Without, Distinct;
    if u.parked != t.parked { WaitQueue.PushDistinct(t.parked, z); }
    UnlistOwn(t, u, z, i);
    forall j | 0 <= j < NZONES ensures Distinct(u.lists[j]) && Listed(u, j) && OneFree(u, u.lists[j]) {
      if j != i {
        assert Distinct(t.lists[j]) && Listed(t, j) && OneFree(t, t.lists[j]);
        OtherList(t, u, z, j);
      }
    }
  }

  lemma UnlistOwn(t: Slab, u: Slab, z: nat, i: nat)
    requires i < |t.lists| && z in t.lists[i] && Listed(t, i) && Distinct(t.lists[i])
    requires OneFree(t, WaitQueue.Without(t.lists[i], z)) && u.lists == t.lists[i := WaitQueue.Without(t.lists[i], z)]
    requires z in u.parked || z !in u.zones
    requires forall y | y != z :: (y in u.zones <==> y in t.zones) && (y in u.parked <==> y in t.parked)
    requires forall y | y != z && y in t.zones :: u.zones[y] == t.zones[y]
    ensures Distinct(u.lists[i]) && Listed(u, i) && OneFree(u, u.lists[i])
  {
    WaitQueue.WithoutDistinct(t.lists[i], z);
  }

  /** With no chunk of it in use, a zone may be parked or given back without touching a live pointer. */
  lemma UnusedZone(t: Slab, u: Slab, c: Config, z: nat)
    requires LiveOk(t) && z in t.zones && (forall k :: !InUse(t.zones[z], k))
    requires u.live == t.live && (forall y | y != z :: (y in u.zones <==> y in t.zones) && (y in u.parked <==> y in t.parked))
    requires (forall y | y != z && y in t.zones :: u.zones[y] == t.zones[y]) && (z in u.parked || z !in u.zones)
    requires forall p | p in t.live && t.live[p].Pages? ::
               p / PAGE in u.taken && u.taken[p / PAGE] == t.taken[p / PAGE] && |u.usage| == |t.usage|
               && p / PAGE < |t.usage| && u.usage[p / PAGE] == t.usage[p / PAGE]
    ensures LiveOk(u)
  {
    hide InUse;
    forall q | q in u.live ensures PieceOk(u, q, u.live[q]) {
      assert PieceOk(t, q, t.live[q]);
    }
    forall y, j: nat | y in u.zones && y !in u.parked && InUse(u.zones[y], j)
      ensures var q := Address(y, u.zones[y], j); q in u.live && u.live[q] == Chunk(y, j, u.zones[y].size)
    {
      assert InUse(t.zones[y], j);
      var q := Address(y, t.zones[y], j);
      assert q in t.live && t.live[q] == Chunk(y, j, t.zones[y].size);
    }
  }

  lemma ParkKeeps(t: Slab, c: Config, z: nat)
    requires Proper(c) && PagesOk(t, c) && ZonesOk(t, c) && Lists(t) && LiveOk(t) && UsedOk(t)
    requires z in t.zones && z !in t.parked && t.zones[z].index < NZONES && z in t.lists[t.zones[z].index]
    requires Fit(t.zones[z], c) && AllFree(t.zones[z]) && |t.parked| < RELEASE_THRESH
    requires (forall i | 0 <= i < NZONES && i != t.zones[z].index :: OneFree(t, t.lists[i]))
    requires OneFree(t, WaitQueue.Without(t.lists[t.zones[z].index], z))
    ensures var i := t.zones[z].index;
            Inv(t.(lists := t.lists[i := WaitQueue.Without(t.lists[i], z)], parked := [z] + t.parked), c)
  {
    hide PagesOk, Described, Fit, InUse, Total, Listed, OneFree, LiveOk, UsedOk, Proper, PieceOk;
    var i := t.zones[z].index;
    var u := t.(lists := t.lists[i := WaitQueue.Without(t.lists[i], z)], parked := [z] + t.parked);
    forall k ensures !InUse(t.zones[z], k) { AllFreeNoneUsed(t.zones[z], c, k); }
    UnlistZone(t, u, z, i);
    LargeElsewhere(t, c, z);
    UnusedZone(t, u, c, z);
    SamePages(t, u, c);
    SameCounts(t, u);
  }

  lemma ReleaseKeeps(t: Slab, c: Config, z: nat)
    requires Proper(c) && PagesOk(t, c) && ZonesOk(t, c) && Lists(t) && LiveOk(t) && UsedOk(t)
    requires z in t.zones && z !in t.parked && t.zones[z].index < NZONES && z in t.lists[t.zones[z].index]
    requires Fit(t.zones[z], c) && AllFree(t.zones[z])
    requires (forall i | 0 <= i < NZONES && i != t.zones[z].index :: OneFree(t, t.lists[i]))
    requires OneFree(t, WaitQueue.Without(t.lists[t.zones[z].index], z))
    ensures var i := t.zones[z].index;
            Inv(GivePages(t.(lists := t.lists[i := WaitQueue.Without(t.lists[i], z)],
                             usage := MarkFree(t.usage, z, c.zonePages), zones := t.zones - {z}), z, c.zonePages), c)
  {
    hide PagesOk, Described, Fit, InUse, Total, Listed, OneFree, LiveOk, UsedOk, Proper, PieceOk, Free;
    var i := t.zones[z].index;
    var v := t.(lists := t.lists[i := WaitQueue.Without(t.lists[i], z)],
                usage := MarkFree(t.usage, z, c.zonePages), zones := t.zones - {z});
    var u := GivePages(v, z, c.zonePages);
    SamePages(t, v, c);
    GivePagesOk(v, c, z);
    forall k ensures !InUse(t.zones[z], k) { AllFreeNoneUsed(t.zones[z], c, k); }
    UnlistZone(t, u, z, i);
    LargeElsewhere(t, c, z);
    OthersDescribed(t, c, z, u.usage);
    UnusedZone(t, u, c, z);
    SameCounts(t, u);
  }

  /** What is written to the descriptors of one run in use concerns no other. */
  lemma OthersDescribed(t: Slab, c: Config, z: nat, usage: seq<Usage>)
    requires PagesOk(t, c) && ZonesOk(t, c) && LiveOk(t) && z in t.taken && |usage| == |t.usage|
    requires forall k | 0 <= k < |usage| && !(z <= k < z + t.taken[z]) :: usage[k] == t.usage[k]
    ensures forall y | y in t.zones && y != z :: Described(usage, y, c.zonePages)
    ensures forall q | q in t.live && t.live[q].Pages? && q / PAGE != z ::
              q / PAGE < |usage| && usage[q / PAGE] == t.usage[q / PAGE]
  {
    hide Normal, Has;
    forall y | y in t.zones && y != z ensures Described(usage, y, c.zonePages) {
      ExtentsApart(t, c, y, z);
      assert Described(t.usage, y, c.zonePages) && t.taken[y] == c.zonePages;
    }
    forall q | q in t.live && t.live[q].Pages? && q / PAGE != z
      ensures q / PAGE < |usage| && usage[q / PAGE] == t.usage[q / PAGE]
    {
      assert PieceOk(t, q, t.live[q]);
      ExtentsApart(t, c, q / PAGE, z);
    }
  }

  lemma RetireKeeps(t: Slab, c: Config, z: nat)
    requires Proper(c) && PagesOk(t, c) && ZonesOk(t, c) && Lists(t) && LiveOk(t) && UsedOk(t)
    requires z in t.zones && z !in t.parked && t.zones[z].index < NZONES && z in t.lists[t.zones[z].index]
    requires Fit(t.zones[z], c)
    requires (forall i | 0 <= i < NZONES && i != t.zones[z].index :: OneFree(t, t.lists[i]))
    requires OneFree(t, WaitQueue.Without(t.lists[t.zones[z].index], z))
    ensures var u := Retire(t, z, c); Inv(u, c) && u.live == t.live && u.used == t.used
  {
    hide PagesOk, Described, Fit, InUse, Total, Listed, OneFree, LiveOk, UsedOk, Proper, PieceOk, GivePages;
    var i := t.zones[z].index;
    if AllFree(t.zones[z]) && t.lists[i] != [z] {
      if |t.parked| + 1 > RELEASE_THRESH { ReleaseKeeps(t, c, z); SameLive(t, c, z); } else { ParkKeeps(t, c, z); }
    } else {
      OneFreeStays(t, z, i);
    }
  }

  /** A chunk given back whose zone comes to be all free, with other zones of its class on the list: the zone is parked,
      or, with two parked already, given back; any other zone stays in use. */
  lemma ZoneFate(s: Slab, c: Config, p: nat)
    requires Inv(s, c) && p in s.live && s.live[p].Chunk?
    ensures var z := s.live[p].zone;
            && p / PAGE < |s.usage| && z in s.zones && s.zones[z].index < |s.lists|
            && var h, t := s.zones[z], FreeSlab(s, p, c);
               var idle := h.nfree + 1 == h.nmax && s.lists[h.index] != [z];
               && (z in t.parked <==> idle && |s.parked| < 2)
               && (z in t.zones <==> !(idle && |s.parked| >= 2))
  {
    hide PagesOk, Described, InUse, Total, OneFree, LiveOk, UsedOk, Proper, PieceOk, Address, ClassSize, Offset, GivePages,
      Capacity, MarkFree;
    LiveChunk(s, c, p);
    var z := s.live[p].zone;
    FitIndex(s.zones[z], c);
    DescriptorLeadsBack(s, c, p);
    PutChunkIs(s, c, p);
    TwoChunks(s.zones[z], c);
    SameZonesGiven();
  }

  lemma TwoChunks(h: Zone, c: Config)
    requires Fit(h, c)
    ensures h.nmax >= 2 && h.nfree >= 0
  {
  }

  lemma SameZonesGiven()
    ensures forall v: Slab, p, n :: GivePages(v, p, n).zones == v.zones && GivePages(v, p, n).parked == v.parked
  {
  }

  lemma SameLive(t: Slab, c: Config, z: nat)
    ensures forall v: Slab :: GivePages(v, z, c.zonePages).live == v.live && GivePages(v, z, c.zonePages).used == v.used
  {
  }

  lemma OneFreeStays(t: Slab, z: nat, i: nat)
    requires i < |t.lists| && OneFree(t, WaitQueue.Without(t.lists[i], z)) && z in t.zones
    requires !AllFree(t.zones[z]) || t.lists[i] == [z]
    ensures OneFree(t, t.lists[i])
  {
  }

  lemma FreeLargeKeeps(s: Slab, c: Config, p: nat)
    requires Inv(s, c) && p in s.live && s.live[p].Pages?
    ensures p / PAGE < |s.usage| && Inv(FreeLarge(s, p), c) && TakenBack(s, FreeLarge(s, p), p)
  {
    hide PagesOk, Described, Fit, InUse, Total, Listed, OneFree, UsedOk, Proper, Free;
    assert PieceOk(s, p, s.live[p]);
    var a, n := p / PAGE, s.live[p].pages;
    var v := TakeBack(s.(usage := s.usage[a := Usage(Large, 0)]), p, n * PAGE);
    var t := FreeLarge(s, p);
    PageOf(s, c, p);
    SamePages(s, v, c);
    GivePagesOk(v, c, a);
    TakeBackUsed(s, t, p);
    OthersDescribed(s, c, a, t.usage);
    LargeGone(s, t, c, p);
    LargeLists(s, t, c);
  }

  lemma PageOf(s: Slab, c: Config, p: nat)
    requires ZonesOk(s, c) && p in s.live && PieceOk(s, p, s.live[p]) && s.live[p].Pages?
    ensures s.taken[p / PAGE] == s.live[p].pages && s.usage[p / PAGE].size == s.live[p].pages
  {
  }

  lemma LargeGone(s: Slab, t: Slab, c: Config, p: nat)
    requires LiveOk(s) && p in s.live && s.live[p].Pages? && t.live == s.live - {p}
    requires t.zones == s.zones && t.parked == s.parked && t.taken == s.taken - {p / PAGE}
    requires |t.usage| == |s.usage|
    requires forall q | q in s.live && s.live[q].Pages? && q / PAGE != p / PAGE ::
               q / PAGE < |t.usage| && t.usage[q / PAGE] == s.usage[q / PAGE]
    ensures LiveOk(t)
  {
    hide InUse;
    assert PieceOk(s, p, s.live[p]);
    forall q | q in t.live ensures PieceOk(t, q, t.live[q]) {
      assert PieceOk(s, q, s.live[q]);
    }
    forall y, j: nat | y in t.zones && y !in t.parked && InUse(t.zones[y], j)
      ensures var q := Address(y, t.zones[y], j); q in t.live && t.live[q] == Chunk(y, j, t.zones[y].size)
    {
      var q := Address(y, s.zones[y], j);
      assert q in s.live && s.live[q] == Chunk(y, j, s.zones[y].size);
    }
  }

  /** rt_slab_free keeps the invariant and takes back exactly the pointer it is given. */
  lemma FreeKeeps(s: Slab, c: Config, p: nat)
    requires Inv(s, c) && p in s.live
    ensures p / PAGE < |s.usage|
    ensures Inv(FreeSlab(s, p, c), c) && TakenBack(s, FreeSlab(s, p, c), p)
  {
    hide PagesOk, Described, Fit, InUse, Total, Listed, OneFree, LiveOk, UsedOk, Proper, ZonesOk, Lists, Retire, PutChunk, FreeLarge;
    DescriptorLeadsBack(s, c, p);
    if s.live[p].Pages? {
      FreeLargeKeeps(s, c, p);
    } else {
      PutChunkKeeps(s, c, p);
      RetireKeeps(PutChunk(s, p, s.live[p].zone), c, s.live[p].zone);
    }
  }

  // ---- Reallocation, and all runs ------------------------------------------------------------------

  /** An allocation leaves every live pointer where it was. */
  lemma GrantedKeeps(s: Slab, t: Slab, q: nat, least: nat, p: nat)
    requires Granted(s, t, q, least) && p in s.live
    ensures p in t.live && t.live[p] == s.live[p] && p != q
  {
  }

  /** The new pointer of a block that moved: it replaces the old one among the live pointers. */
  ghost predicate Moved(s: Slab, t: Slab, p: nat, q: nat, least: nat) {
    && p in s.live && q !in s.live && q in t.live && SizeOf(t.live[q]) >= least
    && t.live == s.live[q := t.live[q]] - {p}
    && t.used == s.used + SizeOf(t.live[q]) - SizeOf(s.live[p])
  }

  lemma Shape(s: Slab, c: Config)
    requires Inv(s, c)
    ensures Proper(c) && |s.lists| == NZONES
  {
  }

  lemma MoveKeeps(s: Slab, c: Config, p: nat, size: nat)
    requires Inv(s, c) && p in s.live
    ensures var (t, q) := AllocSlab(s, size, c);
            && Inv(t, c) && p / PAGE < |t.usage|
            && (q == None ==> t == s)
            && (q.Some? ==> Inv(FreeSlab(t, p, c), c) && Moved(s, FreeSlab(t, p, c), p, q.value, size))
  {
    hide Inv, AllocSlab, FreeSlab;
    Shape(s, c);
    AllocKeeps(s, c, size);
    var (t, q) := AllocSlab(s, size, c);
    if q.Some? {
      GrantedKeeps(s, t, q.value, size, p);
      FreeKeeps(t, c, p);
    } else {
      FreeKeeps(s, c, p);
    }
  }

  /** rt_slab_realloc: the block stays when its chunk is of the size wanted, or it moves, or the call
      fails and changes nothing. */
  lemma ReallocKeeps(s: Slab, c: Config, p: nat, size: nat)
    requires Inv(s, c) && p in s.live && size > 0
    ensures p / PAGE < |s.usage| && |s.lists| == NZONES
    ensures var (t, q) := ReallocSlab(s, Some(p), size, c);
            && Inv(t, c)
            && (q == None ==> t == s)
            && (q == Some(p) ==> t == s && SizeOf(s.live[p]) >= size)
            && (q.Some? && q != Some(p) ==> Moved(s, t, p, q.value, size))
  {
    hide PagesOk, ZonesOk, Lists, LiveOk, UsedOk, OneFree, AllocSlab, FreeSlab, ZoneIndex, ClassSize;
    Shape(s, c);
    DescriptorLeadsBack(s, c, p);
    ChunkAtLeast(size);
    if s.live[p].Pages? {
      MoveKeeps(s, c, p, size);
    } else {
      LiveChunk(s, c, p);
      var chunk := ZoneIndex(size).1;
      if s.zones[s.live[p].zone].size != chunk {
        MoveKeeps(s, c, p, chunk);
        var (t, q) := AllocSlab(s, chunk, c);
        if q.Some? { MovedLess(s, FreeSlab(t, p, c), p, q.value, chunk, size); }
      }
    }
  }

  /** The block stays exactly when it is a chunk of the size wanted; else the call fails exactly when there is no room for
      that size. A chunk is exchanged for one of the size rounded up, which may be large enough for pages of its own. */
  lemma ReallocExactly(s: Slab, c: Config, p: nat, size: nat)
    requires Inv(s, c) && p in s.live && size > 0
    ensures p / PAGE < |s.usage| && |s.lists| == NZONES
    ensures var q := ReallocSlab(s, Some(p), size, c).1;
            var stays := s.live[p].Chunk? && s.live[p].bytes == ZoneIndex(size).1;
            && (q == Some(p) <==> stays)
            && (q == None <==> !stays && NoRoom(s, if s.live[p].Pages? then size else ZoneIndex(size).1, c))
  {
    hide PagesOk, ZonesOk, Lists, LiveOk, UsedOk, OneFree, AllocSlab, FreeSlab, ZoneIndex, ClassSize, NoRoom;
    Shape(s, c);
    DescriptorLeadsBack(s, c, p);
    if s.live[p].Pages? {
      AllocKeeps(s, c, size);
      MoveKeeps(s, c, p, size);
    } else {
      LiveChunk(s, c, p);
      var chunk := ZoneIndex(size).1;
      AllocKeeps(s, c, chunk);
      MoveKeeps(s, c, p, chunk);
    }
  }

  lemma ChunkAtLeast(size: nat)
    requires size > 0
    ensures ZoneIndex(size).1 >= size
  {
    hide ClassSize;
    if size < ZONE_LIMIT { ClassMeaning(size); }
  }

  lemma MovedLess(s: Slab, t: Slab, p: nat, q: nat, most: nat, least: nat)
    requires Moved(s, t, p, q, most) && least <= most
    ensures Moved(s, t, p, q, least)
  {
  }

  /** The heap right after rt_slab_init: the page descriptors, whatever they hold, take the first pages. */
  function Fresh(c: Config, usage: seq<Usage>): Slab {
    var m := RoundUp(c.pages * 4, PAGE) / PAGE;
    Slab(if c.pages > m then [Run(m, c.pages - m)] else [], map[0 := m], usage, map[],
         seq(NZONES, _ => []), [], map[], 0, 0)
  }

  lemma FreshInv(c: Config, usage: seq<Usage>)
    requires Proper(c) && c.pages > 0 && |usage| == c.pages
    ensures Inv(Fresh(c, usage), c)
  {
    var s := Fresh(c, usage);
    var m := RoundUp(c.pages * 4, PAGE) / PAGE;
    assert 0 < m <= c.pages;
    forall x: int ensures Has(s.runs, x) <==> 0 <= x < c.pages && !Covered(s.taken, x) {
      if c.pages > m { HasOne(s.runs[0], x); }
      assert 0 in s.taken;
      assert Covered(s.taken, x) <==> 0 <= x < m;
    }
    assert Total(map[]) == 0;
  }

  datatype Call = AllocCall(size: nat) | FreeCall(p: nat) | ReallocCall(ptr: Option<nat>, newsize: nat)

  predicate Allowed(s: Slab, call: Call) {
    && |s.lists| == NZONES
    && match call
       case AllocCall(_) => true
       case FreeCall(p) => p in s.live && p / PAGE < |s.usage|
       case ReallocCall(ptr, _) => ptr.Some? ==> ptr.value in s.live && ptr.value / PAGE < |s.usage|
  }

  function Apply(s: Slab, call: Call, c: Config): Slab
    requires Allowed(s, call) && Proper(c)
  {
    match call
    case AllocCall(size) => AllocSlab(s, size, c).0
    case FreeCall(p) => FreeSlab(s, p, c)
    case ReallocCall(ptr, newsize) => ReallocSlab(s, ptr, newsize, c).0
  }

  ghost predicate Calls(ss: seq<Slab>, calls: seq<Call>, c: Config)
    requires Proper(c)
  {
    && |ss| == |calls| + 1
    && forall k | 0 <= k < |calls| :: Allowed(ss[k], calls[k]) && ss[k + 1] == Apply(ss[k], calls[k], c)
  }

  lemma ApplyKeeps(s: Slab, call: Call, c: Config)
    requires Inv(s, c) && Allowed(s, call)
    ensures Inv(Apply(s, call, c), c)
  {
    hide PagesOk, ZonesOk, Lists, LiveOk, UsedOk, OneFree, AllocSlab, FreeSlab;
    match call
    case AllocCall(size) => AllocKeeps(s, c, size);
    case FreeCall(p) => FreeKeeps(s, c, p);
    case ReallocCall(ptr, newsize) =>
      if ptr == None { AllocKeeps(s, c, newsize); }
      else if newsize == 0 { FreeKeeps(s, c, ptr.value); }
      else { ReallocKeeps(s, c, ptr.value, newsize); }
  }

  /** In every state of every run: the bytes in use are the sum of the live sizes, at most two zones
      are parked, and the whole invariant holds. */
  lemma {:induction false} RunKeeps(ss: seq<Slab>, calls: seq<Call>, c: Config)
    requires Proper(c) && Calls(ss, calls, c) && Inv(ss[0], c)
    ensures Inv(ss[|calls|], c)
    ensures ss[|calls|].used == Total(ss[|calls|].live) && |ss[|calls|].parked| <= RELEASE_THRESH
  {
    hide Proper, Apply, Allowed, PagesOk, ZonesOk, LiveOk;
    if calls != [] {
      var n := |calls| - 1;
      RunKeeps(ss[..n + 1], calls[..n], c);
      ApplyKeeps(ss[n], calls[n], c);
    }
  }
}
