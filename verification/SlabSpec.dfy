/**
  What the slab allocator (slab.c) does: zones of equal chunks on top of the page allocator, and a
  descriptor for every page that leads from a pointer back to its zone.

  Addresses are offsets from the start of the heap, and a zone is known by its first page.
*/
module SlabSpec {
  import opened Basics
  import opened SlabPages
  import opened SlabClasses
  import WaitQueue

  const RELEASE_THRESH: nat := 2

  datatype Kind = FreePage | Small | Large

  /** A page descriptor: the page's offset in its zone, or the pages of a large block. */
  datatype Usage = Usage(kind: Kind, size: nat)

  /** A zone header. The free chunks are those on the list `freed` and those above `uindex`. */
  datatype Zone = Zone(index: nat, size: nat, nmax: nat, base: nat, uindex: nat, nfree: nat, freed: seq<nat>)

  /** What a live pointer was handed out as. */
  datatype Piece = Pages(pages: nat) | Chunk(zone: nat, chunk: nat, bytes: nat)

  /** `taken` records the page runs in use, by their first page, and `live` the pointers in use. */
  datatype Slab = Slab(runs: seq<Run>, taken: map<nat, nat>, usage: seq<Usage>, zones: map<nat, Zone>,
                       lists: seq<seq<nat>>, parked: seq<nat>, live: map<nat, Piece>, used: int, max: int)

  /** Pages of the heap, pages of a zone, and the size from which requests get pages of their own. */
  datatype Config = Config(pages: nat, zonePages: nat, limit: nat)

  ghost predicate Proper(c: Config) {
    && c.zonePages in {8, 16, 32}
    && c.limit == (if c.zonePages * PAGE / 4 > ZONE_LIMIT then ZONE_LIMIT else c.zonePages * PAGE / 4)
  }

  function SizeOf(p: Piece): nat {
    match p
    case Pages(n) => n * PAGE
    case Chunk(_, _, bytes) => bytes
  }

  /** Where chunk `c` of zone `z` is. */
  function Address(z: nat, h: Zone, c: nat): nat {
    z * PAGE + h.base + c * h.size
  }

  // ---- Pages -------------------------------------------------------------------------------

  function TakePages(s: Slab, n: nat): (Slab, Option<nat>) {
    var (runs, p) := Alloc(s.runs, n);
    if p == None then (s, None) else (s.(runs := runs, taken := s.taken[p.value := n]), p)
  }

  function GivePages(s: Slab, p: nat, n: nat): Slab {
    s.(runs := Free(s.runs, p, n), taken := s.taken - {p})
  }

  /** The descriptors with those of the pages of a zone set. */
  function MarkZone(usage: seq<Usage>, z: nat, n: nat): (r: seq<Usage>)
    ensures |r| == |usage|
    ensures forall k | 0 <= k < |usage| :: r[k] == if z <= k < z + n then Usage(Small, k - z) else usage[k]
  {
    seq(|usage|, k requires 0 <= k < |usage| => if z <= k < z + n then Usage(Small, k - z) else usage[k])
  }

  function MarkFree(usage: seq<Usage>, z: nat, n: nat): (r: seq<Usage>)
    ensures |r| == |usage|
    ensures forall k | 0 <= k < |usage| :: r[k] == if z <= k < z + n then Usage(FreePage, 0) else usage[k]
  {
    seq(|usage|, k requires 0 <= k < |usage| => if z <= k < z + n then Usage(FreePage, 0) else usage[k])
  }

  // ---- Zones -------------------------------------------------------------------------------

  function Capacity(size: nat, zonePages: nat): int
    requires size > 0
  {
    (zonePages * PAGE - Offset(size)) / size
  }

  /** A zone whose first chunk is taken. */
  function NewZone(i: nat, size: nat, zonePages: nat): Zone
    requires size > 0 && Capacity(size, zonePages) >= 1
  {
    var n := Capacity(size, zonePages);
    Zone(i, size, n, Offset(size), 0, n - 1, [])
  }

  /** The chunk a zone with room hands out, and the zone after that: unused space comes first. */
  function NextChunk(h: Zone): (Zone, nat) {
    var n := if h.nfree > 0 then h.nfree - 1 else 0;
    if h.uindex + 1 != h.nmax then (h.(nfree := n, uindex := h.uindex + 1), h.uindex + 1)
    else if h.freed != [] then (h.(nfree := n, freed := h.freed[1..]), h.freed[0])
    else (h, 0)
  }

  /** Handing out one chunk counts its size. */
  function Hand(s: Slab, p: nat, piece: Piece): Slab {
    var used := s.used + SizeOf(piece);
    s.(live := s.live[p := piece], used := used, max := MaxOf(s.max, used))
  }

  function TakeBack(s: Slab, p: nat, size: nat): Slab {
    s.(live := s.live - {p}, used := s.used - size)
  }

  /** A chunk from the first zone on the list of class `i`; a zone that is full leaves the list. */
  function FromZone(s: Slab, i: nat): (Slab, Option<nat>)
    requires i < |s.lists| && s.lists[i] != []
  {
    var z := s.lists[i][0];
    if z !in s.zones then (s, None)
    else
      var (h, c) := NextChunk(s.zones[z]);
      var p := Address(z, h, c);
      (Hand(s.(zones := s.zones[z := h], lists := if h.nfree == 0 then s.lists[i := s.lists[i][1..]] else s.lists),
            p, Chunk(z, c, h.size)),
       Some(p))
  }

  /** A new zone for class `i`, a parked one or one from the page allocator, and its first chunk. */
  function FromNewZone(s: Slab, i: nat, size: nat, c: Config): (Slab, Option<nat>)
    requires i < |s.lists| && size > 0 && Capacity(size, c.zonePages) >= 1
  {
    var h := NewZone(i, size, c.zonePages);
    if s.parked != [] then
      var z := s.parked[0];
      (Hand(s.(parked := s.parked[1..], zones := s.zones[z := h], lists := s.lists[i := [z] + s.lists[i]]),
            Address(z, h, 0), Chunk(z, 0, size)),
       Some(Address(z, h, 0)))
    else
      var (t, z) := TakePages(s, c.zonePages);
      if z == None then (s, None)
      else
        (Hand(t.(usage := MarkZone(t.usage, z.value, c.zonePages), zones := t.zones[z.value := h],
                 lists := t.lists[i := [z.value] + t.lists[i]]),
              Address(z.value, h, 0), Chunk(z.value, 0, size)),
         Some(Address(z.value, h, 0)))
  }

  /** rt_slab_alloc of a size that gets pages of its own. */
  function AllocLarge(s: Slab, size: nat): (Slab, Option<nat>) {
    var n := RoundUp(size, PAGE) / PAGE;
    var (t, p) := TakePages(s, n);
    if p == None || p.value >= |t.usage| then (s, None)
    else (Hand(t.(usage := t.usage[p.value := Usage(Large, n)]), p.value * PAGE, Pages(n)), Some(p.value * PAGE))
  }

  /** rt_slab_alloc. */
  function AllocSlab(s: Slab, size: nat, c: Config): (Slab, Option<nat>)
    requires |s.lists| == NZONES && Proper(c)
  {
    if size == 0 then (s, None)
    else if size >= c.limit then AllocLarge(s, size)
    else
      var (i, chunk) := ZoneIndex(size);
      if i >= NZONES || chunk == 0 || Capacity(chunk, c.zonePages) < 1 then (s, None)
      else if s.lists[i] != [] then FromZone(s, i)
      else FromNewZone(s, i, chunk, c)
  }

  // ---- Freeing -------------------------------------------------------------------------------

  /** rt_slab_free of a large block: its descriptor keeps its kind, with no pages. */
  function FreeLarge(s: Slab, p: nat): Slab
    requires p / PAGE < |s.usage|
  {
    var page := p / PAGE;
    var n := s.usage[page].size;
    GivePages(TakeBack(s.(usage := s.usage[page := Usage(Large, 0)]), p, n * PAGE), page, n)
  }

  /** The zone a pointer's page descriptor leads to. */
  function ZoneOf(s: Slab, p: nat): int
    requires p / PAGE < |s.usage|
  {
    p / PAGE - s.usage[p / PAGE].size
  }

  /** The chunk goes on the free list of its zone; a zone that was full goes on the list of its class. */
  function PutChunk(s: Slab, p: nat, z: nat): Slab
    requires z in s.zones && s.zones[z].size > 0 && s.zones[z].index < |s.lists| && p >= z * PAGE + s.zones[z].base
  {
    var h := s.zones[z];
    var c := (p - z * PAGE - h.base) / h.size;
    TakeBack(s.(zones := s.zones[z := h.(freed := [c] + h.freed, nfree := h.nfree + 1)],
                lists := if h.nfree == 0 then s.lists[h.index := [z] + s.lists[h.index]] else s.lists),
             p, h.size)
  }

  /** A free zone that is not the only one of its class on the list is parked, or, with two parked
      already, goes back to the page allocator. */
  function Retire(s: Slab, z: nat, c: Config): Slab
    requires z in s.zones && s.zones[z].index < |s.lists|
  {
    var i := s.zones[z].index;
    if s.zones[z].nfree == s.zones[z].nmax && s.lists[i] != [z] then
      var t := s.(lists := s.lists[i := WaitQueue.Without(s.lists[i], z)]);
      if |s.parked| + 1 > RELEASE_THRESH then
        GivePages(t.(usage := MarkFree(t.usage, z, c.zonePages), zones := t.zones - {z}), z, c.zonePages)
      else t.(parked := [z] + t.parked)
    else s
  }

  /** rt_slab_free. */
  function FreeSlab(s: Slab, p: nat, c: Config): Slab
    requires p / PAGE < |s.usage|
  {
    if s.usage[p / PAGE].kind == Large then FreeLarge(s, p)
    else
      var z := ZoneOf(s, p);
      if z < 0 || z !in s.zones || s.zones[z].size == 0 || s.zones[z].index >= |s.lists| || p < z * PAGE + s.zones[z].base
      then s
      else Retire(PutChunk(s, p, z), z, c)
  }

  /** rt_slab_realloc. */
  function ReallocSlab(s: Slab, p: Option<nat>, size: nat, c: Config): (Slab, Option<nat>)
    requires |s.lists| == NZONES && Proper(c) && (p.Some? ==> p.value / PAGE < |s.usage|)
  {
    if p == None then AllocSlab(s, size, c)
    else if size == 0 then (FreeSlab(s, p.value, c), None)
    else
      var u := s.usage[p.value / PAGE];
      match u.kind
      case FreePage => (s, None)
      case Large =>
        var (t, q) := AllocSlab(s, size, c);
        if q.Some? && p.value / PAGE < |t.usage| then (FreeSlab(t, p.value, c), q) else (t, q)
      case Small =>
        var z := ZoneOf(s, p.value);
        var chunk := ZoneIndex(size).1;
        if z in s.zones && s.zones[z].size == chunk then (s, p)
        else
          var (t, q) := AllocSlab(s, chunk, c);
          if q.Some? && p.value / PAGE < |t.usage| then (FreeSlab(t, p.value, c), q) else (t, q)
  }
}
