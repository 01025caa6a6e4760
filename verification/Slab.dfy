/** The slab allocator (slab.c), working on its zone headers, lists and page descriptors. */
module Slab {
  import opened Basics
  import opened Numbers
  import opened SlabPages
  import opened SlabClasses
  import S = SlabSpec
  import T = SlabTheory
  import WaitQueue

  /** rt_slab_init: the zone size, from the size of the heap. */
  method ZoneSize(limsize: nat) returns (size: nat)
    ensures size in {32768, 65536, 131072}
    ensures size == 131072 || 2 * size >= limsize / 1024
    ensures size == 32768 || size < limsize / 1024
  {
    size := 32768;
    while size < 131072 && 2 * size < limsize / 1024
      invariant size in {32768, 65536, 131072}
      invariant size == 32768 || size < limsize / 1024
      decreases 131072 - size
    {
      size := 2 * size;
    }
  }

  class SlabHeap {
    const config: S.Config
    const pages: PageList          // page_list
    const usage: array<S.Usage>    // memusage
    var zones: map<nat, S.Zone>    // the zone headers, by first page
    var lists: seq<seq<nat>>       // zone_array
    var parked: seq<nat>           // zone_free, zone_free_cnt
    var used: int
    var max: int
    ghost var taken: map<nat, nat>
    ghost var live: map<nat, S.Piece>

    ghost function Value(): S.Slab
      reads this, pages, usage
    {
      S.Slab(pages.runs, taken, usage[..], zones, lists, parked, live, used, max)
    }

    ghost predicate Valid()
      reads this, pages, usage
    {
      T.Inv(Value(), config)
    }

    /** rt_slab_init, of a heap of `npages` pages. */
    constructor (npages: nat)
      requires npages > 0
      ensures Valid() && config.pages == npages && live == map[] && used == 0
      ensures fresh(pages) && fresh(usage)
    {
      var zoneSize := ZoneSize(npages * PAGE);
      var limit := if zoneSize / 4 > ZONE_LIMIT then ZONE_LIMIT else zoneSize / 4;
      config := S.Config(npages, zoneSize / PAGE, limit);
      var list := new PageList(npages);
      pages := list;
      usage := new S.Usage[npages](_ => S.Usage(S.FreePage, 0));
      zones, lists, parked, used, max := map[], seq(NZONES, _ => []), [], 0, 0;
      taken, live := map[0 := RoundUp(npages * 4, PAGE) / PAGE], map[];
      new;
      hide T.Inv, SlabPages.Alloc, RoundUp, S.Proper;
      ProperConfig(npages, zoneSize, limit);
      var memusage := pages.AllocPages(RoundUp(npages * 4, PAGE) / PAGE);
      T.FreshInv(config, usage[..]);
      FirstPages(npages, RoundUp(npages * 4, PAGE) / PAGE);
    }

    method Count(size: nat)
      modifies this`used, this`max
      ensures used == old(used) + size && max == MaxOf(old(max), used)
    {
      used := used + size;
      if used > max { max := used; }
    }

    /** A chunk from the first zone on the list of class `i`. */
    method FromZone(i: nat) returns (p: nat)
      requires Valid() && i < NZONES && lists[i] != []
      modifies this
      ensures Valid() && (Value(), Some(p)) == S.FromZone(old(Value()), i)
    {
      hide T.Inv, T.Fit, S.Address, S.FromZone, S.NextChunk, S.Hand, MaxOf;
      T.Shape(Value(), config);
      T.FromZoneKeeps(Value(), config, i);
      Head(Value(), config, i);
      FromZoneIs(Value(), i);
      var z := lists[i][0];
      var h := zones[z];
      h := h.(nfree := h.nfree - 1);
      if h.nfree == 0 { lists := lists[i := lists[i][1..]]; }
      var c;
      if h.uindex + 1 != h.nmax {
        h := h.(uindex := h.uindex + 1);
        c := h.uindex;
      } else {
        c := h.freed[0];
        h := h.(freed := h.freed[1..]);
      }
      zones := zones[z := h];
      p := S.Address(z, h, c);
      Count(h.size);
      live := live[p := S.Chunk(z, c, h.size)];
    }

    /** The descriptors of a new zone's pages. */
    method MarkSmall(z: nat)
      requires z + config.zonePages <= usage.Length
      modifies usage
      ensures usage[..] == S.MarkZone(old(usage[..]), z, config.zonePages)
    {
      for off := 0 to config.zonePages
        invariant forall k | 0 <= k < usage.Length ::
                    usage[k] == if z <= k < z + off then S.Usage(S.Small, k - z) else old(usage[k])
      {
        usage[z + off] := S.Usage(S.Small, off);
      }
    }

    /** The descriptors of a zone that is given back. */
    method MarkFree(z: nat)
      requires z + config.zonePages <= usage.Length
      modifies usage
      ensures usage[..] == S.MarkFree(old(usage[..]), z, config.zonePages)
    {
      for i := 0 to config.zonePages
        invariant forall k | 0 <= k < usage.Length ::
                    usage[k] == if z <= k < z + i then S.Usage(S.FreePage, 0) else old(usage[k])
      {
        usage[z + i] := S.Usage(S.FreePage, 0);
      }
    }

    /** A zone for class `i`, a parked one or a new one, and its first chunk. */
    method FromNewZone(i: nat, size: nat) returns (p: Option<nat>)
      requires Valid() && i < NZONES && lists[i] == [] && size == ClassSize(i) <= config.limit
      requires size > 0 && S.Capacity(size, config.zonePages) >= 1
      modifies this, pages, usage
      ensures Valid() && (Value(), p) == S.FromNewZone(old(Value()), i, size, config)
    {
      hide T.Inv, S.Address, ClassSize, Offset, SlabPages.Alloc, S.MarkZone;
      ghost var s := Value();
      T.Shape(s, config);
      var z;
      if parked != [] {
        T.FromParkedKeeps(s, config, i);
        z := parked[0];
        parked := parked[1..];
      } else {
        T.FromPagesKeeps(s, config, i);
        var q := pages.AllocPages(config.zonePages);
        assert usage[..] == s.usage;
        if q == None { return None; }
        z := q.value;
        ZoneFits(s, config);
        MarkSmall(z);
        taken := taken[z := config.zonePages];
      }
      var h := S.NewZone(i, size, config.zonePages);
      zones := zones[z := h];
      lists := lists[i := [z] + lists[i]];
      p := Some(S.Address(z, h, 0));
      Count(size);
      live := live[p.value := S.Chunk(z, 0, size)];
    }

    /** rt_slab_alloc of a size that gets pages of its own. */
    method AllocLarge(size: nat) returns (p: Option<nat>)
      requires Valid() && size > 0
      modifies this, pages, usage
      ensures Valid() && (Value(), p) == S.AllocLarge(old(Value()), size)
    {
      hide T.Inv, RoundUp, SlabPages.Alloc;
      ghost var s := Value();
      T.AllocLargeKeeps(s, config, size);
      T.WholePages(size);
      var n := RoundUp(size, PAGE) / PAGE;
      var chunk := pages.AllocPages(n);
      assert usage[..] == s.usage;
      if chunk == None { return None; }
      LargeFits(s, config, n);
      usage[chunk.value] := S.Usage(S.Large, n);
      assert usage[..] == s.usage[chunk.value := S.Usage(S.Large, n)];
      taken := taken[chunk.value := n];
      Count(n * PAGE);
      p := Some(chunk.value * PAGE);
      live := live[p.value := S.Pages(n)];
    }

    /** rt_slab_alloc. */
    method Alloc(size: nat) returns (p: Option<nat>)
      requires Valid()
      modifies this, pages, usage
      ensures Valid() && |old(Value()).lists| == NZONES && S.Proper(config)
      ensures (Value(), p) == S.AllocSlab(old(Value()), size, config)
    {
      hide T.Inv, ClassSize, ZoneIndex, S.FromZone, S.FromNewZone, S.AllocLarge, S.Capacity, S.Proper;
      T.Shape(Value(), config);
      if size == 0 { return None; }
      if size >= config.limit {
        p := AllocLarge(size);
        return;
      }
      T.ClassLimit(size, config);
      var (i, chunk) := ZoneIndex(size);
      T.NewZoneFits(i, config);
      if lists[i] != [] {
        var q := FromZone(i);
        return Some(q);
      }
      p := FromNewZone(i, chunk);
    }

    /** rt_slab_free of a large block. */
    method FreeLarge(p: nat)
      requires Valid() && p in live && live[p].Pages?
      modifies this, pages, usage
      ensures Valid() && p / PAGE < |old(Value()).usage| && Value() == S.FreeLarge(old(Value()), p)
    {
      hide T.Inv, SlabPages.Free;
      ghost var s := Value();
      T.FreeLargeKeeps(s, config, p);
      LargeRecord(s, config, p);
      var page := p / PAGE;
      var size := usage[page].size;
      usage[page] := S.Usage(S.Large, 0);
      assert usage[..] == s.usage[page := S.Usage(S.Large, 0)];
      used := used - size * PAGE;
      pages.FreePages(page, size);
      taken, live := taken - {page}, live - {p};
    }

    /** The walk along the list of a class that takes a zone out of it. */
    method Unlist(i: nat, z: nat)
      requires i < |lists| && z in lists[i] && Distinct(lists[i])
      modifies this`lists
      ensures lists == old(lists)[i := WaitQueue.Without(old(lists)[i], z)]
    {
      var k := 0;
      while lists[i][k] != z
        invariant k < |lists[i]| && z !in lists[i][..k] && lists == old(lists)
        decreases |lists[i]| - k
      {
        assert z in lists[i][k..] by { assert lists[i] == lists[i][..k] + lists[i][k..]; }
        k := k + 1;
      }
      WaitQueue.WithoutAt(lists[i], k);
      lists := lists[i := lists[i][..k] + lists[i][k + 1..]];
    }

    /** What the allocator keeps while a chunk is put back: its zone may be a second free one. */
    ghost predicate Between(z: nat)
      reads this, pages, usage
    {
      var t := Value();
      && S.Proper(config) && T.PagesOk(t, config) && T.ZonesOk(t, config) && T.Lists(t) && T.LiveOk(t) && T.UsedOk(t)
      && z in t.zones && z !in t.parked && t.zones[z].index < NZONES && z in t.lists[t.zones[z].index]
      && T.Fit(t.zones[z], config)
      && (forall i | 0 <= i < NZONES && i != t.zones[z].index :: T.OneFree(t, t.lists[i]))
      && T.OneFree(t, WaitQueue.Without(t.lists[t.zones[z].index], z))
    }

    /** rt_slab_free: the chunk goes on the free list of its zone. */
    method PutChunk(p: nat) returns (z: nat)
      requires Valid() && p in live && live[p].Chunk?
      modifies this
      ensures z == old(live)[p].zone && z in old(zones) && old(zones)[z].size > 0
      ensures old(zones)[z].index < |old(lists)| && p >= z * PAGE + old(zones)[z].base
      ensures Value() == S.PutChunk(old(Value()), p, z) && Between(z)
    {
      hide T.Inv, T.PagesOk, T.Fit, T.LiveOk, T.UsedOk, T.OneFree, T.Lists, T.ZonesOk;
      ghost var s := Value();
      T.Shape(s, config);
      T.PutChunkKeeps(s, config, p);
      ChunkRecord(s, config, p);
      z := p / PAGE - usage[p / PAGE].size;
      var h := zones[z];
      h := h.(freed := [(p - z * PAGE - h.base) / h.size] + h.freed, nfree := h.nfree + 1);
      used := used - h.size;
      live := live - {p};
      if h.nfree == 1 { lists := lists[h.index := [z] + lists[h.index]]; }
      zones := zones[z := h];
    }

    /** rt_slab_free: a zone that is all free, and not alone on its list, is parked or given back. */
    method Retire(z: nat)
      requires Between(z)
      modifies this, pages, usage
      ensures Valid() && z in old(zones) && old(zones)[z].index < |old(lists)|
      ensures Value() == S.Retire(old(Value()), z, config)
    {
      hide T.Inv, T.PagesOk, T.Fit, T.LiveOk, T.UsedOk, T.OneFree, SlabPages.Free, S.MarkFree, WaitQueue.Without;
      ghost var t := Value();
      T.RetireKeeps(t, config, z);
      var h := zones[z];
      if h.nfree == h.nmax && lists[h.index] != [z] {
        ListShape(t, h.index);
        Unlist(h.index, z);
        parked := [z] + parked;
        if |parked| > S.RELEASE_THRESH {
          parked := parked[1..];
          ZoneRecord(t, config, z);
          MarkFree(z);
          pages.FreePages(z, config.zonePages);
          taken, zones := taken - {z}, zones - {z};
        }
      }
    }

    /** rt_slab_free of a chunk. */
    method FreeChunk(p: nat)
      requires Valid() && p in live && live[p].Chunk?
      modifies this, pages, usage
      ensures Valid() && p / PAGE < |old(Value()).usage| && Value() == S.FreeSlab(old(Value()), p, config)
    {
      hide T.Inv, T.PagesOk, T.ZonesOk, T.Fit, T.Lists, T.LiveOk, T.UsedOk, T.OneFree, S.Retire, S.PutChunk, S.FreeLarge;
      ChunkRecord(Value(), config, p);
      var z := PutChunk(p);
      Retire(z);
    }

    /** rt_slab_free. */
    method Free(p: Option<nat>)
      requires Valid() && (p.Some? ==> p.value in live)
      modifies this, pages, usage
      ensures Valid() && (p.Some? ==> p.value / PAGE < |old(Value()).usage|)
      ensures Value() == if p.Some? then S.FreeSlab(old(Value()), p.value, config) else old(Value())
    {
      hide T.Inv, S.FreeLarge, S.PutChunk, S.Retire;
      if p == None { return; }
      T.DescriptorLeadsBack(Value(), config, p.value);
      if usage[p.value / PAGE].kind == S.Large {
        FreeLarge(p.value);
      } else {
        FreeChunk(p.value);
      }
    }

    /** rt_slab_realloc of a live pointer, or of nothing. */
    method Realloc(ptr: Option<nat>, size: nat) returns (p: Option<nat>)
      requires Valid() && (ptr.Some? ==> ptr.value in live)
      modifies this, pages, usage
      ensures Valid() && |old(Value()).lists| == NZONES && S.Proper(config)
      ensures ptr.Some? ==> ptr.value / PAGE < |old(Value()).usage|
      ensures (Value(), p) == S.ReallocSlab(old(Value()), ptr, size, config)
    {
      hide T.Inv, S.AllocSlab, S.FreeSlab, ZoneIndex, S.Proper, ClassSize;
      ghost var s := Value();
      T.Shape(s, config);
      if ptr == None {
        p := Alloc(size);
        return;
      }
      T.DescriptorLeadsBack(s, config, ptr.value);
      if size == 0 {
        Free(ptr);
        return None;
      }
      var want := size;
      if usage[ptr.value / PAGE].kind == S.Small {
        ChunkRecord(s, config, ptr.value);
        var z := ptr.value / PAGE - usage[ptr.value / PAGE].size;
        want := ZoneIndex(size).1;
        if zones[z].size == want { return ptr; }
      }
      T.MoveKeeps(s, config, ptr.value, want);
      p := Alloc(want);
      if p.Some? {
        StillLive(s, config, ptr.value, want);
        Free(ptr);
      }
    }
  }

  lemma ProperConfig(npages: nat, zoneSize: nat, limit: nat)
    requires zoneSize in {32768, 65536, 131072} && limit == if zoneSize / 4 > ZONE_LIMIT then ZONE_LIMIT else zoneSize / 4
    ensures S.Proper(S.Config(npages, zoneSize / PAGE, limit))
  {
  }

  lemma FirstPages(npages: nat, m: nat)
    requires 0 < m <= npages
    ensures SlabPages.Alloc([Run(0, npages)], m) == (if npages > m then [Run(m, npages - m)] else [], Some(0))
  {
    var rs := [Run(0, npages)];
    assert FirstFit(rs, m) == 0;
    assert rs[..0] + Rest(rs[0], m) + rs[1..] == Rest(rs[0], m);
  }

  lemma Head(s: S.Slab, c: S.Config, i: nat)
    requires T.Inv(s, c) && i < NZONES && |s.lists| == NZONES && s.lists[i] != []
    ensures var z := s.lists[i][0]; z in s.zones && s.zones[z].nfree > 0 && T.Fit(s.zones[z], c)
    ensures s.zones[s.lists[i][0]].uindex + 1 == s.zones[s.lists[i][0]].nmax ==> s.zones[s.lists[i][0]].freed != []
  {
    T.HeadListed(s, c, i);
  }

  /** The effect of an allocation from a zone, with the choice of the chunk spelled out. */
  lemma FromZoneIs(s: S.Slab, i: nat)
    requires i < |s.lists| && s.lists[i] != [] && s.lists[i][0] in s.zones
    requires var h := s.zones[s.lists[i][0]]; h.nfree > 0 && (h.uindex + 1 == h.nmax ==> h.freed != [])
    ensures var z := s.lists[i][0]; var was := s.zones[z]; var unused := was.uindex + 1 != was.nmax;
            var c: nat := if unused then was.uindex + 1 else was.freed[0];
            var h := if unused then was.(nfree := was.nfree - 1, uindex := was.uindex + 1)
                     else was.(nfree := was.nfree - 1, freed := was.freed[1..]);
            S.FromZone(s, i)
            == (s.(zones := s.zones[z := h], lists := if h.nfree == 0 then s.lists[i := s.lists[i][1..]] else s.lists,
                   live := s.live[S.Address(z, h, c) := S.Chunk(z, c, h.size)],
                   used := s.used + h.size, max := MaxOf(s.max, s.used + h.size)),
                Some(S.Address(z, h, c)))
  {
    hide S.Address;
  }

  lemma ZoneFits(s: S.Slab, c: S.Config)
    requires T.Inv(s, c) && S.TakePages(s, c.zonePages).1.Some?
    ensures S.TakePages(s, c.zonePages).1.value + c.zonePages <= |s.usage|
  {
    T.TakePagesOk(s, c, c.zonePages);
  }

  lemma LargeFits(s: S.Slab, c: S.Config, n: nat)
    requires T.Inv(s, c) && n > 0 && S.TakePages(s, n).1.Some?
    ensures S.TakePages(s, n).1.value < |s.usage|
  {
    T.TakePagesOk(s, c, n);
  }

  lemma LargeRecord(s: S.Slab, c: S.Config, p: nat)
    requires T.Inv(s, c) && p in s.live && s.live[p].Pages?
    ensures p / PAGE < |s.usage| && s.usage[p / PAGE].size > 0
  {
    T.DescriptorLeadsBack(s, c, p);
    assert T.PieceOk(s, p, s.live[p]);
  }

  lemma ChunkRecord(s: S.Slab, c: S.Config, p: nat)
    requires T.Inv(s, c) && p in s.live && s.live[p].Chunk?
    ensures p / PAGE < |s.usage| && s.usage[p / PAGE].kind != S.Large && S.ZoneOf(s, p) == s.live[p].zone
    ensures s.live[p].zone in s.zones && s.zones[s.live[p].zone].nfree >= 0
  {
    T.DescriptorLeadsBack(s, c, p);
    T.LiveChunk(s, c, p);
  }

  lemma ListShape(t: S.Slab, i: nat)
    requires T.Lists(t) && i < NZONES
    ensures Distinct(t.lists[i])
  {
  }

  lemma ZoneRecord(t: S.Slab, c: S.Config, z: nat)
    requires T.ZonesOk(t, c) && z in t.zones
    ensures z + c.zonePages <= |t.usage|
  {
    assert T.Described(t.usage, z, c.zonePages);
  }

  lemma StillLive(s: S.Slab, c: S.Config, p: nat, size: nat)
    requires T.Inv(s, c) && p in s.live && |s.lists| == NZONES && S.Proper(c) && S.AllocSlab(s, size, c).1.Some?
    ensures p in S.AllocSlab(s, size, c).0.live
  {
    T.AllocKeeps(s, c, size);
  }
}
