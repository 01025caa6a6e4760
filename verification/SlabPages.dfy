/** The page allocator under the slab allocator (slab.c): a sorted list of runs of free pages. */
module SlabPages {
  import opened Basics

  datatype Run = Run(start: nat, count: nat)

  function End(r: Run): nat {
    r.start + r.count
  }

  /** Page `x` is in one of the runs. */
  predicate Has(rs: seq<Run>, x: int) {
    rs != [] && (rs[0].start <= x < End(rs[0]) || Has(rs[1..], x))
  }

  /** No run is empty; the runs are in address order, and no two of them touch. */
  ghost predicate Normal(rs: seq<Run>) {
    && (forall i | 0 <= i < |rs| :: rs[i].count > 0)
    && (forall i, j | 0 <= i < j < |rs| :: End(rs[i]) < rs[j].start)
  }

  /** The lowest run of at least `n` pages, or the length of the list. */
  function FirstFit(rs: seq<Run>, n: nat): (i: nat)
    ensures i <= |rs|
    ensures i < |rs| ==> rs[i].count >= n
    ensures forall j | 0 <= j < i :: rs[j].count < n
  {
    if rs == [] || rs[0].count >= n then 0
    else
      var i := FirstFit(rs[1..], n);
      assert forall j | 0 < j < i + 1 :: rs[j] == rs[1..][j - 1];
      i + 1
  }

  /** A run without its first `n` pages. */
  function Rest(r: Run, n: nat): seq<Run>
    requires n <= r.count
  {
    if r.count > n then [Run(r.start + n, r.count - n)] else []
  }

  /** rt_slab_page_alloc. */
  function Alloc(rs: seq<Run>, n: nat): (seq<Run>, Option<nat>) {
    var i := FirstFit(rs, n);
    if n == 0 || i == |rs| then (rs, None)
    else (rs[..i] + Rest(rs[i], n) + rs[i + 1..], Some(rs[i].start))
  }

  /** rt_slab_page_free: the pages become one run with the runs they touch. */
  function Free(rs: seq<Run>, p: nat, n: nat): seq<Run> {
    if rs == [] then [Run(p, n)]
    else
      var b := rs[0];
      if End(b) == p then
        if |rs| > 1 && p + n == rs[1].start then [Run(b.start, b.count + n + rs[1].count)] + rs[2..]
        else [Run(b.start, b.count + n)] + rs[1..]
      else if b.start == p + n then [Run(p, b.count + n)] + rs[1..]
      else if b.start > p + n then [Run(p, n)] + rs
      else [b] + Free(rs[1..], p, n)
  }

  // ---- Pages -------------------------------------------------------------------------------

  lemma {:induction false} HasAt(rs: seq<Run>, x: int)
    ensures Has(rs, x) <==> exists i :: 0 <= i < |rs| && rs[i].start <= x < End(rs[i])
  {
    if rs != [] {
      HasAt(rs[1..], x);
      if rs[0].start <= x < End(rs[0]) {
      } else if Has(rs[1..], x) {
        var i :| 0 <= i < |rs[1..]| && rs[1..][i].start <= x < End(rs[1..][i]);
        assert rs[i + 1] == rs[1..][i];
      } else {
        forall i | 0 <= i < |rs| ensures !(rs[i].start <= x < End(rs[i])) {
          if i > 0 { assert rs[i] == rs[1..][i - 1]; }
        }
      }
    }
  }

  lemma {:induction false} HasConcat(a: seq<Run>, b: seq<Run>, x: int)
    ensures Has(a + b, x) <==> Has(a, x) || Has(b, x)
  {
    if a == [] {
      assert a + b == b;
    } else {
      assert (a + b)[1..] == a[1..] + b;
      HasConcat(a[1..], b, x);
    }
  }

  lemma HasOne(r: Run, x: int)
    ensures Has([r], x) <==> r.start <= x < End(r)
  {
    assert [r][1..] == [];
  }

  lemma TailNormal(rs: seq<Run>)
    requires Normal(rs) && rs != []
    ensures Normal(rs[1..]) && rs[0].count > 0 && (|rs| > 1 ==> End(rs[0]) < rs[1].start)
    ensures forall x | Has(rs[1..], x) :: End(rs[0]) < x
  {
    var t := rs[1..];
    assert forall i | 0 <= i < |t| :: t[i] == rs[i + 1];
    forall x | Has(t, x) ensures End(rs[0]) < x {
      HasAt(t, x);
      var i :| 0 <= i < |t| && t[i].start <= x < End(t[i]);
      assert t[i] == rs[i + 1];
    }
  }

  /** Allocation takes the lowest run that is long enough, and fails only when there is none; the free
      pages are those of before without the ones handed out. */
  lemma AllocMeaning(rs: seq<Run>, n: nat)
    requires Normal(rs)
    ensures var (rs', p) := Alloc(rs, n);
            && Normal(rs')
            && (p.None? <==> n == 0 || forall r | r in rs :: r.count < n)
            && (p.None? ==> rs' == rs)
            && (p.Some? ==>
                  && (forall x: int | p.value <= x < p.value + n :: Has(rs, x))
                  && (forall x: int :: Has(rs', x) <==> Has(rs, x) && !(p.value <= x < p.value + n))
                  && (forall r | r in rs && r.count >= n :: p.value <= r.start))
  {
    var i := FirstFit(rs, n);
    if n > 0 && i < |rs| {
      var r := rs[i];
      var rs' := Alloc(rs, n).0;
      AllocNormal(rs, n);
      forall x: int ensures Has(rs', x) <==> Has(rs, x) && !(r.start <= x < r.start + n) {
        AllocHas(rs, n, x);
      }
      forall x: int | r.start <= x < r.start + n ensures Has(rs, x) {
        HasAt(rs, x);
      }
      assert rs[i] in rs;
    } else if n > 0 {
      assert forall r | r in rs :: r.count < n;
    }
  }

  lemma AllocNormal(rs: seq<Run>, n: nat)
    requires Normal(rs) && n > 0 && FirstFit(rs, n) < |rs|
    ensures Normal(Alloc(rs, n).0)
  {
    hide Normal, Has, Alloc;
    var i := FirstFit(rs, n);
    AllocShape(rs, n);
    if rs[i].count > n {
      ShortenNormal(rs, i, Run(rs[i].start + n, rs[i].count - n));
    } else {
      RemoveNormal(rs, i);
    }
  }

  lemma AllocShape(rs: seq<Run>, n: nat)
    requires n > 0 && FirstFit(rs, n) < |rs|
    ensures var i := FirstFit(rs, n);
            Alloc(rs, n).0 == if rs[i].count > n then rs[i := Run(rs[i].start + n, rs[i].count - n)] else rs[..i] + rs[i + 1..]
  {
    hide FirstFit;
    var i := FirstFit(rs, n);
    UpdateIs(rs, i, Run(rs[i].start + n, rs[i].count - n));
    assert rs[..i] + [] + rs[i + 1..] == rs[..i] + rs[i + 1..];
  }

  lemma UpdateIs(rs: seq<Run>, i: nat, r: Run)
    requires i < |rs|
    ensures rs[..i] + [r] + rs[i + 1..] == rs[i := r]
  {
  }

  /** A page of one run is in no other. */
  lemma OneRun(rs: seq<Run>, i: nat, x: int)
    requires Normal(rs) && i < |rs| && rs[i].start <= x < End(rs[i])
    ensures !Has(rs[..i], x) && !Has(rs[i + 1..], x)
  {
    var before, behind := rs[..i], rs[i + 1..];
    HasAt(before, x);
    HasAt(behind, x);
    assert forall j | 0 <= j < |before| :: before[j] == rs[j] && End(before[j]) < rs[i].start;
    assert forall j | 0 <= j < |behind| :: behind[j] == rs[i + 1 + j] && End(rs[i]) < behind[j].start;
  }

  lemma HasThree(a: seq<Run>, b: seq<Run>, c: seq<Run>, x: int)
    ensures Has(a + b + c, x) <==> Has(a, x) || Has(b, x) || Has(c, x)
  {
    HasConcat(a + b, c, x);
    HasConcat(a, b, x);
  }

  lemma ShortenNormal(rs: seq<Run>, i: nat, r: Run)
    requires Normal(rs) && i < |rs| && r.count > 0 && rs[i].start <= r.start && End(r) <= End(rs[i])
    ensures Normal(rs[i := r])
  {
  }

  lemma RemoveNormal(rs: seq<Run>, i: nat)
    requires Normal(rs) && i < |rs|
    ensures Normal(rs[..i] + rs[i + 1..])
  {
    var r := rs[..i] + rs[i + 1..];
    assert forall x | 0 <= x < |r| :: r[x] == rs[if x < i then x else x + 1];
  }

  lemma AllocHas(rs: seq<Run>, n: nat, x: int)
    requires Normal(rs) && n > 0 && FirstFit(rs, n) < |rs|
    ensures var r := rs[FirstFit(rs, n)];
            Has(Alloc(rs, n).0, x) <==> Has(rs, x) && !(r.start <= x < r.start + n)
  {
    hide Normal, Has;
    var i := FirstFit(rs, n);
    assert rs == rs[..i] + [rs[i]] + rs[i + 1..];
    HasThree(rs[..i], [rs[i]], rs[i + 1..], x);
    HasThree(rs[..i], Rest(rs[i], n), rs[i + 1..], x);
    HasOne(rs[i], x);
    HasRest(rs[i], n, x);
    if rs[i].start <= x < End(rs[i]) { OneRun(rs, i, x); }
  }

  lemma HasRest(r: Run, n: nat, x: int)
    requires n <= r.count
    ensures Has(Rest(r, n), x) <==> r.start + n <= x < End(r)
  {
    if r.count > n { HasOne(Rest(r, n)[0], x); }
  }

  lemma HeadNormal(r: Run, t: seq<Run>)
    requires r.count > 0 && Normal(t) && (t != [] ==> End(r) < t[0].start)
    ensures Normal([r] + t)
  {
    var s := [r] + t;
    assert forall i | 0 < i < |s| :: s[i] == t[i - 1];
    assert forall j | 0 < j < |t| :: End(t[0]) < t[j].start;
  }

  /** Freeing keeps the list sorted and coalesced, and adds exactly the freed pages. */
  lemma {:induction false} FreeMeaning(rs: seq<Run>, p: nat, n: nat)
    requires Normal(rs) && n > 0 && forall x: int | p <= x < p + n :: !Has(rs, x)
    ensures Normal(Free(rs, p, n))
    ensures Free(rs, p, n) != [] && (Free(rs, p, n)[0].start == p || (rs != [] && Free(rs, p, n)[0].start == rs[0].start))
    ensures forall x: int :: Has(Free(rs, p, n), x) <==> Has(rs, x) || p <= x < p + n
  {
    hide Has, Normal;
    if rs == [] {
      OnlyRun(p, n);
    } else {
      var b, t := rs[0], rs[1..];
      TailNormal(rs);
      assert rs == [b] + t;
      HeadOver(b, t);
      if End(b) == p && t != [] && p + n == t[0].start {
        TailNormal(t);
        assert t == [t[0]] + t[1..] && rs[2..] == t[1..];
        HeadOver(t[0], t[1..]);
        HeadOver(Run(b.start, b.count + n + t[0].count), t[1..]);
        HeadNormal(Run(b.start, b.count + n + t[0].count), t[1..]);
      } else if End(b) == p {
        NextBeyond(t, p, n);
        HeadOver(Run(b.start, b.count + n), t);
        HeadNormal(Run(b.start, b.count + n), t);
      } else if b.start == p + n {
        HeadOver(Run(p, b.count + n), t);
        HeadNormal(Run(p, b.count + n), t);
      } else if b.start > p + n {
        HeadOver(Run(p, n), rs);
        HeadNormal(Run(p, n), rs);
      } else {
        assert !Has(rs, p) && Has(rs, b.start);
        FreeMeaning(t, p, n);
        HeadOver(b, Free(t, p, n));
        Beyond(b, p, n);
        HeadNormal(b, Free(t, p, n));
      }
    }
  }

  lemma OnlyRun(p: nat, n: nat)
    requires n > 0
    ensures Free([], p, n) == [Run(p, n)] && Normal([Run(p, n)])
    ensures forall x: int :: Has([Run(p, n)], x) <==> p <= x < p + n
    ensures forall x: int :: !Has([], x)
  {
    forall x: int ensures Has([Run(p, n)], x) <==> p <= x < p + n { HasOne(Run(p, n), x); }
  }

  /** Free pages that the next run does not touch lie before it, when they do not lie behind its start. */
  lemma NextBeyond(t: seq<Run>, p: nat, n: nat)
    requires Normal(t) && n > 0 && (forall x: int | p <= x < p + n :: !Has(t, x))
    requires t != [] ==> p < t[0].start && p + n != t[0].start
    ensures t != [] ==> p + n < t[0].start
  {
    HeadIn(t);
  }

  lemma HeadIn(t: seq<Run>)
    requires Normal(t)
    ensures t != [] ==> Has(t, t[0].start)
  {
  }

  lemma HeadOver(r: Run, t: seq<Run>)
    ensures forall x: int :: Has([r] + t, x) <==> r.start <= x < End(r) || Has(t, x)
  {
    assert ([r] + t)[1..] == t;
  }

  /** Pages that neither overlap nor touch a run, and do not lie before it, lie behind it. */
  lemma Beyond(b: Run, p: nat, n: nat)
    requires b.count > 0 && n > 0 && !(b.start > p + n) && b.start != p + n && End(b) != p
    requires !(b.start <= p < End(b)) && !(p <= b.start < p + n)
    ensures End(b) < p
  {
  }

  // ---- The list is determined by its pages ---------------------------------------------------

  /** With the same pages, the first runs start together, and the one does not end before the other. */
  lemma FirstRuns(a: seq<Run>, b: seq<Run>)
    requires Normal(a) && Normal(b) && a != [] && b != []
    requires forall x: int :: Has(a, x) <==> Has(b, x)
    ensures b[0].start <= a[0].start && (a[0].start == b[0].start ==> a[0].count <= b[0].count)
  {
    assert Has(a, a[0].start);
    HeadLeast(b, a[0].start);
    assert a[0].start <= End(b[0]) < End(a[0]) ==> Has(a, End(b[0]));
    if a[0].start <= End(b[0]) < End(a[0]) { HeadLeast(b, End(b[0])); }
  }

  /** No page lies before the first run, or right behind it. */
  lemma HeadLeast(b: seq<Run>, x: int)
    requires Normal(b) && b != []
    ensures Has(b, x) ==> b[0].start <= x && x != End(b[0])
  {
    TailNormal(b);
    assert Has(b, x) ==> b[0].start <= x < End(b[0]) || Has(b[1..], x);
  }

  /** Two sorted and coalesced lists with the same pages are the same list. */
  lemma {:induction false} Canonical(a: seq<Run>, b: seq<Run>)
    requires Normal(a) && Normal(b) && forall x: int :: Has(a, x) <==> Has(b, x)
    ensures a == b
  {
    if a == [] || b == [] {
      HeadIn(a);
      HeadIn(b);
    } else {
      FirstRuns(a, b);
      FirstRuns(b, a);
      assert a[0] == b[0];
      TailNormal(a);
      TailNormal(b);
      forall x: int ensures Has(a[1..], x) <==> Has(b[1..], x) {
        assert Has(a, x) <==> Has(b, x);
      }
      Canonical(a[1..], b[1..]);
      assert a == [a[0]] + a[1..] && b == [b[0]] + b[1..];
    }
  }

  /** Freeing a run just allocated restores the list. */
  lemma FreeUndoesAlloc(rs: seq<Run>, n: nat)
    requires Normal(rs) && Alloc(rs, n).1.Some?
    ensures var (rs', p) := Alloc(rs, n); Free(rs', p.value, n) == rs
  {
    hide Alloc, Free, Has, Normal;
    AllocMeaning(rs, n);
    var (rs', p) := Alloc(rs, n);
    AllocSome(rs, n);
    FreeMeaning(rs', p.value, n);
    Canonical(Free(rs', p.value, n), rs);
  }

  lemma AllocSome(rs: seq<Run>, n: nat)
    requires Alloc(rs, n).1.Some?
    ensures n > 0
  {
  }

  /** The order in which two runs are freed does not matter. */
  lemma FreesCommute(rs: seq<Run>, p: nat, n: nat, q: nat, m: nat)
    requires Normal(rs) && n > 0 && m > 0 && (p + n <= q || q + m <= p)
    requires forall x: int | p <= x < p + n || q <= x < q + m :: !Has(rs, x)
    ensures Free(Free(rs, p, n), q, m) == Free(Free(rs, q, m), p, n)
  {
    hide Free, Has, Normal;
    FreeMeaning(rs, p, n);
    FreeMeaning(rs, q, m);
    FreeMeaning(Free(rs, p, n), q, m);
    FreeMeaning(Free(rs, q, m), p, n);
    Canonical(Free(Free(rs, p, n), q, m), Free(Free(rs, q, m), p, n));
  }

  // ---- The list in memory --------------------------------------------------------------------

  class PageList {
    var runs: seq<Run>

    /** rt_slab_page_init: everything is one free run. */
    constructor (npages: nat)
      requires npages > 0
      ensures runs == [Run(0, npages)] && Normal(runs)
    {
      runs := [Run(0, npages)];
    }

    /** rt_slab_page_alloc. */
    method AllocPages(npages: nat) returns (p: Option<nat>)
      modifies this
      ensures (runs, p) == Alloc(old(runs), npages)
      ensures p == None ==> runs == old(runs)
    {
      if npages == 0 { return None; }
      var i := 0;
      while i < |runs|
        invariant i <= |runs| && runs == old(runs)
        invariant forall j | 0 <= j < i :: runs[j].count < npages
      {
        var b := runs[i];
        if b.count > npages {
          FitIs(runs, npages, i);
          runs := runs[..i] + [Run(b.start + npages, b.count - npages)] + runs[i + 1..];
          return Some(b.start);
        }
        if b.count == npages {
          FitIs(runs, npages, i);
          runs := runs[..i] + runs[i + 1..];
          assert runs == old(runs)[..i] + [] + old(runs)[i + 1..];
          return Some(b.start);
        }
        i := i + 1;
      }
      FitIs(runs, npages, i);
      return None;
    }

    /** rt_slab_page_free. */
    method FreePages(addr: nat, npages: nat)
      requires npages > 0
      modifies this
      ensures runs == Free(old(runs), addr, npages)
    {
      hide Free;
      var i := 0;
      while i < |runs|
        invariant i <= |runs| && runs == old(runs)
        invariant Free(runs, addr, npages) == runs[..i] + Free(runs[i..], addr, npages)
      {
        var b := runs[i];
        Unfold(runs, i, addr, npages);
        if End(b) == addr {
          b := b.(count := b.count + npages);
          if i + 1 < |runs| && End(b) == runs[i + 1].start {
            runs := runs[..i] + [b.(count := b.count + runs[i + 1].count)] + runs[i + 2..];
          } else {
            runs := runs[..i] + [b] + runs[i + 1..];
          }
          return;
        }
        if b.start == addr + npages {
          runs := runs[..i] + [Run(addr, b.count + npages)] + runs[i + 1..];
          return;
        }
        if b.start > addr + npages { break; }
        i := i + 1;
      }
      if i < |runs| { Unfold(runs, i, addr, npages); } else { FreeLast(runs, addr, npages); }
      runs := runs[..i] + [Run(addr, npages)] + runs[i..];
    }
  }

  lemma FitIs(rs: seq<Run>, n: nat, i: nat)
    requires i <= |rs| && (i < |rs| ==> rs[i].count >= n) && forall j | 0 <= j < i :: rs[j].count < n
    ensures FirstFit(rs, n) == i
  {
  }

  /** One step of the walk that frees pages. */
  lemma Unfold(rs: seq<Run>, i: nat, p: nat, n: nat)
    requires i < |rs| && Free(rs, p, n) == rs[..i] + Free(rs[i..], p, n)
    ensures var b := rs[i];
            Free(rs, p, n) ==
            if End(b) == p then
              if i + 1 < |rs| && p + n == rs[i + 1].start then rs[..i] + [Run(b.start, b.count + n + rs[i + 1].count)] + rs[i + 2..]
              else rs[..i] + [Run(b.start, b.count + n)] + rs[i + 1..]
            else if b.start == p + n then rs[..i] + [Run(p, b.count + n)] + rs[i + 1..]
            else if b.start > p + n then rs[..i] + [Run(p, n)] + rs[i..]
            else rs[..i + 1] + Free(rs[i + 1..], p, n)
  {
    hide Free;
    FreeStep(rs[i..], p, n);
    assert rs[i..][1..] == rs[i + 1..];
    assert rs[..i] + ([rs[i]] + Free(rs[i + 1..], p, n)) == rs[..i + 1] + Free(rs[i + 1..], p, n);
    if i + 1 < |rs| { assert rs[i..][2..] == rs[i + 2..]; }
  }

  lemma FreeStep(t: seq<Run>, p: nat, n: nat)
    requires t != []
    ensures var b := t[0];
            Free(t, p, n) ==
            if End(b) == p then
              if |t| > 1 && p + n == t[1].start then [Run(b.start, b.count + n + t[1].count)] + t[2..]
              else [Run(b.start, b.count + n)] + t[1..]
            else if b.start == p + n then [Run(p, b.count + n)] + t[1..]
            else if b.start > p + n then [Run(p, n)] + t
            else [b] + Free(t[1..], p, n)
  {
  }

  lemma FreeLast(rs: seq<Run>, p: nat, n: nat)
    requires Free(rs, p, n) == rs[..|rs|] + Free(rs[|rs|..], p, n)
    ensures Free(rs, p, n) == rs[..|rs|] + [Run(p, n)] + rs[|rs|..]
  {
    assert rs[|rs|..] == [];
  }
}
