/** Worst-case stack use over a call graph (tools/WCS.py): a memoised search with a check for cycles. */
module WorstStack {

  import opened Basics

  datatype Fn = Global(name: string) | Local(name: string, tu: string)

  /** What was read of a function: its translation unit, the names it calls, whether it calls through a pointer, its
      own frame, and whether its stack use was listed by hand. */
  datatype Info = Info(tu: string, calls: seq<string>, ptr: bool, local: nat, manual: bool)

  datatype Program = Program(globals: map<string, Info>, locals: map<string, map<string, Info>>)

  /** For each function: its resolved calls in the order they are followed, the stack of its own frame,
      whether it calls through a pointer, and the calls that were not resolved. */
  datatype Graph = Graph(calls: map<Fn, seq<Fn>>, local: map<Fn, nat>, ptr: map<Fn, bool>, unresolved: map<Fn, set<string>>)

  datatype Wcs = Bounded(bytes: nat) | Unbounded

  ghost predicate Closed(g: Graph) {
    && g.local.Keys == g.calls.Keys && g.ptr.Keys == g.calls.Keys && g.unresolved.Keys == g.calls.Keys
    && forall f, h | f in g.calls && h in g.calls[f] :: h in g.calls
  }

  // ---- Resolving names ---------------------------------------------------------------------

  function All(s: Program): set<Fn> {
    (set n | n in s.globals :: Global(n)) + (set n, t | n in s.locals && t in s.locals[n] :: Local(n, t))
  }

  function InfoOf(s: Program, f: Fn): Info
    requires f in All(s)
  {
    match f
    case Global(n) => s.globals[n]
    case Local(n, t) => s.locals[n][t]
  }

  /** A name is looked up among the globals first, then among the locals of the caller's translation unit. */
  function Find(s: Program, tu: string, name: string): (r: Option<Fn>)
    ensures r.Some? <==> Global(name) in All(s) || Local(name, tu) in All(s)
    ensures r.Some? ==> r.value in All(s) && r.value.name == name && (r.value.Local? ==> Global(name) !in All(s))
  {
    if name in s.globals then Some(Global(name))
    else if name in s.locals && tu in s.locals[name] then Some(Local(name, tu))
    else None
  }

  function Resolved(s: Program, tu: string, names: seq<string>): seq<Fn> {
    if names == [] then [] else
      var n := |names| - 1;
      var r := Resolved(s, tu, names[..n]);
      match Find(s, tu, names[n])
      case Some(f) => r + [f]
      case None => r
  }

  function Unresolved(s: Program, tu: string, names: seq<string>): set<string> {
    set x | x in names && Find(s, tu, x).None?
  }

  lemma {:induction false} ResolvedMeaning(s: Program, tu: string, names: seq<string>, f: Fn)
    ensures f in Resolved(s, tu, names) <==> f.name in names && Find(s, tu, f.name) == Some(f)
  {
    if names != [] {
      ResolvedMeaning(s, tu, names[..|names| - 1], f);
      assert names == names[..|names| - 1] + [names[|names| - 1]];
    }
  }

  function GraphOf(s: Program): Graph {
    Graph(
      map f | f in All(s) :: Resolved(s, InfoOf(s, f).tu, InfoOf(s, f).calls),
      map f | f in All(s) :: InfoOf(s, f).local,
      map f | f in All(s) :: InfoOf(s, f).ptr,
      map f | f in All(s) :: Unresolved(s, InfoOf(s, f).tu, InfoOf(s, f).calls))
  }

  lemma GraphAt(s: Program)
    ensures GraphOf(s).calls.Keys == All(s) && GraphOf(s).unresolved.Keys == All(s)
    ensures forall f | f in All(s) :: GraphOf(s).calls[f] == Resolved(s, InfoOf(s, f).tu, InfoOf(s, f).calls)
    ensures forall f | f in All(s) :: GraphOf(s).unresolved[f] == Unresolved(s, InfoOf(s, f).tu, InfoOf(s, f).calls)
  {
    hide InfoOf, Resolved, Unresolved, All;
  }

  lemma GraphClosed(s: Program)
    ensures Closed(GraphOf(s))
  {
    var g := GraphOf(s);
    forall f, h | f in g.calls && h in g.calls[f] ensures h in g.calls {
      ResolvedMeaning(s, InfoOf(s, f).tu, InfoOf(s, f).calls, h);
    }
  }

  /** A function listed by hand calls nothing. */
  ghost predicate WellRead(s: Program) {
    forall f | f in All(s) && InfoOf(s, f).manual :: InfoOf(s, f).calls == [] && !InfoOf(s, f).ptr
  }

  /** The results there are before the search: those listed by hand. */
  function Listed(s: Program): map<Fn, Wcs> {
    map f | f in All(s) && InfoOf(s, f).manual :: Bounded(InfoOf(s, f).local)
  }

  lemma ListedRight(s: Program)
    requires WellRead(s)
    ensures Known(GraphOf(s), Listed(s), GraphOf(s).unresolved, [])
  {
    var g := GraphOf(s);
    GraphClosed(s);
    forall f | f in Listed(s)
      ensures Right(g, f, Listed(s)[f]) && forall x :: x in g.unresolved[f] <==> Inherits(g, f, x)
    {
      Nothing(g, f);
      PartialDone(g, f, 0);
      AllGathered(g, f, g.unresolved[f]);
    }
  }

  // ---- Call paths --------------------------------------------------------------------------

  predicate Calls(g: Graph, f: Fn, h: Fn) {
    f in g.calls && h in g.calls[f]
  }

  /** A chain of resolved calls. */
  ghost predicate Path(g: Graph, p: seq<Fn>) {
    && p != [] && p[0] in g.calls
    && forall i, j | 0 <= i && j == i + 1 && j < |p| :: Calls(g, p[i], p[j])
  }

  ghost predicate From(g: Graph, p: seq<Fn>, f: Fn) {
    Path(g, p) && p[0] == f
  }

  function Last(p: seq<Fn>): Fn
    requires p != []
  {
    p[|p| - 1]
  }

  function LocalOf(g: Graph, f: Fn): nat {
    if f in g.local then g.local[f] else 0
  }

  /** The stack a chain of calls uses. */
  function Sum(g: Graph, p: seq<Fn>): nat {
    if p == [] then 0 else LocalOf(g, p[0]) + Sum(g, p[1..])
  }

  /** A chain that shows there is no bound: it ends in a pointer call, or comes to a function twice. */
  ghost predicate Bad(g: Graph, p: seq<Fn>) {
    p != [] && ((Last(p) in g.ptr && g.ptr[Last(p)]) || !Distinct(p))
  }

  ghost predicate NoBound(g: Graph, f: Fn) {
    exists p :: From(g, p, f) && Bad(g, p)
  }

  /** `n` is the most stack any chain of calls from `f` uses. */
  ghost predicate Maximum(g: Graph, f: Fn, n: nat) {
    && (forall p | From(g, p, f) :: Sum(g, p) <= n)
    && (exists p :: From(g, p, f) && Sum(g, p) == n)
  }

  /** The unresolved calls of everything a function calls, directly or not. */
  ghost predicate Inherits(g: Graph, f: Fn, x: string) {
    exists p :: From(g, p, f) && Last(p) in g.unresolved && x in g.unresolved[Last(p)]
  }

  lemma PathCons(g: Graph, f: Fn, p: seq<Fn>)
    requires Path(g, p) && Calls(g, f, p[0])
    ensures From(g, [f] + p, f) && Last([f] + p) == Last(p) && Sum(g, [f] + p) == LocalOf(g, f) + Sum(g, p)
  {
    var q := [f] + p;
    assert forall i | 0 < i < |q| :: q[i] == p[i - 1];
    forall i, j | 0 <= i && j == i + 1 && j < |q| ensures Calls(g, q[i], q[j]) {
      if i > 0 { assert Calls(g, p[i - 1], p[j - 1]); }
    }
    assert q[1..] == p;
  }

  lemma PathTail(g: Graph, p: seq<Fn>)
    requires Path(g, p) && |p| > 1 && Closed(g)
    ensures Path(g, p[1..]) && Calls(g, p[0], p[1]) && Last(p[1..]) == Last(p)
    ensures Sum(g, p) == LocalOf(g, p[0]) + Sum(g, p[1..])
  {
    var t := p[1..];
    assert Calls(g, p[0], p[1]);
    forall i, j | 0 <= i && j == i + 1 && j < |t| ensures Calls(g, t[i], t[j]) {
      assert Calls(g, p[i + 1], p[j + 1]);
    }
  }

  lemma PathJoin(g: Graph, p: seq<Fn>, q: seq<Fn>)
    requires Path(g, p) && Path(g, q) && Calls(g, Last(p), q[0])
    ensures Path(g, p + q) && Last(p + q) == Last(q)
  {
    var r := p + q;
    forall i, j | 0 <= i && j == i + 1 && j < |r| ensures Calls(g, r[i], r[j]) {
      if j < |p| { assert r[i] == p[i] && r[j] == p[j]; }
      else if i >= |p| { assert r[i] == q[i - |p|] && r[j] == q[j - |p|]; }
    }
  }

  lemma PathPrefix(g: Graph, p: seq<Fn>, n: nat)
    requires Path(g, p) && 0 < n <= |p|
    ensures Path(g, p[..n])
  {
    var q := p[..n];
    forall i, j | 0 <= i && j == i + 1 && j < |q| ensures Calls(g, q[i], q[j]) { assert Calls(g, p[i], p[j]); }
  }

  lemma OneFn(g: Graph, f: Fn)
    requires f in g.calls
    ensures From(g, [f], f) && Last([f]) == f && Sum(g, [f]) == LocalOf(g, f)
  {
    assert [f][1..] == [];
  }

  /** A function that calls one without a bound has none. */
  lemma CallerHasNone(g: Graph, f: Fn, h: Fn)
    requires Closed(g) && Calls(g, f, h) && NoBound(g, h)
    ensures Right(g, f, Unbounded)
  {
    var p :| From(g, p, h) && Bad(g, p);
    PathCons(g, f, p);
    var q := [f] + p;
    if !Distinct(p) {
      var i, j :| 0 <= i < j < |p| && p[i] == p[j];
      assert q[i + 1] == q[j + 1];
    }
    assert Bad(g, q);
  }

  /** A function on a chain of calls that leads back to it has no bound. */
  lemma CycleHasNone(g: Graph, p: seq<Fn>, i: nat)
    requires Path(g, p) && i < |p| && Calls(g, Last(p), p[i]) && Closed(g)
    ensures NoBound(g, p[i])
  {
    PathSuffix(g, p, i);
    OneFn(g, p[i]);
    var s := p[i..];
    PathJoin(g, s, [p[i]]);
    var q := s + [p[i]];
    assert q[0] == p[i] && q[|s|] == p[i];
    assert From(g, q, p[i]) && Bad(g, q);
  }

  lemma {:induction false} PathSuffix(g: Graph, p: seq<Fn>, i: nat)
    requires Path(g, p) && i < |p| && Closed(g)
    ensures Path(g, p[i..]) && Last(p[i..]) == Last(p) && p[i..][0] == p[i]
    decreases i
  {
    if i == 0 {
      assert p[0..] == p;
    } else {
      PathTail(g, p);
      PathSuffix(g, p[1..], i - 1);
      assert p[1..][i - 1..] == p[i..];
    }
  }

  /** With all its callees bounded and no pointer call, a function is bounded. */
  lemma AllBounded(g: Graph, f: Fn)
    requires Closed(g) && f in g.calls && !g.ptr[f] && forall h | h in g.calls[f] :: !NoBound(g, h)
    ensures !NoBound(g, f)
  {
    forall p | From(g, p, f) ensures !Bad(g, p) {
      if |p| == 1 {
        assert Last(p) == f;
      } else {
        PathTail(g, p);
        var t := p[1..];
        assert From(g, t, p[1]) && !Bad(g, t);
        if f in t {
          var i :| 0 <= i < |t| && t[i] == f;
          PathPrefix(g, t, i + 1);
          CycleHasNone(g, t[..i + 1], 0);
        }
        TailDistinct(p);
      }
    }
  }

  lemma TailDistinct(p: seq<Fn>)
    requires p != [] && Distinct(p[1..]) && p[0] !in p[1..]
    ensures Distinct(p)
  {
    forall i, j | 0 <= i < j < |p| ensures p[i] != p[j] {
      assert p[j] == p[1..][j - 1];
      if i > 0 { assert p[i] == p[1..][i - 1]; }
    }
  }

  // ---- The search ----------------------------------------------------------------------------

  /** A memoised result is right. */
  ghost predicate Right(g: Graph, f: Fn, w: Wcs) {
    match w
    case Unbounded => NoBound(g, f)
    case Bounded(n) => !NoBound(g, f) && Maximum(g, f, n)
  }

  /** What the calls followed so far add up to. */
  ghost predicate Partial(g: Graph, f: Fn, i: nat, callMax: nat)
    requires f in g.calls && i <= |g.calls[f]|
  {
    && (forall k | 0 <= k < i :: !NoBound(g, g.calls[f][k]))
    && (forall k, p | 0 <= k < i && From(g, p, g.calls[f][k]) :: Sum(g, p) <= callMax)
    && (callMax > 0 ==> exists k, p :: 0 <= k < i && From(g, p, g.calls[f][k]) && Sum(g, p) == callMax)
  }

  lemma PartialStep(g: Graph, f: Fn, i: nat, callMax: nat, n: nat)
    requires Closed(g) && f in g.calls && i < |g.calls[f]| && Partial(g, f, i, callMax) && Right(g, g.calls[f][i], Bounded(n))
    ensures Partial(g, f, i + 1, MaxOf(callMax, n))
  {
    var m := MaxOf(callMax, n);
    forall k, p | 0 <= k < i + 1 && From(g, p, g.calls[f][k]) ensures Sum(g, p) <= m {
      if k == i { assert Sum(g, p) <= n; }
    }
    if n > callMax {
      var p :| From(g, p, g.calls[f][i]) && Sum(g, p) == n;
      assert 0 <= i < i + 1 && From(g, p, g.calls[f][i]) && Sum(g, p) == m;
    } else if callMax > 0 {
      var k, p :| 0 <= k < i && From(g, p, g.calls[f][k]) && Sum(g, p) == callMax;
      assert 0 <= k < i + 1 && From(g, p, g.calls[f][k]) && Sum(g, p) == m;
    }
  }

  /** Before any call is followed. */
  lemma Nothing(g: Graph, f: Fn)
    requires Closed(g) && f in g.calls
    ensures Partial(g, f, 0, 0) && Gathered(g, f, 0, g.unresolved[f])
  {
  }

  lemma PointerHasNone(g: Graph, f: Fn)
    requires Closed(g) && f in g.calls && g.ptr[f]
    ensures Right(g, f, Unbounded)
  {
    OneFn(g, f);
    assert Bad(g, [f]);
  }

  /** When all calls are followed, the function's own frame comes on top. */
  lemma PartialDone(g: Graph, f: Fn, callMax: nat)
    requires Closed(g) && f in g.calls && !g.ptr[f] && Partial(g, f, |g.calls[f]|, callMax)
    ensures Right(g, f, Bounded(callMax + g.local[f]))
  {
    forall h | h in g.calls[f] ensures !NoBound(g, h) {
      var k :| 0 <= k < |g.calls[f]| && g.calls[f][k] == h;
      assert !NoBound(g, g.calls[f][k]);
    }
    AllBounded(g, f);
    var n := callMax + g.local[f];
    OneFn(g, f);
    forall p | From(g, p, f) ensures Sum(g, p) <= n {
      if |p| == 1 {
        assert p == [f];
      } else {
        PathTail(g, p);
        var k :| 0 <= k < |g.calls[f]| && g.calls[f][k] == p[1];
        assert From(g, p[1..], g.calls[f][k]);
      }
    }
    if callMax > 0 {
      var k, p :| 0 <= k < |g.calls[f]| && From(g, p, g.calls[f][k]) && Sum(g, p) == callMax;
      assert Calls(g, f, p[0]);
      PathCons(g, f, p);
      assert From(g, [f] + p, f) && Sum(g, [f] + p) == n;
    } else {
      assert From(g, [f], f) && Sum(g, [f]) == n;
    }
  }

  /** The unresolved calls gathered so far: the function's own and those of the calls followed. */
  ghost predicate Gathered(g: Graph, f: Fn, i: nat, found: set<string>)
    requires f in g.calls && i <= |g.calls[f]|
  {
    forall x :: x in found <==>
      (f in g.unresolved && x in g.unresolved[f]) || exists k :: 0 <= k < i && Inherits(g, g.calls[f][k], x)
  }

  lemma GatheredStep(g: Graph, f: Fn, i: nat, found: set<string>, more: set<string>)
    requires f in g.calls && i < |g.calls[f]| && Gathered(g, f, i, found)
    requires forall x :: x in more <==> Inherits(g, g.calls[f][i], x)
    ensures Gathered(g, f, i + 1, found + more)
  {
    forall x ensures x in found + more <==>
      (f in g.unresolved && x in g.unresolved[f]) || exists k :: 0 <= k < i + 1 && Inherits(g, g.calls[f][k], x)
    {
      if exists k :: 0 <= k < i + 1 && Inherits(g, g.calls[f][k], x) {
        var k :| 0 <= k < i + 1 && Inherits(g, g.calls[f][k], x);
        assert k < i || k == i;
      }
      if exists k :: 0 <= k < i && Inherits(g, g.calls[f][k], x) {
        var k :| 0 <= k < i && Inherits(g, g.calls[f][k], x);
        assert 0 <= k < i + 1 && Inherits(g, g.calls[f][k], x);
      }
      if x in more { assert 0 <= i < i + 1 && Inherits(g, g.calls[f][i], x); }
    }
  }

  lemma GatheredDone(g: Graph, f: Fn, found: set<string>, x: string)
    requires Closed(g) && f in g.calls && Gathered(g, f, |g.calls[f]|, found)
    ensures x in found <==> Inherits(g, f, x)
  {
    OneFn(g, f);
    if x in found {
      if x !in g.unresolved[f] {
        var k :| 0 <= k < |g.calls[f]| && Inherits(g, g.calls[f][k], x);
        var p :| From(g, p, g.calls[f][k]) && Last(p) in g.unresolved && x in g.unresolved[Last(p)];
        assert Calls(g, f, p[0]);
        PathCons(g, f, p);
      } else {
        assert From(g, [f], f) && Last([f]) in g.unresolved;
      }
    }
    if Inherits(g, f, x) {
      var p :| From(g, p, f) && Last(p) in g.unresolved && x in g.unresolved[Last(p)];
      if |p| > 1 {
        PathTail(g, p);
        var k :| 0 <= k < |g.calls[f]| && g.calls[f][k] == p[1];
        assert From(g, p[1..], g.calls[f][k]);
        assert Inherits(g, g.calls[f][k], x);
      }
    }
  }

  lemma AllGathered(g: Graph, f: Fn, found: set<string>)
    requires Closed(g) && f in g.calls && Gathered(g, f, |g.calls[f]|, found)
    ensures forall x :: x in found <==> Inherits(g, f, x)
  {
    forall x ensures x in found <==> Inherits(g, f, x) { GatheredDone(g, f, found, x); }
  }

  lemma {:induction false} DistinctFits(p: seq<Fn>, all: set<Fn>)
    requires Distinct(p) && forall f | f in p :: f in all
    ensures |p| <= |all|
  {
    if p != [] {
      var q := p[..|p| - 1];
      var l := Last(p);
      assert l in p;
      forall f | f in q ensures f in all - {l} {
        var i :| 0 <= i < |q| && q[i] == f;
        assert p[i] == f && p[i] != p[|p| - 1];
      }
      DistinctFits(q, all - {l});
    }
  }

  /** Results found so far are right. A bounded function has gathered all unresolved calls below it;
      one that the search has not come to, and so is not in `open`, has its own. */
  ghost predicate Known(g: Graph, wcs: map<Fn, Wcs>, unresolved: map<Fn, set<string>>, open: seq<Fn>) {
    && unresolved.Keys == g.calls.Keys
    && (forall f | f in wcs :: f in g.calls && Right(g, f, wcs[f]))
    && (forall f | f in g.calls && f in g.unresolved && f !in wcs && f !in open :: unresolved[f] == g.unresolved[f])
    && (forall f, x | f in wcs && wcs[f].Bounded? :: x in unresolved[f] <==> Inherits(g, f, x))
  }

  /** A function is done, and leaves the search. */
  lemma Done(g: Graph, wcs: map<Fn, Wcs>, unresolved: map<Fn, set<string>>, open: seq<Fn>, f: Fn, w: Wcs)
    requires Known(g, wcs, unresolved, open + [f]) && f in g.calls && Right(g, f, w)
    requires w.Bounded? ==> forall x :: x in unresolved[f] <==> Inherits(g, f, x)
    ensures Known(g, wcs[f := w], unresolved, open)
  {
    hide Right, Inherits;
  }

  /** The function the search is at takes on unresolved calls. */
  lemma Takes(g: Graph, wcs: map<Fn, Wcs>, unresolved: map<Fn, set<string>>, open: seq<Fn>, f: Fn, s: set<string>)
    requires Known(g, wcs, unresolved, open + [f]) && f in g.calls && (f in wcs ==> wcs[f] == Unbounded)
    ensures Known(g, wcs, unresolved[f := s], open + [f])
  {
    hide Right, Inherits;
  }

  lemma KnownOf(g: Graph, wcs: map<Fn, Wcs>, unresolved: map<Fn, set<string>>, open: seq<Fn>, f: Fn)
    requires Known(g, wcs, unresolved, open) && f in wcs
    ensures f in g.calls && f in unresolved && Right(g, f, wcs[f]) && (wcs[f] == Unbounded <==> NoBound(g, f))
    ensures wcs[f].Bounded? ==> Maximum(g, f, wcs[f].bytes) && forall x :: x in unresolved[f] <==> Inherits(g, f, x)
  {
    hide NoBound, Maximum, Inherits;
  }

  /** Results stay as they are. The functions on the path keep what they have, unless found unbounded. */
  ghost predicate Kept(wcs: map<Fn, Wcs>, unresolved: map<Fn, set<string>>, wcs': map<Fn, Wcs>,
    unresolved': map<Fn, set<string>>, open: seq<Fn>)
  {
    && (forall f | f in wcs :: f in wcs' && wcs'[f] == wcs[f])
    && (forall f | f in open :: f in unresolved && f in unresolved' && unresolved'[f] == unresolved[f])
    && (forall f | f in open && f !in wcs && f in wcs' :: wcs'[f] == Unbounded)
  }

  /** A callee of `f` was searched. */
  lemma KeptCall(w0: map<Fn, Wcs>, u0: map<Fn, set<string>>, w1: map<Fn, Wcs>, u1: map<Fn, set<string>>, w2: map<Fn, Wcs>,
    u2: map<Fn, set<string>>, open: seq<Fn>, f: Fn)
    requires Kept(w0, u0, w1, u1, open) && Kept(w1, u1, w2, u2, open + [f])
    requires f !in w0 && (f in w1 ==> w1[f] == Unbounded)
    ensures Kept(w0, u0, w2, u2, open) && (f in w2 ==> w2[f] == Unbounded)
    ensures f in u1 && f in u2 && u2[f] == u1[f]
  {
    assert f in open + [f];
    forall h | h in open ensures h in open + [f] {}
  }

  /** The result of `f`, or the unresolved calls it has, are set. */
  lemma KeptSet(w0: map<Fn, Wcs>, u0: map<Fn, set<string>>, w1: map<Fn, Wcs>, u1: map<Fn, set<string>>, open: seq<Fn>, f: Fn,
    w: Wcs, s: set<string>)
    requires Kept(w0, u0, w1, u1, open) && f !in w0 && (f in open ==> w == Unbounded)
    ensures Kept(w0, u0, w1[f := w], u1, open)
    ensures f !in open ==> Kept(w0, u0, w1, u1[f := s], open)
  {
  }

  method ResolveCalls(s: Program, f: Info) returns (r: seq<Fn>, u: set<string>)
    ensures r == Resolved(s, f.tu, f.calls) && u == Unresolved(s, f.tu, f.calls)
  {
    r, u := [], {};
    for i := 0 to |f.calls|
      invariant r == Resolved(s, f.tu, f.calls[..i]) && u == Unresolved(s, f.tu, f.calls[..i])
    {
      assert f.calls[..i + 1] == f.calls[..i] + [f.calls[i]];
      match Find(s, f.tu, f.calls[i])
      case Some(h) => r := r + [h];
      case None => u := u + {f.calls[i]};
    }
    assert f.calls[..|f.calls|] == f.calls;
  }

  class Analysis {
    const program: Program
    ghost const graph: Graph
    var calls: map<Fn, seq<Fn>>
    const local: map<Fn, nat>
    const ptr: map<Fn, bool>
    var wcs: map<Fn, Wcs>
    var unresolved: map<Fn, set<string>>
    var parents: seq<Fn>

    ghost predicate Valid()
      reads this
    {
      && Closed(graph) && calls == graph.calls && local == graph.local && ptr == graph.ptr
      && Known(graph, wcs, unresolved, parents)
    }

    /** The functions being searched form a chain of calls without repetition. */
    ghost predicate OnPath(next: Fn)
      reads this
    {
      && Distinct(parents) && (forall f | f in parents :: f in calls)
      && (parents != [] ==> Path(graph, parents) && Calls(graph, Last(parents), next))
    }

    /** What was read, with the results listed by hand. */
    constructor (s: Program)
      requires WellRead(s)
      ensures program == s && graph == GraphOf(s) && local == graph.local && ptr == graph.ptr
      ensures parents == [] && wcs == Listed(s)
    {
      program, graph, local, ptr := s, GraphOf(s), GraphOf(s).local, GraphOf(s).ptr;
      calls, unresolved, wcs, parents := map[], map[], Listed(s), [];
    }

    /** resolve_all_calls, over the functions in any order. */
    method ResolveAll(order: seq<Fn>)
      requires graph == GraphOf(program) && local == graph.local && ptr == graph.ptr && WellRead(program)
      requires parents == [] && wcs == Listed(program) && forall f :: f in order <==> f in All(program)
      modifies this`calls, this`unresolved
      ensures Valid()
    {
      hide Known, Closed, GraphOf, Resolved, Unresolved, InfoOf, All, Listed;
      GraphAt(program);
      calls, unresolved := map[], map[];
      for i := 0 to |order|
        invariant calls.Keys == (set f | f in order[..i]) && unresolved.Keys == calls.Keys
        invariant forall f | f in calls ::
          f in graph.calls && calls[f] == graph.calls[f] && unresolved[f] == graph.unresolved[f]
      {
        assert order[i] in order;
        var r, u := ResolveCalls(program, InfoOf(program, order[i]));
        calls, unresolved := calls[order[i] := r], unresolved[order[i] := u];
      }
      assert order[..|order|] == order;
      GraphClosed(program);
      ListedRight(program);
      assert calls == graph.calls && unresolved == graph.unresolved;
    }

    /** calc_wcs: with the stack of callers in `parents`, the result of `f`. */
    method Calc(f: Fn)
      requires Valid() && f in calls && OnPath(f)
      modifies this`wcs, this`unresolved, this`parents
      ensures Valid() && parents == old(parents) && f in wcs
      ensures Kept(old(wcs), old(unresolved), wcs, unresolved, parents)
      decreases |calls| - |parents|, 1
    {
      hide Known, Kept, Right, NoBound, Inherits, Partial, Gathered, Path, Distinct;
      Start(f);
      if f in wcs { return; }
      if ptr[f] {
        PointerHasNone(graph, f);
        Done(graph, wcs, unresolved, parents, f, Unbounded);
        KeptSet(wcs, unresolved, wcs, unresolved, parents, f, Unbounded, {});
        wcs := wcs[f := Unbounded];
        return;
      }
      if f in parents {
        OnCycle(f);
        Done(graph, wcs, unresolved, parents, f, Unbounded);
        KeptSet(wcs, unresolved, wcs, unresolved, parents, f, Unbounded, {});
        wcs := wcs[f := Unbounded];
        return;
      }
      var callMax: nat := 0;
      Nothing(graph, f);
      for i := 0 to |calls[f]|
        invariant Known(graph, wcs, unresolved, parents + [f]) && parents == old(parents) && f in unresolved
        invariant Partial(graph, f, i, callMax) && Gathered(graph, f, i, unresolved[f])
        invariant Kept(old(wcs), old(unresolved), wcs, unresolved, parents) && (f in wcs ==> wcs[f] == Unbounded)
      {
        var h := calls[f][i];
        ghost var w, u := wcs, unresolved;
        Follow(f, h);
        KeptCall(old(wcs), old(unresolved), w, u, wcs, unresolved, parents, f);
        if wcs[h] == Unbounded {
          CallerHasNone(graph, f, h);
          Done(graph, wcs, unresolved, parents, f, Unbounded);
          KeptSet(old(wcs), old(unresolved), wcs, unresolved, parents, f, Unbounded, {});
          wcs := wcs[f := Unbounded];
          return;
        }
        PartialStep(graph, f, i, callMax, wcs[h].bytes);
        GatheredStep(graph, f, i, unresolved[f], unresolved[h]);
        callMax := MaxOf(callMax, wcs[h].bytes);
        Takes(graph, wcs, unresolved, parents, f, unresolved[f] + unresolved[h]);
        KeptSet(old(wcs), old(unresolved), wcs, unresolved, parents, f, Unbounded, unresolved[f] + unresolved[h]);
        unresolved := unresolved[f := unresolved[f] + unresolved[h]];
      }
      PartialDone(graph, f, callMax);
      AllGathered(graph, f, unresolved[f]);
      Done(graph, wcs, unresolved, parents, f, Bounded(callMax + local[f]));
      KeptSet(old(wcs), old(unresolved), wcs, unresolved, parents, f, Bounded(callMax + local[f]), {});
      wcs := wcs[f := Bounded(callMax + local[f])];
    }

    /** One call of `f` is followed. */
    method Follow(f: Fn, h: Fn)
      requires Closed(graph) && calls == graph.calls && local == graph.local && ptr == graph.ptr
      requires Known(graph, wcs, unresolved, parents + [f]) && Calls(graph, f, h) && OnPath(f) && f !in parents
      modifies this`wcs, this`unresolved, this`parents
      ensures Known(graph, wcs, unresolved, parents + [f]) && parents == old(parents)
      ensures Kept(old(wcs), old(unresolved), wcs, unresolved, parents + [f])
      ensures h in wcs && h in unresolved && Right(graph, h, wcs[h]) && (wcs[h] == Unbounded ==> NoBound(graph, h))
      ensures wcs[h].Bounded? ==> forall x :: x in unresolved[h] <==> Inherits(graph, h, x)
      decreases |calls| - |parents|, 0
    {
      hide Known, Kept, Right, NoBound, Inherits, Path, Distinct;
      Deeper(f, h);
      parents := parents + [f];
      Calc(h);
      KnownOf(graph, wcs, unresolved, parents, h);
      parents := parents[..|parents| - 1];
    }

    lemma Start(f: Fn)
      requires Valid() && f in calls && OnPath(f)
      ensures Kept(wcs, unresolved, wcs, unresolved, parents) && unresolved.Keys == calls.Keys
      ensures Known(graph, wcs, unresolved, parents + [f])
      ensures f !in wcs && f !in parents ==> unresolved[f] == graph.unresolved[f]
    {
      hide Right, Inherits;
    }

    lemma OnCycle(f: Fn)
      requires Closed(graph) && OnPath(f) && f in parents
      ensures Right(graph, f, Unbounded)
    {
      var i :| 0 <= i < |parents| && parents[i] == f;
      CycleHasNone(graph, parents, i);
    }

    lemma Deeper(f: Fn, h: Fn)
      requires Closed(graph) && calls == graph.calls && f in calls && h in calls[f] && OnPath(f) && f !in parents
      ensures h in calls && Distinct(parents + [f]) && Path(graph, parents + [f]) && Calls(graph, f, h)
      ensures |parents| + 1 <= |calls|
    {
      OneFn(graph, f);
      if parents == [] { assert parents + [f] == [f]; } else { PathJoin(graph, parents, [f]); }
      DistinctFits(parents + [f], calls.Keys);
    }

    /** calc_all_wcs, over the functions in any order: every result is right. */
    method CalcAll(order: seq<Fn>)
      requires Valid() && parents == [] && forall f :: f in order <==> f in calls
      modifies this`wcs, this`unresolved, this`parents
      ensures Valid() && wcs.Keys == calls.Keys
      ensures forall f | f in calls :: wcs[f] == Unbounded <==> NoBound(graph, f)
      ensures forall f | f in calls && wcs[f].Bounded? :: Maximum(graph, f, wcs[f].bytes)
      ensures forall f, x | f in calls && wcs[f].Bounded? :: x in unresolved[f] <==> Inherits(graph, f, x)
    {
      hide Right, NoBound, Maximum, Inherits, Known;
      for i := 0 to |order|
        invariant Valid() && parents == [] && forall k | 0 <= k < i :: order[k] in wcs
      {
        assert order[i] in order;
        Calc(order[i]);
      }
      forall f | f in calls
        ensures f in wcs && (wcs[f] == Unbounded <==> NoBound(graph, f)) && f in unresolved
        ensures wcs[f].Bounded? ==>
          Maximum(graph, f, wcs[f].bytes) && forall x :: x in unresolved[f] <==> Inherits(graph, f, x)
      {
        assert f in order;
        var k :| 0 <= k < |order| && order[k] == f;
        KnownOf(graph, wcs, unresolved, parents, f);
      }
      assert wcs.Keys <= calls.Keys by {
        forall f | f in wcs ensures f in calls { KnownOf(graph, wcs, unresolved, parents, f); }
      }
    }
  }
}
