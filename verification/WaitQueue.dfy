/**
  The list of threads suspended on an IPC object, and what happens to a thread on its way through it.

  A thread of the model is running, or queued (suspended on the list), or woken: resumed by another
  thread, its error number RT_EOK, but not yet back in the region it was suspended in.
*/
module WaitQueue {
  import opened Basics

  type Tid = nat

  datatype Flag = Fifo | Prio

  /** A call's `time` argument: 0 returns at once, a positive one starts the thread's timer. */
  datatype Wait = NoWait | Timed | Forever

  // ---- The list ----------------------------------------------------------------------------

  /** The first position whose thread is less urgent than `t`; a smaller number is more urgent. */
  function Position(q: seq<Tid>, t: Tid, prio: Tid -> nat): (i: nat)
    ensures i <= |q|
    ensures forall j | 0 <= j < i :: prio(q[j]) <= prio(t)
    ensures i < |q| ==> prio(t) < prio(q[i])
  {
    if q == [] || prio(t) < prio(q[0]) then 0
    else
      var i := Position(q[1..], t, prio);
      assert forall j | 0 < j < i + 1 :: q[j] == q[1..][j - 1];
      i + 1
  }

  function Insert(q: seq<Tid>, t: Tid, flag: Flag, prio: Tid -> nat): (r: seq<Tid>)
    ensures |r| == |q| + 1
  {
    match flag
    case Fifo => q + [t]
    case Prio =>
      var i := Position(q, t, prio);
      q[..i] + [t] + q[i..]
  }

  function Without(q: seq<Tid>, t: Tid): (r: seq<Tid>)
    ensures forall x :: x in r <==> x in q && x != t
    ensures |r| <= |q|
  {
    if q == [] then []
    else if q[0] == t then Without(q[1..], t)
    else [q[0]] + Without(q[1..], t)
  }

  function Members(q: seq<Tid>): set<Tid> {
    set t | t in q
  }

  /** Most urgent first. */
  ghost predicate ByPriority(q: seq<Tid>, prio: Tid -> nat) {
    forall i, j | 0 <= i < j < |q| :: prio(q[i]) <= prio(q[j])
  }

  /** _ipc_list_suspend: where the thread goes on the list. */
  method Suspend(list: seq<Tid>, t: Tid, flag: Flag, prio: Tid -> nat) returns (r: seq<Tid>)
    ensures r == Insert(list, t, flag, prio)
  {
    match flag {
      case Fifo =>
        r := list + [t];
      case Prio =>
        var n := 0;
        while n < |list|
          invariant n <= |list|
          invariant forall j | 0 <= j < n :: prio(list[j]) <= prio(t)
        {
          if prio(t) < prio(list[n]) {
            PositionIs(list, t, prio, n);
            return list[..n] + [t] + list[n..];
          }
          n := n + 1;
        }
        PositionIs(list, t, prio, n);
        r := list + [t];
        assert list[n..] == [];
    }
  }

  lemma PositionIs(q: seq<Tid>, t: Tid, prio: Tid -> nat, n: nat)
    requires n <= |q| && (forall j | 0 <= j < n :: prio(q[j]) <= prio(t))
    requires n < |q| ==> prio(t) < prio(q[n])
    ensures Position(q, t, prio) == n
  {
  }

  lemma InsertDistinct(q: seq<Tid>, t: Tid, flag: Flag, prio: Tid -> nat)
    requires Distinct(q) && t !in q
    ensures var r := Insert(q, t, flag, prio);
            Distinct(r) && forall x :: x in r <==> x in q || x == t
  {
    var r := Insert(q, t, flag, prio);
    var i := if flag == Fifo then |q| else Position(q, t, prio);
    assert forall x | 0 <= x < |r| :: r[x] == if x < i then q[x] else if x == i then t else q[x - 1];
    forall x ensures x in r <==> x in q || x == t {
      if x in q {
        var k :| 0 <= k < |q| && q[k] == x;
        assert r[if k < i then k else k + 1] == x;
      }
      if x == t { assert r[i] == t; }
    }
  }

  /** In priority order the queue stays sorted, and a thread goes behind all of its own priority. */
  lemma InsertSorted(q: seq<Tid>, t: Tid, prio: Tid -> nat)
    requires ByPriority(q, prio)
    ensures var r := Insert(q, t, Prio, prio); var i := Position(q, t, prio);
            && ByPriority(r, prio)
            && r[i] == t && r[..i] == q[..i] && r[i + 1..] == q[i..]
            && forall j | 0 <= j < |q| :: j < i <==> prio(q[j]) <= prio(t)
  {
    var i := Position(q, t, prio);
    var r := Insert(q, t, Prio, prio);
    assert forall x | 0 <= x < |r| :: r[x] == if x < i then q[x] else if x == i then t else q[x - 1];
  }

  lemma PushDistinct(q: seq<Tid>, t: Tid)
    requires Distinct(q) && t !in q
    ensures Distinct([t] + q) && forall x :: x in [t] + q <==> x == t || x in q
  {
    var r := [t] + q;
    assert forall i | 0 < i < |r| :: r[i] == q[i - 1] && r[i] in q;
    assert r[0] == t;
  }

  lemma AppendDistinct(q: seq<Tid>, t: Tid)
    requires Distinct(q) && t !in q
    ensures Distinct(q + [t]) && forall x :: x in q + [t] <==> x in q || x == t
  {
    var r := q + [t];
    assert forall i | 0 <= i < |q| :: r[i] == q[i] && r[i] in q;
    assert r[|q|] == t;
  }

  lemma PopDistinct(q: seq<Tid>)
    requires Distinct(q) && q != []
    ensures Distinct(q[1..]) && forall x :: x in q[1..] <==> x in q && x != q[0]
  {
  }

  lemma {:induction false} WithoutDistinct(q: seq<Tid>, t: Tid)
    requires Distinct(q)
    ensures Distinct(Without(q, t))
  {
    if q != [] {
      WithoutDistinct(q[1..], t);
      var w := Without(q[1..], t);
      if q[0] != t {
        forall i, j | 0 <= i < j < |w| + 1 ensures ([q[0]] + w)[i] != ([q[0]] + w)[j] {
          assert w[j - 1] in w;
          assert forall x | x in q[1..] :: x != q[0];
        }
      }
    }
  }

  lemma {:induction false} WithoutAt(q: seq<Tid>, k: nat)
    requires Distinct(q) && k < |q|
    ensures Without(q, q[k]) == q[..k] + q[k + 1..]
  {
    if k == 0 {
      WithoutNone(q[1..], q[0]);
      assert q[1..] == q[..0] + q[1..];
    } else {
      WithoutAt(q[1..], k - 1);
      assert q[..k] + q[k + 1..] == [q[0]] + (q[1..][..k - 1] + q[1..][k..]);
    }
  }

  lemma {:induction false} WithoutNone(q: seq<Tid>, t: Tid)
    requires t !in q
    ensures Without(q, t) == q
  {
    if q != [] { WithoutNone(q[1..], t); }
  }

  lemma {:induction false} WithoutSorted(q: seq<Tid>, t: Tid, prio: Tid -> nat)
    requires ByPriority(q, prio)
    ensures ByPriority(Without(q, t), prio)
  {
    if q != [] {
      WithoutSorted(q[1..], t, prio);
      var w := Without(q[1..], t);
      if q[0] != t {
        forall i, j | 0 <= i < j < |w| + 1 ensures prio(([q[0]] + w)[i]) <= prio(([q[0]] + w)[j]) {
          assert w[j - 1] in w;
          assert forall x | x in q[1..] :: prio(q[0]) <= prio(x);
        }
      }
    }
  }

  // ---- Waiting threads ---------------------------------------------------------------------

  /** `queue` is the suspend list, `armed` holds the queued threads whose timer runs. */
  datatype Waiters = Waiters(queue: seq<Tid>, armed: set<Tid>, woken: set<Tid>)

  const NOBODY := Waiters([], {}, {})

  /** What every region keeps: a thread is queued once, is not both queued and woken, and its timer
      runs only while it is queued. */
  ghost predicate Sound(w: Waiters) {
    && Distinct(w.queue)
    && (forall t | t in w.armed :: t in w.queue)
    && (forall t | t in w.woken :: t !in w.queue)
  }

  /** No lost wake-up: if threads queue for items, each item there already has a thread on its way. */
  ghost predicate NoneLost(w: Waiters, items: int) {
    w.queue != [] ==> items <= |w.woken|
  }

  /** The thread enters the region (again), so it is no longer on its way. */
  function Enter(w: Waiters, who: Tid): Waiters {
    w.(woken := w.woken - {who})
  }

  function Entered(w: Waiters, who: Option<Tid>): Waiters {
    if who.Some? then Enter(w, who.value) else w
  }

  function Block(w: Waiters, who: Tid, flag: Flag, wait: Wait, prio: Tid -> nat): Waiters {
    Waiters(Insert(w.queue, who, flag, prio),
            if wait == Timed then w.armed + {who} else w.armed - {who},
            w.woken - {who})
  }

  /** _ipc_list_resume of the first thread, if there is one; rt_thread_resume stops its timer. */
  function WakeFirst(w: Waiters): Waiters {
    if w.queue == [] then w
    else Waiters(w.queue[1..], w.armed - {w.queue[0]}, w.woken + {w.queue[0]})
  }

  /** _thread_timeout: the timer of `t` fires, and the wait ends with an error. */
  function Expire(w: Waiters, t: Tid): Waiters {
    Waiters(Without(w.queue, t), w.armed - {t}, w.woken)
  }

  /** _ipc_list_resume_all: every wait ends with an error. */
  function Dismiss(w: Waiters): Waiters {
    Waiters([], w.armed - Members(w.queue), w.woken)
  }

  /** _ipc_list_suspend, with the start of the thread's timer. */
  method SuspendOn(w: Waiters, who: Tid, flag: Flag, wait: Wait, prio: Tid -> nat) returns (r: Waiters)
    ensures r == Block(w, who, flag, wait, prio)
  {
    var q := Suspend(w.queue, who, flag, prio);
    r := Waiters(q, w.armed - {who}, w.woken - {who});
    if wait == Timed { r := r.(armed := r.armed + {who}); }
  }

  /** _ipc_list_resume_all. */
  method ResumeAll(w: Waiters) returns (r: Waiters)
    ensures r == Dismiss(w)
  {
    r := w;
    while r.queue != []
      invariant r.queue == w.queue[|w.queue| - |r.queue|..] && |r.queue| <= |w.queue|
      invariant r.armed == w.armed - Members(w.queue[..|w.queue| - |r.queue|]) && r.woken == w.woken
      decreases |r.queue|
    {
      var k := |w.queue| - |r.queue|;
      assert w.queue[..k + 1] == w.queue[..k] + [r.queue[0]];
      r := Waiters(r.queue[1..], r.armed - {r.queue[0]}, r.woken);
    }
    assert w.queue[..|w.queue|] == w.queue;
  }

  lemma EnterSound(w: Waiters, who: Tid)
    requires Sound(w)
    ensures Sound(Enter(w, who)) && |Enter(w, who).woken| >= |w.woken| - 1
  {
    if who in w.woken { assert w.woken == (w.woken - {who}) + {who}; }
    else { assert w.woken - {who} == w.woken; }
  }

  lemma EnteredSound(w: Waiters, who: Option<Tid>, items: int)
    requires Sound(w) && NoneLost(w, items)
    ensures Sound(Entered(w, who)) && NoneLost(Entered(w, who), items - 1)
    ensures items <= 0 ==> NoneLost(Entered(w, who), items)
    ensures Entered(w, who).queue == w.queue
  {
    hide Sound;
    if who.Some? { EnterSound(w, who.value); }
  }

  lemma EnteredNone(w: Waiters)
    ensures Entered(w, None) == w
  {
  }

  /** A thread blocks only when there is nothing for it, so no item is left behind. */
  lemma BlockSound(w: Waiters, who: Tid, flag: Flag, wait: Wait, prio: Tid -> nat)
    requires Sound(w) && who !in w.queue
    ensures Sound(Block(w, who, flag, wait, prio)) && NoneLost(Block(w, who, flag, wait, prio), 0)
  {
    InsertDistinct(w.queue, who, flag, prio);
  }

  /** One item more, and one thread more on its way, if any was queued. */
  lemma WakeSound(w: Waiters, items: int)
    requires Sound(w)
    ensures Sound(WakeFirst(w))
    ensures NoneLost(w, items) ==> NoneLost(WakeFirst(w), items + 1)
    ensures w.queue != [] ==> w.queue[0] !in w.woken && |WakeFirst(w).woken| == |w.woken| + 1
  {
    if w.queue != [] {
      assert forall t | t in w.queue && t != w.queue[0] :: t in w.queue[1..];
      assert forall t | t in w.queue[1..] :: t in w.queue && t != w.queue[0];
    }
  }

  lemma ExpireSound(w: Waiters, t: Tid, items: int)
    requires Sound(w) && NoneLost(w, items)
    ensures Sound(Expire(w, t)) && NoneLost(Expire(w, t), items)
  {
    WithoutDistinct(w.queue, t);
  }

  lemma DismissSound(w: Waiters, items: int)
    requires Sound(w)
    ensures Sound(Dismiss(w)) && NoneLost(Dismiss(w), items) && Dismiss(w).armed == {}
  {
  }

  // ---- What each change does -------------------------------------------------------------------

  /** A thread that blocks is queued behind those that go before it, and its timer runs exactly for a timed wait. */
  lemma BlockMeaning(w: Waiters, who: Tid, flag: Flag, wait: Wait, prio: Tid -> nat)
    requires Sound(w) && who !in w.queue
    ensures var b := Block(w, who, flag, wait, prio);
            && (forall t :: t in b.queue <==> t in w.queue || t == who) && Without(b.queue, who) == w.queue
            && (flag == Fifo ==> b.queue == w.queue + [who])
            && (who in b.armed <==> wait == Timed) && (forall t | t != who :: t in b.armed <==> t in w.armed)
            && (forall t :: t in b.woken <==> t in w.woken && t != who)
  {
    InsertDistinct(w.queue, who, flag, prio);
    var i := if flag == Fifo then |w.queue| else Position(w.queue, who, prio);
    var r := Insert(w.queue, who, flag, prio);
    assert r[i] == who && r[..i] == w.queue[..i] && r[i + 1..] == w.queue[i..];
    WithoutAt(r, i);
    assert w.queue == w.queue[..i] + w.queue[i..];
  }

  /** A wake-up is for the first thread, whose timer stops, and for no other. */
  lemma WakeMeaning(w: Waiters)
    requires Sound(w)
    ensures w.queue == [] ==> WakeFirst(w) == w
    ensures w.queue != [] ==>
              var v := WakeFirst(w); var t := w.queue[0];
              && w.queue == [t] + v.queue && t !in v.armed && (forall u | u != t :: u in v.armed <==> u in w.armed)
              && (forall u :: u in v.woken <==> u in w.woken || u == t)
  {
  }

  /** After a time-out the thread is nowhere; the others stay in their order. */
  lemma ExpireMeaning(w: Waiters, t: Tid)
    requires Sound(w) && t in w.armed
    ensures var v := Expire(w, t);
            && t !in v.queue && t !in v.armed && t !in v.woken && v.woken == w.woken
            && (forall u | u != t :: (u in v.queue <==> u in w.queue) && (u in v.armed <==> u in w.armed))
            && exists i :: 0 <= i < |w.queue| && w.queue[i] == t && v.queue == w.queue[..i] + w.queue[i + 1..]
  {
    var i :| 0 <= i < |w.queue| && w.queue[i] == t;
    WithoutAt(w.queue, i);
  }

  /** After a reset nobody waits, no timer runs, and those resumed before are still on their way. */
  lemma DismissMeaning(w: Waiters)
    requires Sound(w)
    ensures Dismiss(w).queue == [] && Dismiss(w).armed == {} && Dismiss(w).woken == w.woken
  {
  }

  /** The thread queues after the call, with its timer running exactly for a timed wait; the others stay. */
  ghost predicate NowWaits(w: Waiters, w': Waiters, who: Tid, wait: Wait) {
    who in w'.queue && Without(w'.queue, who) == w.queue && (who in w'.armed <==> wait == Timed) && who !in w'.woken
  }

  lemma Waits(w: Waiters, who: Tid, flag: Flag, wait: Wait, prio: Tid -> nat)
    requires Sound(w) && who !in w.queue
    ensures NowWaits(w, Block(w, who, flag, wait, prio), who, wait)
    ensures NowWaits(w, Block(Enter(w, who), who, flag, wait, prio), who, wait)
  {
    hide Block;
    BlockMeaning(w, who, flag, wait, prio);
    EnterSound(w, who);
    BlockMeaning(Enter(w, who), who, flag, wait, prio);
  }

  /** The first thread, if any, leaves the queue and is on its way; nobody else does. */
  ghost predicate FirstResumed(w: Waiters, w': Waiters) {
    && (w.queue == [] ==> w' == w)
    && (w.queue != [] ==> w.queue == [w.queue[0]] + w'.queue && w'.woken == w.woken + {w.queue[0]} && w.queue[0] !in w'.armed)
  }

  lemma Resumed(w: Waiters)
    requires Sound(w)
    ensures FirstResumed(w, WakeFirst(w))
  {
    WakeMeaning(w);
  }

  // ---- How a wait ends -------------------------------------------------------------------------

  /** What a step does for the threads of one queue. */
  datatype Cause = Other | Resumes | Expiry(t: Tid) | Dismisses

  /** The step ends the wait of `t`: it is resumed as the first of the queue, or its timer fires, or all are dismissed. */
  predicate Ends(w: Waiters, c: Cause, t: Tid) {
    match c
    case Other => false
    case Resumes => w.queue != [] && w.queue[0] == t
    case Expiry(u) => u == t
    case Dismisses => true
  }

  /** A step that is no call of `t` takes it off the queue exactly when it ends its wait, and does not put it there.
      The thread finds itself resumed exactly when the step was a release. */
  ghost predicate Explained(w: Waiters, w': Waiters, c: Cause, t: Tid) {
    && (t !in w.queue ==> t !in w'.queue)
    && (t in w.queue ==> (t !in w'.queue <==> Ends(w, c, t)) && (t in w'.woken <==> c.Resumes? && Ends(w, c, t)))
  }

  /** A thread that queues at first is still queued, and no step has ended its wait; or one step has, at which it left
      the queue for good. */
  ghost predicate EndedOnce(ws: seq<Waiters>, cs: seq<Cause>, t: Tid)
    requires |ws| == |cs| + 1
  {
    || ((forall k | 0 <= k < |ws| :: t in ws[k].queue) && (forall k | 0 <= k < |cs| :: !Ends(ws[k], cs[k], t)))
    || exists k :: EndedAt(ws, cs, t, k)
  }

  ghost predicate EndedAt(ws: seq<Waiters>, cs: seq<Cause>, t: Tid, k: int)
    requires |ws| == |cs| + 1
  {
    && 0 <= k < |cs| && Ends(ws[k], cs[k], t)
    && (forall j | 0 <= j < k :: !Ends(ws[j], cs[j], t))
    && (forall j | 0 <= j <= k :: t in ws[j].queue) && (forall j | k < j < |ws| :: t !in ws[j].queue)
    && (t in ws[k + 1].woken <==> cs[k].Resumes?)
  }

  lemma {:induction false} WaitEndsOnce(ws: seq<Waiters>, cs: seq<Cause>, t: Tid)
    requires |ws| == |cs| + 1 && t in ws[0].queue
    requires forall k | 0 <= k < |cs| :: Explained(ws[k], ws[k + 1], cs[k], t)
    ensures EndedOnce(ws, cs, t)
  {
    hide Ends;
    if cs != [] {
      var n := |cs| - 1;
      var vs, ds := ws[..n + 1], cs[..n];
      WaitEndsOnce(vs, ds, t);
      assert Explained(ws[n], ws[n + 1], cs[n], t);
      if exists k :: EndedAt(vs, ds, t, k) {
        var k :| EndedAt(vs, ds, t, k);
        assert forall j | k < j < |vs| :: ws[j] == vs[j];
        assert EndedAt(ws, cs, t, k);
      } else {
        assert forall k | 0 <= k < |vs| :: ws[k] == vs[k];
        if Ends(ws[n], cs[n], t) { assert EndedAt(ws, cs, t, n); }
      }
    }
  }

  /** The changes of a queue, as causes. */
  lemma ChangesExplained(w: Waiters, t: Tid)
    requires Sound(w)
    ensures Explained(w, w, Other, t) && Explained(w, WakeFirst(w), Resumes, t) && Explained(w, Dismiss(w), Dismisses, t)
    ensures forall u | u in w.queue :: Explained(w, Expire(w, u), Expiry(u), t)
    ensures forall who | who != Some(t) :: Explained(w, Entered(w, who), Other, t)
  {
    WakeSound(w, 0);
    if w.queue != [] {
      PopDistinct(w.queue);
      assert w.queue[0] in w.queue;
    }
  }

  lemma ArmedQueued(w: Waiters, u: Tid)
    requires Sound(w) && u in w.armed
    ensures u in w.queue
  {
  }

  lemma BlockExplained(w: Waiters, who: Tid, flag: Flag, wait: Wait, prio: Tid -> nat, t: Tid)
    requires Sound(w) && who != t && who !in w.queue
    ensures Explained(w, Block(Enter(w, who), who, flag, wait, prio), Other, t)
    ensures Explained(w, Block(w, who, flag, wait, prio), Other, t)
  {
    InsertDistinct(w.queue, who, flag, prio);
  }
}
