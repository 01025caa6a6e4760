/** What the regions of the memory-pool calls (mempool.c) do, on values, and what all runs of them keep. */
module MemPoolSpec {
  import opened Basics
  import opened WaitQueue
  import opened NodeChain

  /** `free` is the free list, `taken` the blocks in use; waiting threads are served last come, first served. */
  datatype Blocks = Blocks(free: seq<Node>, taken: set<Node>, wait: Waiters)

  datatype Outcome = Done | Block(node: Node) | Refused | Blocked

  function Push(w: Waiters, who: Tid, wait: Wait): Waiters {
    Waiters([who] + w.queue, if wait == Timed then w.armed + {who} else w.armed - {who}, w.woken - {who})
  }

  /** A region of rt_mp_alloc, first or repeated. */
  function Alloc(b: Blocks, who: Option<Tid>, wait: Wait): (Blocks, Outcome)
    requires wait != NoWait ==> who.Some?
  {
    var w := Entered(b.wait, who);
    if b.free == [] then
      if wait == NoWait then (b.(wait := w), Refused) else (b.(wait := Push(w, who.value, wait)), Blocked)
    else (Blocks(b.free[1..], b.taken + {b.free[0]}, w), Block(b.free[0]))
  }

  /** rt_mp_free. */
  function Free(b: Blocks, n: Node): Blocks {
    Blocks([n] + b.free, b.taken - {n}, WakeFirst(b.wait))
  }

  /** Each of `total` blocks is either on the free list, once, or in use. */
  ghost predicate Partition(b: Blocks, total: nat) {
    multiset(b.free) + multiset(b.taken) == multiset(Pool(total))
  }

  ghost predicate Kept(b: Blocks, total: nat) {
    Partition(b, total) && Sound(b.wait) && NoneLost(b.wait, |b.free|)
  }

  lemma NotTaken(b: Blocks, total: nat, n: Node)
    requires Partition(b, total)
    ensures n in b.free ==> n !in b.taken
    ensures n in b.free || n in b.taken <==> n < total
  {
    var all := multiset(b.free) + multiset(b.taken);
    assert all[n] == multiset(Pool(total))[n] <= 1;
    assert n in b.free ==> multiset(b.free)[n] >= 1;
  }

  lemma PushSound(w: Waiters, who: Tid, wait: Wait)
    requires Sound(w) && who !in w.queue
    ensures Sound(Push(w, who, wait)) && NoneLost(Push(w, who, wait), 0)
  {
    var r := Push(w, who, wait).queue;
    assert forall i | 0 < i < |r| :: r[i] == w.queue[i - 1] && r[i] in w.queue;
    assert r[0] == who;
  }

  lemma AllocKeeps(b: Blocks, total: nat, who: Option<Tid>, wait: Wait)
    requires Kept(b, total) && (wait != NoWait ==> who.Some?) && (who.Some? ==> who.value !in b.wait.queue)
    ensures Kept(Alloc(b, who, wait).0, total)
    ensures Alloc(b, who, wait).1.Block? ==> Alloc(b, who, wait).1.node !in b.taken
  {
    hide Sound, NoneLost, Push, Entered;
    EnteredSound(b.wait, who, |b.free|);
    if who.Some? { PushSound(Entered(b.wait, who), who.value, wait); }
    if b.free != [] {
      NotTaken(b, total, b.free[0]);
      assert b.free == [b.free[0]] + b.free[1..];
    }
  }

  lemma FreeKeeps(b: Blocks, total: nat, n: Node)
    requires Kept(b, total) && n in b.taken
    ensures Kept(Free(b, n), total)
  {
    hide Sound, NoneLost, WakeFirst;
    WakeSound(b.wait, |b.free|);
  }

  /** An allocation takes a free block exactly when there is one; else it is refused, or the caller queues in front. */
  lemma AllocExactly(b: Blocks, total: nat, who: Option<Tid>, wait: Wait)
    requires Kept(b, total) && (wait != NoWait ==> who.Some?) && (who.Some? ==> who.value !in b.wait.queue)
    ensures var (b', o) := Alloc(b, who, wait);
            && (o.Block? <==> b.free != []) && (o == Refused <==> b.free == [] && wait == NoWait)
            && (o == Blocked <==> b.free == [] && wait != NoWait)
            && (o.Block? ==>
                  b.free == [o.node] + b'.free && o.node !in b.taken && b'.taken == b.taken + {o.node} && b'.wait.queue == b.wait.queue)
            && (!o.Block? ==> b'.free == [] && b'.taken == b.taken)
            && (o == Refused ==> b'.wait.queue == b.wait.queue)
            && (o == Blocked ==>
                  b'.wait.queue == [who.value] + b.wait.queue && (who.value in b'.wait.armed <==> wait == Timed)
                  && who.value !in b'.wait.woken)
  {
    if b.free != [] { NotTaken(b, total, b.free[0]); }
  }

  /** A block given back is free and in use no more, and the first thread that waits is resumed. */
  lemma FreeExactly(b: Blocks, total: nat, n: Node)
    requires Kept(b, total) && n in b.taken
    ensures var b' := Free(b, n);
            && b'.free == [n] + b.free && n !in b'.taken && b'.taken + {n} == b.taken && FirstResumed(b.wait, b'.wait)
  {
    hide FirstResumed, WakeFirst;
    Resumed(b.wait);
  }

  // ---- Runs --------------------------------------------------------------------------------

  datatype Action = AllocAct(who: Option<Tid>, wait: Wait) | FreeAct(node: Node) | Expires(t: Tid)

  predicate Enabled(b: Blocks, a: Action) {
    match a
    case AllocAct(who, wait) => (wait != NoWait ==> who.Some?) && (who.Some? ==> who.value !in b.wait.queue)
    case FreeAct(n) => n in b.taken
    case Expires(t) => t in b.wait.armed
  }

  function Apply(b: Blocks, a: Action): Blocks
    requires Enabled(b, a)
  {
    match a
    case AllocAct(who, wait) => Alloc(b, who, wait).0
    case FreeAct(n) => Free(b, n)
    case Expires(t) => b.(wait := Expire(b.wait, t))
  }

  ghost predicate Run(bs: seq<Blocks>, acts: seq<Action>) {
    && |bs| == |acts| + 1
    && forall k | 0 <= k < |acts| :: Enabled(bs[k], acts[k]) && bs[k + 1] == Apply(bs[k], acts[k])
  }

  /** In every state of every run no block is lost or handed out twice, and no wake-up is lost. */
  lemma {:induction false} RunKeeps(bs: seq<Blocks>, acts: seq<Action>, total: nat)
    requires Run(bs, acts) && Kept(bs[0], total)
    ensures Kept(bs[|acts|], total)
    ensures bs[|acts|].wait.queue != [] ==> |bs[|acts|].free| <= |bs[|acts|].wait.woken|
    ensures |bs[|acts|].free| + |bs[|acts|].taken| == total
  {
    hide Partition, Sound;
    if acts != [] {
      var n := |acts| - 1;
      RunKeeps(bs[..n + 1], acts[..n], total);
      match acts[n]
      case AllocAct(who, wait) => AllocKeeps(bs[n], total, who, wait);
      case FreeAct(node) => FreeKeeps(bs[n], total, node);
      case Expires(t) => ExpireSound(bs[n].wait, t, |bs[n].free|); SameBlocks(bs[n], bs[n + 1], total);
    }
    CountsAddUp(bs[|acts|], total);
  }

  lemma SameBlocks(b: Blocks, c: Blocks, total: nat)
    requires Partition(b, total) && c == b.(wait := c.wait)
    ensures Partition(c, total)
  {
  }

  lemma CountsAddUp(b: Blocks, total: nat)
    requires Partition(b, total)
    ensures |b.free| + |b.taken| == total
  {
    PoolSize(total);
    assert |multiset(b.free) + multiset(b.taken)| == |b.free| + |multiset(b.taken)|;
    SetSize(b.taken);
  }

  lemma {:induction false} SetSize(s: set<Node>)
    ensures |multiset(s)| == |s|
  {
    if s != {} {
      var x :| x in s;
      SetSize(s - {x});
      assert multiset(s) == multiset(s - {x}) + multiset{x};
    }
  }

  // ---- How a wait ends ---------------------------------------------------------------------

  function CauseOf(a: Action): Cause {
    match a
    case FreeAct(_) => Resumes
    case Expires(t) => Expiry(t)
    case _ => Other
  }

  predicate AllocOf(a: Action, t: Tid) {
    a.AllocAct? && a.who == Some(t)
  }

  lemma StepExplained(b: Blocks, total: nat, a: Action, t: Tid)
    requires Kept(b, total) && Enabled(b, a) && !AllocOf(a, t)
    ensures Explained(b.wait, Apply(b, a).wait, CauseOf(a), t)
  {
    hide Partition, Explained, WakeFirst, Expire, NoneLost, Sound, Push;
    ChangesExplained(b.wait, t);
    match a
    case AllocAct(who, wait) => if b.free == [] && wait != NoWait { PushExplained(b.wait, who.value, wait, t); }
    case Expires(u) => ArmedQueued(b.wait, u);
    case _ =>
  }

  lemma PushExplained(w: Waiters, who: Tid, wait: Wait, t: Tid)
    requires Sound(w) && who != t
    ensures Explained(w, Push(Enter(w, who), who, wait), Other, t)
  {
  }

  /** An allocation that blocks is a wait that ends once, before the thread enters the call's loop again: by a block given
      back, or its own time-out. */
  lemma WaitEndsOnce(bs: seq<Blocks>, acts: seq<Action>, total: nat, t: Tid, ws: seq<Waiters>, cs: seq<Cause>)
    requires Run(bs, acts) && Kept(bs[0], total) && acts != []
    requires AllocOf(acts[0], t) && Alloc(bs[0], acts[0].who, acts[0].wait).1 == Blocked
    requires forall k | 1 <= k < |acts| :: !AllocOf(acts[k], t)
    requires |ws| == |acts| && forall k | 0 <= k < |ws| :: ws[k] == bs[k + 1].wait
    requires |cs| == |acts| - 1 && forall k | 0 <= k < |cs| :: cs[k] == CauseOf(acts[k + 1])
    ensures EndedOnce(ws, cs, t)
  {
    hide Kept, Explained, CauseOf;
    assert t in ws[0].queue;
    forall k | 0 <= k < |cs| ensures Explained(ws[k], ws[k + 1], cs[k], t) {
      RunKeeps(bs[..k + 2], acts[..k + 1], total);
      StepExplained(bs[k + 1], total, acts[k + 1], t);
    }
    WaitQueue.WaitEndsOnce(ws, cs, t);
  }
}
