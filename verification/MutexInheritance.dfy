/**
  Priority inheritance with any number of mutexes (ipc.c): which calls keep every owner at least as urgent as
  those who wait for it, and runs in which it is lost.
*/
module MutexInheritance {
  import opened Basics
  import opened WaitQueue
  import opened MutexSpec
  import opened MutexSystem

  /** The owner is at least as urgent as everybody waiting. */
  ghost predicate Lent(m: Mx, prio: Tid -> nat) {
    m.owner.Some? ==> forall w | w in m.wait.queue :: prio(m.owner.value) <= prio(w)
  }

  ghost predicate Inherited(s: Sys) {
    forall k | 0 <= k < |s.ms| :: Lent(s.ms[k], s.prio)
  }

  /** The caller waits for the mutex, and its owner comes to be more urgent by that. */
  predicate Raises(s: Sys, a: Act)
    requires Possible(s, a)
  {
    var m := s.ms[a.mutex];
    && a.action.TakeAct? && a.action.wait != NoWait && m.owner.Some? && m.owner != Some(a.action.who)
    && s.prio(a.action.who) < s.prio(m.owner.value)
  }

  /** An owner that is raised waits itself for no mutex of a less urgent owner. An owner that gives up a mutex
      goes back to a priority that serves the mutexes it keeps, and its heir is the most urgent waiting thread. */
  ghost predicate Harmless(s: Sys, a: Act)
    requires Possible(s, a)
  {
    var m := s.ms[a.mutex];
    && (Raises(s, a) ==>
          forall j | 0 <= j < |s.ms| && m.owner.value in s.ms[j].wait.queue && s.ms[j].owner.Some? ::
            s.prio(s.ms[j].owner.value) <= s.prio(a.action.who))
    && (GivesUp(s, a) ==>
          && (forall j, w | 0 <= j < |s.ms| && j != a.mutex && s.ms[j].owner == m.owner && w in s.ms[j].wait.queue ::
                m.original <= s.prio(w))
          && (forall w | w in m.wait.queue :: s.prio(m.wait.queue[0]) <= s.prio(w)))
  }

  /** A call keeps inheritance if and only if it is harmless. */
  lemma InheritanceKept(s: Sys, a: Act)
    requires Possible(s, a) && AllKept(s) && Inherited(s)
    ensures Inherited(Next(s, a)) <==> Harmless(s, a)
  {
    hide Sound, Inherited, Apply;
    assert Lent(s.ms[a.mutex], s.prio) by { LentAt(s, a.mutex); }
    if Raises(s, a) { RaiseKeeps(s, a); }
    else if GivesUp(s, a) { GiveUpKeeps(s, a); }
    else { OtherKeeps(s, a); }
  }

  lemma LentAt(s: Sys, j: nat)
    requires Inherited(s) && j < |s.ms|
    ensures Lent(s.ms[j], s.prio)
  {
  }

  lemma RaiseKeeps(s: Sys, a: Act)
    requires Possible(s, a) && AllKept(s) && Inherited(s) && Raises(s, a)
    ensures Inherited(Next(s, a)) <==> Harmless(s, a)
  {
    hide Sound, Insert;
    var s', k := Next(s, a), a.mutex;
    var m := s.ms[k];
    var o, who := m.owner.value, a.action.who;
    assert MutexSpec.Kept(m);
    BlockMembers(m.wait, who, a.action.wait, s'.prio);
    assert forall t: Tid :: s'.prio(t) == if t == o then s.prio(who) else s.prio(t);
    assert Lent(s'.ms[k], s'.prio);
    forall j | 0 <= j < |s.ms| && j != k
      ensures Lent(s'.ms[j], s'.prio) <==>
                (o in s.ms[j].wait.queue && s.ms[j].owner.Some? ==> s.prio(s.ms[j].owner.value) <= s.prio(who))
    {
      assert s'.ms[j] == s.ms[j] && MutexSpec.Kept(s.ms[j]) && Lent(s.ms[j], s.prio);
    }
  }

  lemma GiveUpKeeps(s: Sys, a: Act)
    requires Possible(s, a) && AllKept(s) && Inherited(s) && GivesUp(s, a)
    ensures Inherited(Next(s, a)) <==> Harmless(s, a)
  {
    hide Sound;
    var s', k := Next(s, a), a.mutex;
    var m, who := s.ms[k], a.action.who;
    assert MutexSpec.Kept(m);
    assert forall t: Tid :: s'.prio(t) == if t == who then m.original else s.prio(t);
    forall j | 0 <= j < |s.ms| && j != k
      ensures Lent(s'.ms[j], s'.prio) <==>
                (s.ms[j].owner == Some(who) ==> forall w | w in s.ms[j].wait.queue :: m.original <= s.prio(w))
    {
      assert s'.ms[j] == s.ms[j] && Lent(s.ms[j], s.prio);
    }
    if m.wait.queue != [] {
      HeirLeaves(m.wait);
      assert forall w | w in m.wait.queue :: w == m.wait.queue[0] || w in m.wait.queue[1..];
      assert Lent(s'.ms[k], s'.prio) <==> forall w | w in m.wait.queue :: s.prio(m.wait.queue[0]) <= s.prio(w);
    }
  }

  lemma OtherKeeps(s: Sys, a: Act)
    requires Possible(s, a) && AllKept(s) && Inherited(s) && !Raises(s, a) && !GivesUp(s, a)
    ensures Inherited(Next(s, a))
  {
    hide Sound, Insert;
    var s', k := Next(s, a), a.mutex;
    var m := s.ms[k];
    assert MutexSpec.Kept(m) && Lent(m, s.prio);
    assert forall t: Tid :: s'.prio(t) == s.prio(t);
    if a.action.TakeAct? { BlockMembers(m.wait, a.action.who, a.action.wait, s.prio); }
    forall j | 0 <= j < |s.ms| ensures Lent(s'.ms[j], s'.prio) {
      assert j != k ==> s'.ms[j] == s.ms[j] && Lent(s.ms[j], s.prio);
    }
  }

  /** In a run, inheritance always works if and only if all calls are harmless. */
  lemma InheritanceInRuns(ss: seq<Sys>, acts: seq<Act>)
    requires MutexSystem.Run(ss, acts) && AllKept(ss[0]) && Owners(ss[0]) && Inherited(ss[0])
    ensures (forall k | 0 <= k < |ss| :: Inherited(ss[k])) <==> forall k | 0 <= k < |acts| :: Harmless(ss[k], acts[k])
  {
    hide Next, Possible, Owners, MutexSpec.Kept, Harmless, Inherited;
    if forall k | 0 <= k < |ss| :: Inherited(ss[k]) {
      forall k | 0 <= k < |acts| ensures Harmless(ss[k], acts[k]) {
        OwnersInRuns(ss, acts, k);
        InheritanceKept(ss[k], acts[k]);
        assert Inherited(ss[k + 1]);
      }
    }
    if forall k | 0 <= k < |acts| :: Harmless(ss[k], acts[k]) {
      forall k | 0 <= k < |ss| ensures Inherited(ss[k]) { StaysInherited(ss, acts, k); }
    }
  }

  lemma {:induction false} StaysInherited(ss: seq<Sys>, acts: seq<Act>, k: nat)
    requires MutexSystem.Run(ss, acts) && AllKept(ss[0]) && Owners(ss[0]) && Inherited(ss[0]) && k < |ss|
    requires forall j | 0 <= j < |acts| :: Harmless(ss[j], acts[j])
    ensures Inherited(ss[k])
  {
    hide Next, Possible, Owners, MutexSpec.Kept, Harmless, Inherited;
    if k > 0 {
      StaysInherited(ss, acts, k - 1);
      OwnersInRuns(ss, acts, k - 1);
      InheritanceKept(ss[k - 1], acts[k - 1]);
    }
  }

  // ---- One mutex at a time ---------------------------------------------------------------------

  /** A thread asks for a mutex only while it holds no other. */
  predicate OneAtATime(s: Sys, a: Act) {
    a.action.TakeAct? ==> s.held(a.action.who) == [] || s.held(a.action.who) == [a.mutex]
  }

  /** Threads that wait hold nothing and wait for one mutex only; a mutex was got at its owner's base priority;
      and the queues are in order of the base priorities. */
  ghost predicate Plain(s: Sys, base: Tid -> nat) {
    && AllKept(s) && Owners(s) && NoneBorrowed(s, base)
    && (forall t: Tid :: |s.held(t)| <= 1)
    && (forall j | 0 <= j < |s.ms| :: PlainMutex(s.ms[j], s.held, base))
    && (forall i, j, t | 0 <= i < |s.ms| && 0 <= j < |s.ms| && t in s.ms[i].wait.queue && t in s.ms[j].wait.queue :: i == j)
  }

  ghost predicate PlainMutex(m: Mx, held: Tid -> seq<Id>, base: Tid -> nat) {
    && (forall t | t in m.wait.queue :: held(t) == [])
    && ByPriority(m.wait.queue, base)
    && (m.owner.Some? ==> m.original == base(m.owner.value))
  }

  /** What a call does to the queue of its mutex. */
  lemma QueueFacts(m: Mx, a: Action, prio: Tid -> nat)
    requires MutexSpec.Kept(m) && Enabled(m, a)
    ensures var (m', prio') := Apply(m, a, prio); var q := m.wait.queue;
            && (m'.owner != m.owner ==> m'.wait.queue == if m.owner.Some? && q != [] then q[1..] else q)
            && (m'.owner != m.owner && m'.owner.Some? && m.owner.Some? ==> q != [] && m'.owner.value == q[0])
            && (m'.owner != m.owner && m'.owner.Some? && m.owner.None? ==> a.TakeAct? && m'.owner.value == a.who && q == [])
            && (m'.owner == m.owner ==>
                  || m'.wait.queue == q
                  || (a.TakeAct? && m.owner.Some? && m.owner != Some(a.who) && m'.wait.queue == Insert(q, a.who, Prio, prio'))
                  || (a.Expires? && m'.wait.queue == Without(q, a.t)))
  {
    hide Sound, Insert;
  }

  lemma PlainOwner(s: Sys, a: Act, base: Tid -> nat)
    requires Possible(s, a) && Plain(s, base)
    ensures OwnerAlone(s, a)
  {
    hide Apply, Sound, Enabled;
    var m := s.ms[a.mutex];
    assert MutexSpec.Kept(m) && PlainMutex(m, s.held, base);
    if m.owner.Some? {
      var o := m.owner.value;
      assert a.mutex in s.held(o) && |s.held(o)| <= 1;
      forall j | 0 <= j < |s.ms| ensures o !in s.ms[j].wait.queue && (j != a.mutex ==> s.ms[j].owner != Some(o)) {
        assert PlainMutex(s.ms[j], s.held, base);
        assert s.ms[j].owner == Some(o) ==> j in s.held(o);
      }
    }
  }

  /** The owner waits for nothing and owns nothing else. */
  ghost predicate OwnerAlone(s: Sys, a: Act) {
    && a.mutex < |s.ms|
    && (s.ms[a.mutex].owner.Some? ==>
          forall j | 0 <= j < |s.ms| ::
            && s.ms[a.mutex].owner.value !in s.ms[j].wait.queue
            && (j != a.mutex ==> s.ms[j].owner != s.ms[a.mutex].owner))
  }

  lemma PlainHarmless(s: Sys, a: Act, base: Tid -> nat)
    requires Possible(s, a) && Plain(s, base)
    ensures Harmless(s, a) && InOrder(s, a, base) && GotAtBase(s, a, base)
  {
    hide Apply, Sound, Enabled, Owners;
    PlainOwner(s, a, base);
    var m := s.ms[a.mutex];
    assert PlainMutex(m, s.held, base);
    forall w | w in m.wait.queue ensures s.prio(w) == base(w) { assert s.held(w) == []; }
  }

  /** The queue of the mutex after the call, and whom it may newly hold. */
  lemma PlainQueue(s: Sys, a: Act, base: Tid -> nat)
    requires Possible(s, a) && Plain(s, base) && OneAtATime(s, a)
    ensures var q, q' := s.ms[a.mutex].wait.queue, Next(s, a).ms[a.mutex].wait.queue;
            && ByPriority(q', base)
            && forall t | t in q' :: t in q || (a.action.TakeAct? && t == a.action.who && s.held(t) == [])
  {
    hide Sound, Enabled, Apply, Owners, Handed, AllKept, Queued;
    var m, s' := s.ms[a.mutex], Next(s, a);
    var q, q' := m.wait.queue, s'.ms[a.mutex].wait.queue;
    assert MutexSpec.Kept(m) by { hide MutexSpec.Kept; AtMutex(s, a.mutex); }
    assert PlainMutex(m, s.held, base);
    StepFacts(m, a.action, s.prio);
    QueueFacts(m, a.action, s.prio);
    PlainOwner(s, a, base);
    if q' == q || (q != [] && q' == q[1..]) {
    } else if a.action.Expires? {
      WithoutSorted(q, a.action.t, base);
    } else {
      var who := a.action.who;
      assert s.held(who) == [] by { NotItsOwner(s, a); }
      forall t | t in q || t == who ensures s'.prio(t) == base(t) { assert s.held(t) == []; }
      SamePriorities(q, base, s'.prio);
      InsertSorted(q, who, s'.prio);
      InsertMembers(q, who, s'.prio);
      SamePriorities(q', s'.prio, base);
    }
  }

  lemma AtMutex(s: Sys, k: nat)
    requires AllKept(s) && k < |s.ms|
    ensures MutexSpec.Kept(s.ms[k])
  {
  }

  lemma NotItsOwner(s: Sys, a: Act)
    requires Possible(s, a) && Owners(s) && OneAtATime(s, a) && a.action.TakeAct?
    requires s.ms[a.mutex].owner != Some(a.action.who)
    ensures s.held(a.action.who) == []
  {
    hide Enabled, Queued;
    var ks := s.held(a.action.who);
    assert Owns(s.ms, ks, a.action.who);
    assert ks == [a.mutex] ==> a.mutex in ks;
  }

  lemma InsertMembers(q: seq<Tid>, t: Tid, prio: Tid -> nat)
    ensures forall x :: x in Insert(q, t, Prio, prio) <==> x in q || x == t
  {
    var i := Position(q, t, prio);
    assert q == q[..i] + q[i..];
  }

  /** Who owns the mutex after the call, if not the same as before. */
  lemma NewOwner(s: Sys, a: Act, base: Tid -> nat)
    requires Possible(s, a) && Plain(s, base) && OneAtATime(s, a)
    ensures var m, m' := s.ms[a.mutex], Next(s, a).ms[a.mutex];
            m'.owner != m.owner && m'.owner.Some? ==>
              && s.held(m'.owner.value) == [] && m'.original == base(m'.owner.value)
              && m'.owner.value !in m'.wait.queue
              && (m.owner.Some? ==> m'.owner.value in m.wait.queue)
              && (m.owner.None? ==> !Queued(s, m'.owner.value))
  {
    hide Sound, Enabled, Apply, Owners, Handed, AllKept, Queued;
    var m, s' := s.ms[a.mutex], Next(s, a);
    var m' := s'.ms[a.mutex];
    AtMutex(s, a.mutex);
    assert PlainMutex(m, s.held, base);
    StepFacts(m, a.action, s.prio);
    QueueFacts(m, a.action, s.prio);
    if m'.owner != m.owner && m'.owner.Some? && m.owner.None? { NotItsOwner(s, a); }
  }

  lemma PlainMutexes(s: Sys, a: Act, base: Tid -> nat, j: nat)
    requires Possible(s, a) && Plain(s, base) && OneAtATime(s, a) && j < |s.ms|
    ensures PlainMutex(Next(s, a).ms[j], Next(s, a).held, base)
  {
    hide Sound, Enabled, Apply, Owners, Handed, AllKept, ByPriority, NoneBorrowed;
    var k, s' := a.mutex, Next(s, a);
    var m, m' := s.ms[k], s'.ms[k];
    AtMutex(s, k);
    PlainQueue(s, a, base);
    NewOwner(s, a, base);
    StepFacts(m, a.action, s.prio);
    assert PlainMutex(s.ms[j], s.held, base) && PlainMutex(m, s.held, base);
    HeldByCall(s, a);
  }

  lemma HeldByCall(s: Sys, a: Act)
    requires Possible(s, a) && AllKept(s) && Owners(s)
    ensures var was, now, h := s.ms[a.mutex].owner, Next(s, a).ms[a.mutex].owner, Next(s, a).held;
            && (was == now ==> forall t: Tid :: h(t) == s.held(t))
            && (forall t: Tid | Some(t) != was && Some(t) != now :: h(t) == s.held(t))
            && (was != now && was.Some? ==> h(was.value) == Without(s.held(was.value), a.mutex))
            && (was != now && now.Some? ==> h(now.value) == s.held(now.value) + [a.mutex])
  {
    hide Apply, Enabled, Handed, Owners, AllKept, Queued;
    var was, now := s.ms[a.mutex].owner, Next(s, a).ms[a.mutex].owner;
    if was == now { SameHands(s.held, a.mutex, was); } else { HandedFacts(s, a); }
  }

  lemma PlainStep(s: Sys, a: Act, base: Tid -> nat)
    requires Possible(s, a) && Plain(s, base) && OneAtATime(s, a)
    ensures Plain(Next(s, a), base)
  {
    hide Enabled, Apply, Owners, Handed, AllKept, PlainMutex, NoneBorrowed;
    var k, s' := a.mutex, Next(s, a);
    KeptStep(s, a);
    OwnersKept(s, a);
    PlainHarmless(s, a, base);
    BaseAfterCall(s, a, base);
    PlainQueue(s, a, base);
    NewOwner(s, a, base);
    HeldByCall(s, a);
    forall j | 0 <= j < |s'.ms| ensures PlainMutex(s'.ms[j], s'.held, base) { PlainMutexes(s, a, base, j); }
    forall t: Tid ensures |s'.held(t)| <= 1 {
      assert |s.held(t)| <= 1;
    }
    forall i, j, t | 0 <= i < |s'.ms| && 0 <= j < |s'.ms| && t in s'.ms[i].wait.queue && t in s'.ms[j].wait.queue
      ensures i == j
    {
      assert i != k ==> s'.ms[i] == s.ms[i];
      assert j != k ==> s'.ms[j] == s.ms[j];
    }
  }

  /** When threads hold one mutex at a time, inheritance works in every state of every run, the queues are in order of
      priority, and threads that hold nothing are at their base priority. */
  lemma {:induction false} InheritanceOneAtATime(ss: seq<Sys>, acts: seq<Act>, base: Tid -> nat)
    requires MutexSystem.Run(ss, acts) && Fresh(ss[0], base)
    requires forall k | 0 <= k < |acts| :: OneAtATime(ss[k], acts[k])
    ensures Plain(ss[|acts|], base) && Inherited(ss[|acts|])
  {
    hide Next, Possible, Inherited, Plain, Harmless, OneAtATime;
    if acts == [] {
      FreshPlain(ss[0], base);
    } else {
      var n := |acts| - 1;
      InheritanceOneAtATime(ss[..n + 1], acts[..n], base);
      PlainStep(ss[n], acts[n], base);
      PlainHarmless(ss[n], acts[n], base);
      PlainKept(ss[n], base);
      InheritanceKept(ss[n], acts[n]);
    }
  }

  lemma PlainKept(s: Sys, base: Tid -> nat)
    requires Plain(s, base)
    ensures AllKept(s)
  {
  }

  lemma FreshPlain(s: Sys, base: Tid -> nat)
    requires Fresh(s, base)
    ensures Plain(s, base) && Inherited(s)
  {
    FreshSafe(s, base);
  }

  // ---- Runs that lose it -----------------------------------------------------------------------

  function Start(base: Tid -> nat): Sys {
    Sys([FREE, FREE], base, _ => [])
  }

  lemma TakesFree(s: Sys, k: Id, who: Tid)
    requires k < |s.ms| && s.ms[k] == FREE && !Queued(s, who)
    ensures var a := Act(k, TakeAct(who, Forever));
            && Possible(s, a)
            && var s' := Next(s, a);
               && s'.ms == s.ms[k := Mx(0, Some(who), s.prio(who), 1, NOBODY)] && s'.prio == s.prio
               && forall t: Tid :: s'.held(t) == if t == who then s.held(who) + [k] else s.held(t)
  {
    hide Queued;
  }

  lemma NotQueued(s: Sys, k: Id, t: Tid)
    requires k < |s.ms| && !Queued(s, t)
    ensures t !in s.ms[k].wait.queue
  {
  }

  lemma WaitsFor(s: Sys, k: Id, who: Tid, wait: Wait, o: Tid, saved: nat, w: Waiters, q: seq<Tid>)
    requires k < |s.ms| && s.ms[k] == Mx(0, Some(o), saved, 1, w) && !Queued(s, who) && who != o && wait != NoWait
    requires forall i | 0 <= i < |w.queue| :: w.queue[i] != o && s.prio(w.queue[i]) <= s.prio(who)
    requires q == w.queue + [who]
    ensures var a := Act(k, TakeAct(who, wait));
            && Possible(s, a)
            && var s' := Next(s, a);
               && s'.ms == s.ms[k := Mx(0, Some(o), saved, 1,
                                        Waiters(q, if wait == Timed then w.armed + {who} else w.armed - {who}, w.woken - {who}))]
               && (forall t: Tid :: s'.prio(t) == if t == o && s.prio(who) < s.prio(o) then s.prio(who) else s.prio(t))
               && (forall t: Tid :: s'.held(t) == s.held(t))
  {
    hide Queued;
    NotQueued(s, k, who);
    var prio' := Inherit(s.prio, o, who);
    var n := |w.queue|;
    PositionIs(w.queue, who, prio', n);
    assert w.queue[..n] == w.queue && w.queue[n..] == [];
    assert Insert(w.queue, who, Prio, prio') == q;
  }

  lemma GivesBack(s: Sys, k: Id, who: Tid, saved: nat, w: Waiters)
    requires k < |s.ms| && s.ms[k] == Mx(0, Some(who), saved, 1, w) && !Queued(s, who)
    requires who !in w.queue
    ensures var a := Act(k, ReleaseAct(who));
            && Possible(s, a)
            && var s' := Next(s, a);
               && s'.ms == s.ms[k := if w.queue == [] then Mx(1, None, NO_PRIORITY, 0, w)
                                     else Mx(0, Some(w.queue[0]), s.prio(w.queue[0]), 1, WakeFirst(w))]
               && (forall t: Tid :: s'.prio(t) == if t == who then saved else s.prio(t))
               && s'.held(who) == Without(s.held(who), k)
  {
    hide Queued, WakeFirst;
    if w.queue != [] { assert w.queue[0] in w.queue; }
  }

  lemma QueuedNowhere(s: Sys, t: Tid)
    requires |s.ms| == 2 && t !in s.ms[0].wait.queue && t !in s.ms[1].wait.queue
    ensures !Queued(s, t)
  {
    forall k | 0 <= k < |s.ms| ensures t !in s.ms[k].wait.queue {}
  }

  lemma TwoLent(s: Sys)
    requires |s.ms| == 2 && Lent(s.ms[0], s.prio) && Lent(s.ms[1], s.prio)
    ensures Inherited(s)
  {
    forall k | 0 <= k < |s.ms| ensures Lent(s.ms[k], s.prio) {}
  }

  lemma TimesOut(s: Sys, k: Id, t: Tid)
    requires k < |s.ms| && t in s.ms[k].wait.armed && Consistent(s.ms[k])
    ensures var a := Act(k, Expires(t));
            && Possible(s, a)
            && var s' := Next(s, a);
               && s'.ms == s.ms[k := s.ms[k].(wait := Expire(s.ms[k].wait, t))] && s'.prio == s.prio
               && forall x: Tid :: s'.held(x) == s.held(x)
  {
    hide Queued;
    SameHands(s.held, k, s.ms[k].owner);
  }

  /** Thread 0 holds mutex 0, for which the more urgent thread 1 waits, and gives up mutex 1: although
      it does so in the right order, it falls back behind thread 1. */
  lemma InheritanceLost(base: Tid -> nat) returns (ss: seq<Sys>, acts: seq<Act>)
    requires base(1) < base(0)
    ensures |acts| == 4 && |ss| == 5 && MutexSystem.Run(ss, acts) && ss[0] == Start(base) && Lifo(ss[3], acts[3])
    ensures Inherited(ss[3])
    ensures var last := ss[4];
            |last.ms| == 2 && last.ms[0].owner == Some(0) && last.ms[0].wait.queue == [1] && last.prio(1) < last.prio(0)
  {
    hide Next, Possible, Lifo;
    var s0 := Start(base);
    acts := [Act(0, TakeAct(0, Forever)), Act(1, TakeAct(0, Forever)), Act(0, TakeAct(1, Forever)), Act(1, ReleaseAct(0))];
    TakesFree(s0, 0, 0);
    var s1 := Next(s0, acts[0]);
    TakesFree(s1, 1, 0);
    var s2 := Next(s1, acts[1]);
    WaitsFor(s2, 0, 1, Forever, 0, base(0), NOBODY, [1]);
    var s3 := Next(s2, acts[2]);
    GivesBack(s3, 1, 0, base(0), NOBODY);
    ss := [s0, s1, s2, s3, Next(s3, acts[3])];
    assert s3.held(0) == [0, 1];
    LastHeld(s3, acts[3]);
  }

  lemma LastHeld(s: Sys, a: Act)
    requires Possible(s, a) && a.action == ReleaseAct(0) && s.held(0) != [] && s.held(0)[|s.held(0)| - 1] == a.mutex
    ensures Lifo(s, a)
  {
    hide Enabled, Queued;
  }

  /** Thread 0 gets mutex 1 while thread 1 lends it its priority. */
  lemma TakesRaised(base: Tid -> nat) returns (ss: seq<Sys>, acts: seq<Act>)
    requires base(1) < base(0)
    ensures |acts| == 3 && |ss| == 4 && MutexSystem.Run(ss, acts) && ss[0] == Start(base)
    ensures ss[3].ms == [Mx(0, Some(0), base(0), 1, Waiters([1], {}, {})), Mx(0, Some(0), base(1), 1, NOBODY)]
    ensures ss[3].prio(0) == base(1) && ss[3].held(0) == [0, 1]
  {
    hide Next, Possible, Queued;
    acts := [Act(0, TakeAct(0, Forever)), Act(0, TakeAct(1, Forever)), Act(1, TakeAct(0, Forever))];
    var s0 := Start(base);
    QueuedNowhere(s0, 0);
    TakesFree(s0, 0, 0);
    var s1 := Next(s0, acts[0]);
    QueuedNowhere(s1, 1);
    WaitsFor(s1, 0, 1, Forever, 0, base(0), NOBODY, [1]);
    var s2 := Next(s1, acts[1]);
    QueuedNowhere(s2, 0);
    TakesFree(s2, 1, 0);
    ss := [s0, s1, s2, Next(s2, acts[2])];
    assert NOBODY.armed - {1} == {} && NOBODY.woken - {1} == {};
  }

  lemma GivesBoth(s: Sys, first: nat, second: nat) returns (ss: seq<Sys>, acts: seq<Act>)
    requires s.ms == [Mx(0, Some(0), first, 1, Waiters([1], {}, {})), Mx(0, Some(0), second, 1, NOBODY)]
    requires s.held(0) == [0, 1]
    ensures |acts| == 2 && |ss| == 3 && MutexSystem.Run(ss, acts) && ss[0] == s
    ensures ss[2].held(0) == [] && ss[2].prio(0) == second
  {
    hide Next, Possible, Queued, Without;
    acts := [Act(0, ReleaseAct(0)), Act(1, ReleaseAct(0))];
    QueuedNowhere(s, 0);
    GivesBack(s, 0, 0, first, Waiters([1], {}, {}));
    var t := Next(s, acts[0]);
    QueuedNowhere(t, 0);
    GivesBack(t, 1, 0, second, NOBODY);
    ss := [s, t, Next(t, acts[1])];
    WithoutAt([0, 1], 0);
    WithoutAt([1], 0);
    assert [0, 1][..0] + [0, 1][1..] == [1] && [1][..0] + [1][1..] == [];
  }

  /** It then gives up mutex 0 first: in the end it holds nothing, and keeps the priority of thread 1. */
  lemma StuckAboveBase(base: Tid -> nat) returns (ss: seq<Sys>, acts: seq<Act>)
    requires base(1) < base(0)
    ensures |acts| == 5 && |ss| == 6 && MutexSystem.Run(ss, acts) && ss[0] == Start(base)
    ensures ss[5].held(0) == [] && ss[5].prio(0) == base(1) < base(0)
  {
    hide Next, Possible, MutexSystem.Run;
    var before, calls := TakesRaised(base);
    var after, more := GivesBoth(before[|calls|], base(0), base(1));
    ss, acts := RunsJoin(before, calls, after, more);
  }

  /** Thread 1 holds mutex 0 and waits for mutex 1 of thread 2. Thread 0 waits for mutex 0 and raises thread 1,
      but not thread 2 for which thread 1 waits. Nothing is given up in this run. */
  lemma NotPassedOn(base: Tid -> nat) returns (ss: seq<Sys>, acts: seq<Act>)
    requires base(0) < base(1) < base(2)
    ensures |acts| == 4 && |ss| == 5 && MutexSystem.Run(ss, acts) && ss[0] == Start(base) && Inherited(ss[3])
    ensures forall k | 0 <= k < 4 :: acts[k].action.TakeAct?
    ensures var last := ss[4];
            |last.ms| == 2 && last.ms[1].owner == Some(2) && last.ms[1].wait.queue == [1] && last.prio(1) < last.prio(2)
  {
    hide Next, Possible;
    var s0 := Start(base);
    acts := [Act(1, TakeAct(2, Forever)), Act(0, TakeAct(1, Forever)), Act(1, TakeAct(1, Forever)), Act(0, TakeAct(0, Forever))];
    TakesFree(s0, 1, 2);
    var s1 := Next(s0, acts[0]);
    TakesFree(s1, 0, 1);
    var s2 := Next(s1, acts[1]);
    WaitsFor(s2, 1, 1, Forever, 2, base(2), NOBODY, [1]);
    var s3 := Next(s2, acts[2]);
    WaitsFor(s3, 0, 0, Forever, 1, base(1), NOBODY, [0]);
    ss := [s0, s1, s2, s3, Next(s3, acts[3])];
  }

  /** Thread 0, with mutex 0, was raised by thread 3, which has timed out since; thread 2 has mutex 1. */
  lemma RaisedFor(base: Tid -> nat) returns (ss: seq<Sys>, acts: seq<Act>)
    requires base(3) < base(0)
    ensures |acts| == 4 && |ss| == 5 && MutexSystem.Run(ss, acts) && ss[0] == Start(base)
    ensures ss[4].ms == [Mx(0, Some(0), base(0), 1, NOBODY), Mx(0, Some(2), base(2), 1, NOBODY)]
    ensures forall t: Tid :: ss[4].prio(t) == if t == 0 then base(3) else base(t)
  {
    hide Next, Possible, Queued;
    acts := [Act(0, TakeAct(0, Forever)), Act(1, TakeAct(2, Forever)), Act(0, TakeAct(3, Timed)), Act(0, Expires(3))];
    var s0 := Start(base);
    QueuedNowhere(s0, 0);
    TakesFree(s0, 0, 0);
    var s1 := Next(s0, acts[0]);
    QueuedNowhere(s1, 2);
    TakesFree(s1, 1, 2);
    var s2 := Next(s1, acts[1]);
    QueuedNowhere(s2, 3);
    WaitsFor(s2, 0, 3, Timed, 0, base(0), NOBODY, [3]);
    var s3 := Next(s2, acts[2]);
    TimesOut(s3, 0, 3);
    var s4 := Next(s3, acts[3]);
    assert NOBODY.armed + {3} == {3} && NOBODY.woken - {3} == {};
    assert Expire(Waiters([3], {3}, {}), 3) == NOBODY;
    ss := [s0, s1, s2, s3, s4];
  }

  lemma HandsToFirst(s: Sys, base: Tid -> nat) returns (ss: seq<Sys>, acts: seq<Act>)
    requires s.ms == [Mx(0, Some(0), base(0), 1, NOBODY), Mx(0, Some(2), base(2), 1, NOBODY)]
    requires forall t: Tid :: s.prio(t) == if t == 0 then base(3) else base(t)
    requires base(3) < base(1) <= base(2) && base(3) < base(0)
    ensures |acts| == 4 && |ss| == 5 && MutexSystem.Run(ss, acts) && ss[0] == s && Inherited(ss[3])
    ensures var last := ss[4];
            |last.ms| == 2 && last.ms[0].owner == Some(1) && last.ms[0].wait.queue == [2] && last.prio(2) < last.prio(1)
  {
    hide Next, Possible, Queued, Inherited;
    acts := [Act(0, TakeAct(1, Forever)), Act(0, TakeAct(2, Forever)), Act(1, TakeAct(3, Forever)), Act(0, ReleaseAct(0))];
    QueuedNowhere(s, 1);
    WaitsFor(s, 0, 1, Forever, 0, base(0), NOBODY, [1]);
    var s1 := Next(s, acts[0]);
    QueuedNowhere(s1, 2);
    WaitsFor(s1, 0, 2, Forever, 0, base(0), Waiters([1], {}, {}), [1, 2]);
    var s2 := Next(s1, acts[1]);
    QueuedNowhere(s2, 3);
    WaitsFor(s2, 1, 3, Forever, 2, base(2), NOBODY, [3]);
    var s3 := Next(s2, acts[2]);
    TwoLent(s3);
    QueuedNowhere(s3, 0);
    GivesBack(s3, 0, 0, base(0), Waiters([1, 2], {}, {}));
    ss := [s, s1, s2, s3, Next(s3, acts[3])];
  }

  /** Threads 1 and 2 wait for mutex 0, and thread 2 is raised by thread 3 while it waits; the queue is not sorted again.
      The mutex goes to thread 1, which is less urgent than thread 2. */
  lemma HeirNotMostUrgent(base: Tid -> nat) returns (ss: seq<Sys>, acts: seq<Act>)
    requires base(3) < base(1) <= base(2) && base(3) < base(0)
    ensures |acts| == 8 && |ss| == 9 && MutexSystem.Run(ss, acts) && ss[0] == Start(base) && Inherited(ss[7])
    ensures var last := ss[8];
            |last.ms| == 2 && last.ms[0].owner == Some(1) && last.ms[0].wait.queue == [2] && last.prio(2) < last.prio(1)
  {
    hide Next, Possible, MutexSystem.Run, Inherited;
    var before, calls := RaisedFor(base);
    var after, more := HandsToFirst(before[|calls|], base);
    ss, acts := RunsJoin(before, calls, after, more);
  }

  lemma RunsJoin(before: seq<Sys>, calls: seq<Act>, after: seq<Sys>, more: seq<Act>) returns (ss: seq<Sys>, acts: seq<Act>)
    requires |before| == |calls| + 1 && |after| == |more| + 1
    requires MutexSystem.Run(before, calls) && MutexSystem.Run(after, more) && before[|calls|] == after[0]
    ensures |acts| == |calls| + |more| && |ss| == |acts| + 1 && MutexSystem.Run(ss, acts) && ss[0] == before[0]
    ensures forall k | 0 <= k <= |more| :: ss[|calls| + k] == after[k]
  {
    hide Next, Possible;
    var n := |calls|;
    ss, acts := before + after[1..], calls + more;
    forall k | 0 <= k <= |more| ensures ss[n + k] == after[k] {}
    forall k | 0 <= k < |acts| ensures Possible(ss[k], acts[k]) && ss[k + 1] == Next(ss[k], acts[k]) {
      if k < n {
        assert ss[k] == before[k] && ss[k + 1] == before[k + 1];
      } else {
        assert ss[k] == after[k - n] && ss[k + 1] == after[k - n + 1];
      }
    }
  }
}
