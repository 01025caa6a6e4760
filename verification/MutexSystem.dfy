/**
  Any number of mutexes (ipc.c) and threads.

  Releasing a mutex puts its owner back to the priority it had when it took that mutex. Threads that
  release their mutexes in the reverse order of taking them therefore end at their base priority, and
  inheritance through another mutex they still hold is lost on the way.
*/
module MutexSystem {
  import opened Basics
  import opened WaitQueue
  import opened MutexSpec

  type Id = nat

  /** `held(t)` lists the mutexes of thread `t` in the order it got them. */
  datatype Sys = Sys(ms: seq<Mx>, prio: Tid -> nat, held: Tid -> seq<Id>)

  function SetHeld(held: Tid -> seq<Id>, t: Tid, ks: seq<Id>): (r: Tid -> seq<Id>)
    ensures forall x :: r(x) == if x == t then ks else held(x)
  {
    x => if x == t then ks else held(x)
  }

  datatype Act = Act(mutex: Id, action: Action)

  predicate Queued(s: Sys, t: Tid) {
    exists k :: 0 <= k < |s.ms| && t in s.ms[k].wait.queue
  }

  /** A thread that makes a call runs, and so is queued on no mutex. */
  predicate Possible(s: Sys, a: Act) {
    && a.mutex < |s.ms| && Enabled(s.ms[a.mutex], a.action)
    && match a.action
       case TakeAct(who, _) => !Queued(s, who)
       case ReleaseAct(who) => !Queued(s, who)
       case _ => true
  }

  /** The mutex lists of the threads, when mutex `k` goes from `was` to `now`. */
  function Handed(held: Tid -> seq<Id>, k: Id, was: Option<Tid>, now: Option<Tid>): Tid -> seq<Id> {
    if was == now then held
    else
      var h := if was.Some? then SetHeld(held, was.value, Without(held(was.value), k)) else held;
      if now.Some? then SetHeld(h, now.value, h(now.value) + [k]) else h
  }

  function Next(s: Sys, a: Act): Sys
    requires Possible(s, a)
  {
    var k := a.mutex;
    var (m', prio') := Apply(s.ms[k], a.action, s.prio);
    Sys(s.ms[k := m'], prio', Handed(s.held, k, s.ms[k].owner, m'.owner))
  }

  /** A thread gives up only the mutex it got last. */
  predicate Lifo(s: Sys, a: Act)
    requires Possible(s, a)
  {
    var m := s.ms[a.mutex];
    a.action.ReleaseAct? && m.owner == Some(a.action.who) && m.hold == 1 ==>
      var ks := s.held(a.action.who); ks != [] && ks[|ks| - 1] == a.mutex
  }

  ghost predicate Owns(ms: seq<Mx>, ks: seq<Id>, t: Tid) {
    forall k | k in ks :: k < |ms| && ms[k].owner == Some(t)
  }

  /** The lists say who owns what. */
  ghost predicate Owners(s: Sys) {
    && (forall t: Tid :: Distinct(s.held(t)) && Owns(s.ms, s.held(t), t))
    && (forall k | 0 <= k < |s.ms| && s.ms[k].owner.Some? :: k in s.held(s.ms[k].owner.value))
  }

  /** A thread with mutexes got the first of them at its base priority; one without is at it now. */
  ghost predicate AtBase(s: Sys, base: Tid -> nat) {
    forall t: Tid ::
      if s.held(t) == [] then s.prio(t) == base(t)
      else s.held(t)[0] < |s.ms| && s.ms[s.held(t)[0]].original == base(t)
  }

  ghost predicate AllKept(s: Sys) {
    forall k | 0 <= k < |s.ms| :: MutexSpec.Kept(s.ms[k])
  }

  ghost predicate Safe(s: Sys, base: Tid -> nat) {
    AllKept(s) && Owners(s) && AtBase(s, base)
  }

  /** What one call does to the owner, the saved priority, and the priorities. */
  lemma StepFacts(m: Mx, a: Action, prio: Tid -> nat)
    requires MutexSpec.Kept(m) && Enabled(m, a)
    ensures var (m', prio') := Apply(m, a, prio);
            && MutexSpec.Kept(m')
            && (m'.owner == m.owner ==>
                  m'.original == m.original && forall t: Tid | m.owner != Some(t) :: prio'(t) == prio(t))
            && (m'.owner != m.owner ==>
                  && (m.owner.Some? ==> a == ReleaseAct(m.owner.value) && m.hold == 1)
                  && (m.owner.Some? ==> prio'(m.owner.value) == m.original)
                  && (m'.owner.Some? ==> m'.original == prio(m'.owner.value))
                  && (forall t: Tid | m.owner != Some(t) :: prio'(t) == prio(t)))
  {
    ApplyKeeps(m, a, prio);
  }

  /** The lists after a mutex changed hands. */
  lemma HandedFacts(s: Sys, a: Act)
    requires Possible(s, a) && AllKept(s) && Owners(s)
    requires Next(s, a).ms[a.mutex].owner != s.ms[a.mutex].owner
    ensures var k, was, now, h := a.mutex, s.ms[a.mutex].owner, Next(s, a).ms[a.mutex].owner, Next(s, a).held;
            && (forall t: Tid | Some(t) != was && Some(t) != now :: h(t) == s.held(t))
            && (was.Some? ==> h(was.value) == Without(s.held(was.value), k))
            && (now.Some? ==> h(now.value) == s.held(now.value) + [k] && k !in s.held(now.value))
  {
    hide Apply, Enabled;
  }

  lemma OwnersKept(s: Sys, a: Act)
    requires Possible(s, a) && AllKept(s) && Owners(s)
    ensures Owners(Next(s, a))
  {
    hide Apply, Enabled, MutexSpec.Kept, Handed;
    var s' := Next(s, a);
    var k, was, now := a.mutex, s.ms[a.mutex].owner, s'.ms[a.mutex].owner;
    assert forall j | 0 <= j < |s.ms| && j != k :: s'.ms[j] == s.ms[j];
    if was == now {
      SameHands(s.held, k, was);
    } else {
      HandedFacts(s, a);
      if was.Some? { WithoutDistinct(s.held(was.value), k); }
      if now.Some? { AppendDistinct(s.held(now.value), k); }
    }
    forall j | 0 <= j < |s'.ms| && s'.ms[j].owner.Some? ensures j in s'.held(s'.ms[j].owner.value) {
      var t := s'.ms[j].owner.value;
      assert Owns(s.ms, s.held(t), t);
      assert j in s.held(t) || (now == Some(t) && j == k);
    }
    forall t: Tid ensures Distinct(s'.held(t)) && Owns(s'.ms, s'.held(t), t) {
      assert Distinct(s.held(t)) && Owns(s.ms, s.held(t), t);
    }
  }

  lemma SameHands(held: Tid -> seq<Id>, k: Id, owner: Option<Tid>)
    ensures Handed(held, k, owner, owner) == held
    ensures forall t: Tid :: Handed(held, k, owner, owner)(t) == held(t)
  {
  }

  /** The call gives up the last hold of a mutex. */
  predicate GivesUp(s: Sys, a: Act)
    requires Possible(s, a)
  {
    a.action.ReleaseAct? && s.ms[a.mutex].owner == Some(a.action.who) && s.ms[a.mutex].hold == 1
  }

  /** A thread that gives up the mutex it got first holds no other, or got the next one at its base priority. */
  predicate InOrder(s: Sys, a: Act, base: Tid -> nat)
    requires Possible(s, a)
  {
    GivesUp(s, a) ==>
      var ks := s.held(a.action.who);
      |ks| > 1 && ks[0] == a.mutex ==> ks[1] < |s.ms| && s.ms[ks[1]].original == base(a.action.who)
  }

  /** Exactly the calls that are in order keep that the first mutex of a thread was got at its base priority. */
  lemma AtBaseKept(s: Sys, a: Act, base: Tid -> nat)
    requires Possible(s, a) && Safe(s, base)
    ensures AtBase(Next(s, a), base) <==> InOrder(s, a, base)
  {
    hide Apply, Enabled, MutexSpec.Kept, Handed, Distinct, Queued;
    var s' := Next(s, a);
    var k, m, m' := a.mutex, s.ms[a.mutex], s'.ms[a.mutex];
    StepFacts(m, a.action, s.prio);
    OwnerChanges(m, a.action, s.prio);
    if m.owner == m'.owner {
      SameHands(s.held, k, m.owner);
      forall t: Tid | s.held(t) == [] ensures s'.prio(t) == base(t) {
        assert m.owner == Some(t) ==> k in s.held(t);
      }
    } else {
      HandedFacts(s, a);
      forall t: Tid | m.owner != Some(t) ensures AtBaseFor(s', base, t) { OtherAtBase(s, a, base, t); }
      if m.owner.Some? { OwnerAtBase(s, a, base); }
    }
  }

  ghost predicate AtBaseFor(s: Sys, base: Tid -> nat, t: Tid) {
    if s.held(t) == [] then s.prio(t) == base(t)
    else s.held(t)[0] < |s.ms| && s.ms[s.held(t)[0]].original == base(t)
  }

  /** Only giving up takes a mutex from its owner. */
  lemma OwnerChanges(m: Mx, a: Action, prio: Tid -> nat)
    requires MutexSpec.Kept(m) && Enabled(m, a)
    ensures m.owner.Some? ==> (Apply(m, a, prio).0.owner != m.owner <==> a == ReleaseAct(m.owner.value) && m.hold == 1)
    ensures m.owner.None? ==> !(a.ReleaseAct? && m.owner == Some(a.who))
  {
  }

  lemma OtherAtBase(s: Sys, a: Act, base: Tid -> nat, t: Tid)
    requires Possible(s, a) && Safe(s, base) && s.ms[a.mutex].owner != Some(t)
    requires Next(s, a).ms[a.mutex].owner != s.ms[a.mutex].owner
    ensures AtBaseFor(Next(s, a), base, t)
  {
    hide Apply, Enabled, MutexSpec.Kept, Handed, Distinct, Queued;
    StepFacts(s.ms[a.mutex], a.action, s.prio);
    HandedFacts(s, a);
    assert AtBaseFor(s, base, t);
    if s.held(t) != [] { assert s.held(t)[0] in s.held(t); }
  }

  lemma OwnerAtBase(s: Sys, a: Act, base: Tid -> nat)
    requires Possible(s, a) && Safe(s, base) && GivesUp(s, a)
    requires Next(s, a).ms[a.mutex].owner != s.ms[a.mutex].owner
    ensures AtBaseFor(Next(s, a), base, a.action.who) <==> InOrder(s, a, base)
  {
    hide Apply, Enabled, MutexSpec.Kept, Handed, Distinct, Queued;
    var k, t := a.mutex, a.action.who;
    var s', ks := Next(s, a), s.held(t);
    StepFacts(s.ms[k], a.action, s.prio);
    HandedFacts(s, a);
    assert k in ks && AtBaseFor(s, base, t);
    FirstLeft(ks, k);
    assert forall j | j in ks && j != k :: j < |s.ms| && s'.ms[j] == s.ms[j];
    if |ks| > 1 && ks[0] == k { assert ks[1] in ks; }
    assert ks[0] in ks;
  }

  /** Which mutex is the first when `k` is taken off the list. */
  lemma FirstLeft(ks: seq<Id>, k: Id)
    requires Distinct(ks) && k in ks
    ensures ks[0] != k ==> Without(ks, k) != [] && Without(ks, k)[0] == ks[0]
    ensures ks[0] == k ==> Without(ks, k) == ks[1..]
    ensures |ks| > 1 && ks[0] == k ==> ks[1] != k
  {
    if ks[0] == k { WithoutAt(ks, 0); }
  }

  lemma LifoInOrder(s: Sys, a: Act, base: Tid -> nat)
    requires Possible(s, a) && Lifo(s, a) && Owners(s)
    ensures InOrder(s, a, base)
  {
    hide Enabled, Queued;
    if GivesUp(s, a) {
      var ks := s.held(a.action.who);
      assert Distinct(ks);
    }
  }

  ghost predicate Run(ss: seq<Sys>, acts: seq<Act>) {
    && |ss| == |acts| + 1
    && forall k | 0 <= k < |acts| :: Possible(ss[k], acts[k]) && ss[k + 1] == Next(ss[k], acts[k])
  }

  ghost predicate Fresh(s: Sys, base: Tid -> nat) {
    (forall k | 0 <= k < |s.ms| :: s.ms[k] == FREE) && s.prio == base && forall t: Tid :: s.held(t) == []
  }

  lemma FreshSafe(s: Sys, base: Tid -> nat)
    requires Fresh(s, base)
    ensures Safe(s, base)
  {
  }

  /** When every thread gives up its mutexes in the reverse order of getting them, a thread without a
      mutex is at its base priority, whatever inheritance, hand-over or time-out there was. */
  lemma BackAtBase(ss: seq<Sys>, acts: seq<Act>, base: Tid -> nat)
    requires Run(ss, acts) && Fresh(ss[0], base)
    requires forall k | 0 <= k < |acts| :: Lifo(ss[k], acts[k])
    ensures forall t: Tid | ss[|acts|].held(t) == [] :: ss[|acts|].prio(t) == base(t)
  {
    hide Next, Possible, Lifo, Owners, MutexSpec.Kept, InOrder;
    FreshSafe(ss[0], base);
    InOrderInRuns(ss, acts, base);
    forall k | 0 <= k < |acts| ensures InOrder(ss[k], acts[k], base) {
      OwnersInRuns(ss, acts, k);
      LifoInOrder(ss[k], acts[k], base);
    }
    assert AtBase(ss[|acts|], base);
  }

  lemma {:induction false} OwnersInRuns(ss: seq<Sys>, acts: seq<Act>, k: nat)
    requires Run(ss, acts) && AllKept(ss[0]) && Owners(ss[0]) && k < |ss|
    ensures AllKept(ss[k]) && Owners(ss[k])
  {
    hide Next, Possible, Owners, MutexSpec.Kept;
    if k > 0 {
      OwnersInRuns(ss, acts, k - 1);
      KeptStep(ss[k - 1], acts[k - 1]);
      OwnersKept(ss[k - 1], acts[k - 1]);
    }
  }

  lemma KeptStep(s: Sys, a: Act)
    requires Possible(s, a) && AllKept(s)
    ensures AllKept(Next(s, a))
  {
    hide Apply, Enabled, MutexSpec.Kept, Queued;
    StepFacts(s.ms[a.mutex], a.action, s.prio);
  }

  /** In a run, every thread's first mutex was always got at its base priority if and only if all calls are in order. */
  lemma InOrderInRuns(ss: seq<Sys>, acts: seq<Act>, base: Tid -> nat)
    requires Run(ss, acts) && Safe(ss[0], base)
    ensures (forall k | 0 <= k < |ss| :: AtBase(ss[k], base)) <==> forall k | 0 <= k < |acts| :: InOrder(ss[k], acts[k], base)
  {
    hide Next, Possible, Owners, MutexSpec.Kept, InOrder, AtBase;
    if forall k | 0 <= k < |ss| :: AtBase(ss[k], base) {
      forall k | 0 <= k < |acts| ensures InOrder(ss[k], acts[k], base) {
        OwnersInRuns(ss, acts, k);
        AtBaseKept(ss[k], acts[k], base);
        assert AtBase(ss[k + 1], base);
      }
    }
    if forall k | 0 <= k < |acts| :: InOrder(ss[k], acts[k], base) {
      forall k | 0 <= k < |ss| ensures AtBase(ss[k], base) { StaysAtBase(ss, acts, base, k); }
    }
  }

  lemma {:induction false} StaysAtBase(ss: seq<Sys>, acts: seq<Act>, base: Tid -> nat, k: nat)
    requires Run(ss, acts) && Safe(ss[0], base) && k < |ss|
    requires forall j | 0 <= j < |acts| :: InOrder(ss[j], acts[j], base)
    ensures AtBase(ss[k], base)
  {
    hide Next, Possible, Owners, MutexSpec.Kept, InOrder, AtBase;
    if k > 0 {
      StaysAtBase(ss, acts, base, k - 1);
      OwnersInRuns(ss, acts, k - 1);
      AtBaseKept(ss[k - 1], acts[k - 1], base);
    }
  }

  // ---- Back to the base priority --------------------------------------------------------------

  /** A thread without a mutex is at its base priority. */
  ghost predicate NoneBorrowed(s: Sys, base: Tid -> nat) {
    forall t: Tid | s.held(t) == [] :: s.prio(t) == base(t)
  }

  /** A thread that gives up its only mutex got it at its base priority. */
  predicate GotAtBase(s: Sys, a: Act, base: Tid -> nat)
    requires Possible(s, a)
  {
    GivesUp(s, a) && s.held(a.action.who) == [a.mutex] ==> s.ms[a.mutex].original == base(a.action.who)
  }

  /** Of all calls, exactly this one can leave a thread without a mutex above its base priority. */
  lemma BaseAfterCall(s: Sys, a: Act, base: Tid -> nat)
    requires Possible(s, a) && AllKept(s) && Owners(s) && NoneBorrowed(s, base)
    ensures NoneBorrowed(Next(s, a), base) <==> GotAtBase(s, a, base)
  {
    hide Apply, Enabled, MutexSpec.Kept, Handed, Distinct, Queued;
    var s' := Next(s, a);
    var k, m, m' := a.mutex, s.ms[a.mutex], s'.ms[a.mutex];
    StepFacts(m, a.action, s.prio);
    OwnerChanges(m, a.action, s.prio);
    if m.owner == m'.owner {
      SameHands(s.held, k, m.owner);
      forall t: Tid | s.held(t) == [] ensures s'.prio(t) == base(t) {
        assert m.owner == Some(t) ==> k in s.held(t);
      }
    } else {
      HandedFacts(s, a);
      if m.owner.Some? {
        var ks := s.held(m.owner.value);
        assert k in ks && Distinct(ks);
        OnlyOne(ks, k);
      }
    }
  }

  lemma OnlyOne(ks: seq<Id>, k: Id)
    requires Distinct(ks) && k in ks
    ensures Without(ks, k) == [] <==> ks == [k]
  {
    FirstLeft(ks, k);
    if ks[0] == k { assert ks == [k] + ks[1..]; }
  }

  /** In a run, a thread without a mutex was always at its base priority if and only if every thread that gave
      up its only mutex had got it at that priority. */
  lemma BaseInRuns(ss: seq<Sys>, acts: seq<Act>, base: Tid -> nat)
    requires Run(ss, acts) && AllKept(ss[0]) && Owners(ss[0]) && NoneBorrowed(ss[0], base)
    ensures (forall k | 0 <= k < |ss| :: NoneBorrowed(ss[k], base))
            <==> forall k | 0 <= k < |acts| :: GotAtBase(ss[k], acts[k], base)
  {
    hide Next, Possible, Owners, MutexSpec.Kept, GotAtBase, NoneBorrowed;
    if forall k | 0 <= k < |ss| :: NoneBorrowed(ss[k], base) {
      forall k | 0 <= k < |acts| ensures GotAtBase(ss[k], acts[k], base) {
        OwnersInRuns(ss, acts, k);
        BaseAfterCall(ss[k], acts[k], base);
        assert NoneBorrowed(ss[k + 1], base);
      }
    }
    if forall k | 0 <= k < |acts| :: GotAtBase(ss[k], acts[k], base) {
      forall k | 0 <= k < |ss| ensures NoneBorrowed(ss[k], base) { NeverBorrowed(ss, acts, base, k); }
    }
  }

  lemma {:induction false} NeverBorrowed(ss: seq<Sys>, acts: seq<Act>, base: Tid -> nat, k: nat)
    requires Run(ss, acts) && AllKept(ss[0]) && Owners(ss[0]) && NoneBorrowed(ss[0], base) && k < |ss|
    requires forall j | 0 <= j < |acts| :: GotAtBase(ss[j], acts[j], base)
    ensures NoneBorrowed(ss[k], base)
  {
    hide Next, Possible, Owners, MutexSpec.Kept, GotAtBase, NoneBorrowed;
    if k > 0 {
      NeverBorrowed(ss, acts, base, k - 1);
      OwnersInRuns(ss, acts, k - 1);
      BaseAfterCall(ss[k - 1], acts[k - 1], base);
    }
  }
}
