/** What the mutex calls (ipc.c) do, on values, and what all runs with one mutex keep. */
module MutexSpec {
  import opened Basics
  import opened WaitQueue

  const HOLD_MAX: nat := 255
  const NO_PRIORITY: nat := 0xFF

  /** The fields of a mutex. A woken thread is one that was handed the mutex and has not run since. */
  datatype Mx = Mx(value: nat, owner: Option<Tid>, original: nat, hold: nat, wait: Waiters)

  datatype Outcome = Done | Full | TimedOut | NotOwner | Blocked

  const FREE := Mx(1, None, NO_PRIORITY, 0, NOBODY)

  /** Somebody holds a mutex that has no unit left. */
  predicate Consistent(m: Mx) {
    (m.value == 0 ==> m.owner.Some?) && (m.owner.Some? ==> m.hold > 0)
  }

  /** A waiting thread lends its priority to a less urgent owner. */
  function Inherit(prio: Tid -> nat, owner: Tid, who: Tid): Tid -> nat {
    if prio(who) < prio(owner) then Update(prio, owner, prio(who)) else prio
  }

  function Take(m: Mx, who: Tid, wait: Wait, prio: Tid -> nat): (Mx, Tid -> nat, Outcome)
    requires Consistent(m)
  {
    if m.owner == Some(who) then
      if m.hold < HOLD_MAX then (m.(hold := m.hold + 1), prio, Done) else (m, prio, Full)
    else if m.value > 0 then
      var m' := m.(value := m.value - 1, owner := Some(who), original := prio(who));
      if m.hold < HOLD_MAX then (m'.(hold := m.hold + 1), prio, Done) else (m', prio, Full)
    else if wait == NoWait then (m, prio, TimedOut)
    else
      var prio' := Inherit(prio, m.owner.value, who);
      (m.(wait := Block(m.wait, who, Prio, wait, prio')), prio', Blocked)
  }

  /** The owner goes back to the priority it had when it took the mutex. */
  function Restore(prio: Tid -> nat, owner: Tid, original: nat): Tid -> nat {
    if original != prio(owner) then Update(prio, owner, original) else prio
  }

  function Release(m: Mx, who: Tid, prio: Tid -> nat): (Mx, Tid -> nat, Outcome)
    requires Consistent(m)
  {
    if m.owner != Some(who) then (m, prio, NotOwner)
    else if m.hold > 1 then (m.(hold := m.hold - 1), prio, Done)
    else
      var prio' := Restore(prio, who, m.original);
      if m.wait.queue != [] then
        var heir := m.wait.queue[0];
        (m.(owner := Some(heir), original := prio'(heir), hold := 1, wait := WakeFirst(m.wait)), prio', Done)
      else if m.value < UINT16_MAX then
        (m.(value := m.value + 1, owner := None, original := NO_PRIORITY, hold := 0), prio', Done)
      else (m.(hold := 0), prio', Full)
  }

  datatype Action = TakeAct(who: Tid, wait: Wait) | ReleaseAct(who: Tid) | Returns(t: Tid) | Expires(t: Tid)

  predicate Enabled(m: Mx, a: Action) {
    && Consistent(m)
    && match a
       case TakeAct(who, _) => who !in m.wait.queue
       case ReleaseAct(who) => who !in m.wait.queue
       case Returns(t) => t in m.wait.woken
       case Expires(t) => t in m.wait.armed
  }

  function Apply(m: Mx, a: Action, prio: Tid -> nat): (Mx, Tid -> nat)
    requires Enabled(m, a)
  {
    match a
    case TakeAct(who, wait) => var (m', prio', _) := Take(m, who, wait, prio); (m', prio')
    case ReleaseAct(who) => var (m', prio', _) := Release(m, who, prio); (m', prio')
    case Returns(t) => (m.(wait := Enter(m.wait, t)), prio)
    case Expires(t) => (m.(wait := Expire(m.wait, t)), prio)
  }

  /** What a mutex keeps whatever else goes on. */
  ghost predicate Kept(m: Mx) {
    && (m.value == 1 <==> m.owner.None?) && (m.hold == 0 <==> m.owner.None?)
    && m.value <= 1 && m.hold <= HOLD_MAX
    && Sound(m.wait)
    && (m.wait.queue != [] ==> m.owner.Some? && m.owner.value !in m.wait.queue)
  }

  lemma ApplyKeeps(m: Mx, a: Action, prio: Tid -> nat)
    requires Kept(m) && Enabled(m, a)
    ensures Kept(Apply(m, a, prio).0)
  {
    hide Sound, Inherit, Restore;
    match a
    case TakeAct(who, wait) =>
      if m.value == 0 && m.owner != Some(who) && wait != NoWait {
        var prio' := Inherit(prio, m.owner.value, who);
        BlockSound(m.wait, who, Prio, wait, prio');
        BlockMembers(m.wait, who, wait, prio');
      }
    case ReleaseAct(who) => WakeSound(m.wait, 0); if m.wait.queue != [] { HeirLeaves(m.wait); }
    case Returns(t) => EnterSound(m.wait, t);
    case Expires(t) => ExpireSound(m.wait, t, -1);
  }

  lemma BlockMembers(w: Waiters, who: Tid, wait: Wait, prio: Tid -> nat)
    requires Sound(w) && who !in w.queue
    ensures forall x :: x in Block(w, who, Prio, wait, prio).queue <==> x in w.queue || x == who
  {
    InsertDistinct(w.queue, who, Prio, prio);
  }

  lemma HeirLeaves(w: Waiters)
    requires Sound(w) && w.queue != []
    ensures w.queue[0] !in w.queue[1..] && forall x | x in w.queue[1..] :: x in w.queue
  {
  }

  /** Mutual exclusion: a mutex changes hands only when its owner gives up its last hold. */
  lemma OnlyTheOwnerGivesUp(m: Mx, a: Action, prio: Tid -> nat)
    requires Kept(m) && Enabled(m, a) && m.owner.Some?
    ensures Apply(m, a, prio).0.owner != m.owner ==> a == ReleaseAct(m.owner.value) && m.hold == 1
    ensures a == ReleaseAct(m.owner.value) && m.hold == 1 ==>
              Apply(m, a, prio).0.owner == if m.wait.queue == [] then None else Some(m.wait.queue[0])
    ensures a.TakeAct? && Take(m, a.who, a.wait, prio).2 == Done ==> a.who == m.owner.value
  {
  }

  /** A take succeeds exactly for the owner with a hold left and on a free mutex, which it then owns once; else it is
      full, times out at once, or the caller queues for the owner. */
  lemma TakeExactly(m: Mx, who: Tid, wait: Wait, prio: Tid -> nat)
    requires Kept(m) && Enabled(m, TakeAct(who, wait))
    ensures var (m', prio', o) := Take(m, who, wait, prio);
            && (o == Done <==> m.owner.None? || (m.owner == Some(who) && m.hold < HOLD_MAX))
            && (o == Full <==> m.owner == Some(who) && m.hold == HOLD_MAX)
            && (o == TimedOut <==> m.owner.Some? && m.owner != Some(who) && wait == NoWait)
            && (o == Blocked <==> m.owner.Some? && m.owner != Some(who) && wait != NoWait)
            && (o == Done ==> m'.owner == Some(who) && m'.hold == m.hold + 1 && m'.wait == m.wait && prio' == prio)
            && (o == Done && m.owner.None? ==> m'.original == prio(who) && m'.hold == 1)
            && (o == Full || o == TimedOut ==> m' == m && prio' == prio)
            && (o == Blocked ==>
                  && m'.owner == m.owner && m'.hold == m.hold
                  && Without(m'.wait.queue, who) == m.wait.queue && who in m'.wait.queue
                  && (who in m'.wait.armed <==> wait == Timed)
                  && forall t: Tid :: prio'(t) == if Some(t) == m.owner && prio(who) < prio(t) then prio(who) else prio(t))
  {
    hide Block;
    if m.owner.Some? && m.owner != Some(who) && wait != NoWait {
      BlockMeaning(m.wait, who, Prio, wait, Inherit(prio, m.owner.value, who));
    }
  }

  /** A release is done exactly for the owner. The last one puts it back to its saved priority and hands the mutex to
      the first thread that waits, or frees it. */
  lemma ReleaseExactly(m: Mx, who: Tid, prio: Tid -> nat)
    requires Kept(m) && Enabled(m, ReleaseAct(who))
    ensures var (m', prio', o) := Release(m, who, prio);
            && (o == Done <==> m.owner == Some(who)) && (o == NotOwner <==> m.owner != Some(who))
            && (o == NotOwner ==> m' == m && prio' == prio)
            && (o == Done && m.hold > 1 ==> m'.owner == m.owner && m'.hold == m.hold - 1 && m'.wait == m.wait && prio' == prio)
            && (o == Done && m.hold == 1 ==> forall t: Tid :: prio'(t) == if t == who then m.original else prio(t))
            && (o == Done && m.hold == 1 && m.wait.queue == [] ==> m' == FREE.(wait := m.wait))
            && (o == Done && m.hold == 1 && m.wait.queue != [] ==>
                  var heir := m.wait.queue[0];
                  && m'.owner == Some(heir) && m'.hold == 1 && m'.original == prio(heir)
                  && m.wait.queue == [heir] + m'.wait.queue && heir in m'.wait.woken && heir !in m'.wait.armed)
  {
    if m.wait.queue != [] { WakeMeaning(m.wait); }
  }

  // ---- One mutex, fixed base priorities ------------------------------------------------------

  /** Only the owner may be above its base priority; it is at least as urgent as everybody waiting;
      and the queue is in order of priority. */
  ghost predicate Alone(m: Mx, prio: Tid -> nat, base: Tid -> nat) {
    && Kept(m)
    && (forall t: Tid | m.owner != Some(t) :: prio(t) == base(t))
    && (m.owner.Some? ==> prio(m.owner.value) <= base(m.owner.value) && m.original == base(m.owner.value))
    && ByPriority(m.wait.queue, prio)
    && (m.owner.Some? ==> forall w | w in m.wait.queue :: prio(m.owner.value) <= prio(w))
  }

  lemma SamePriorities(q: seq<Tid>, prio: Tid -> nat, prio': Tid -> nat)
    requires ByPriority(q, prio) && forall t | t in q :: prio'(t) == prio(t)
    ensures ByPriority(q, prio')
  {
  }

  lemma AloneTake(m: Mx, who: Tid, wait: Wait, prio: Tid -> nat, base: Tid -> nat)
    requires Alone(m, prio, base) && Enabled(m, TakeAct(who, wait))
    ensures var (m', prio', _) := Take(m, who, wait, prio); Alone(m', prio', base)
  {
    hide Sound, Insert, ByPriority;
    ApplyKeeps(m, TakeAct(who, wait), prio);
    if m.value == 0 && m.owner != Some(who) && wait != NoWait {
      var prio' := Inherit(prio, m.owner.value, who);
      SamePriorities(m.wait.queue, prio, prio');
      InsertSorted(m.wait.queue, who, prio');
      BlockMembers(m.wait, who, wait, prio');
    }
  }

  lemma AloneRelease(m: Mx, who: Tid, prio: Tid -> nat, base: Tid -> nat)
    requires Alone(m, prio, base) && Enabled(m, ReleaseAct(who))
    ensures var (m', prio', _) := Release(m, who, prio); Alone(m', prio', base)
  {
    hide Sound;
    ApplyKeeps(m, ReleaseAct(who), prio);
    if m.owner == Some(who) && m.hold == 1 {
      var prio' := Restore(prio, who, m.original);
      SamePriorities(m.wait.queue, prio, prio');
      if m.wait.queue != [] { HeirLeaves(m.wait); }
    }
  }

  lemma AloneExpire(m: Mx, t: Tid, prio: Tid -> nat, base: Tid -> nat)
    requires Alone(m, prio, base) && Enabled(m, Expires(t))
    ensures Alone(m.(wait := Expire(m.wait, t)), prio, base)
  {
    hide Sound;
    ApplyKeeps(m, Expires(t), prio);
    WithoutSorted(m.wait.queue, t, prio);
  }

  ghost predicate Run(ms: seq<Mx>, prios: seq<Tid -> nat>, acts: seq<Action>) {
    && |ms| == |prios| == |acts| + 1
    && forall k | 0 <= k < |acts| ::
         Enabled(ms[k], acts[k]) && (ms[k + 1], prios[k + 1]) == Apply(ms[k], acts[k], prios[k])
  }

  /** In every state of every run with one mutex: the owner is at least as urgent as every waiting
      thread, the waiting threads are queued by priority, and everybody else is at its base priority. */
  lemma {:induction false} PriorityInheritance(ms: seq<Mx>, prios: seq<Tid -> nat>, acts: seq<Action>, base: Tid -> nat)
    requires Run(ms, prios, acts) && ms[0] == FREE && prios[0] == base
    ensures Alone(ms[|acts|], prios[|acts|], base)
  {
    hide Kept, ByPriority, Take, Release;
    if acts == [] {
      FreeAlone(base);
    } else {
      var n := |acts| - 1;
      PriorityInheritance(ms[..n + 1], prios[..n + 1], acts[..n], base);
      StepAlone(ms[n], acts[n], prios[n], base);
    }
  }

  lemma FreeAlone(base: Tid -> nat)
    ensures Alone(FREE, base, base)
  {
  }

  lemma StepAlone(m: Mx, a: Action, prio: Tid -> nat, base: Tid -> nat)
    requires Alone(m, prio, base) && Enabled(m, a)
    ensures var (m', prio') := Apply(m, a, prio); Alone(m', prio', base)
  {
    hide Kept, ByPriority, Take, Release, Consistent;
    match a
    case TakeAct(who, wait) => AloneTake(m, who, wait, prio, base);
    case ReleaseAct(who) => AloneRelease(m, who, prio, base);
    case Returns(t) => ApplyKeeps(m, a, prio);
    case Expires(t) => AloneExpire(m, t, prio, base);
  }

  // ---- Holds -------------------------------------------------------------------------------

  /** What the owner did since it got the mutex: the takes answered with Done, the hand-over being one, and the releases. */
  datatype Tally = Tally(takes: nat, releases: nat)

  function Outcomes(m: Mx, a: Action, prio: Tid -> nat): Option<Outcome>
    requires Enabled(m, a)
  {
    match a
    case TakeAct(who, wait) => Some(Take(m, who, wait, prio).2)
    case ReleaseAct(who) => Some(Release(m, who, prio).2)
    case _ => None
  }

  function Counted(t: Tally, was: Option<Tid>, now: Option<Tid>, a: Action, o: Option<Outcome>): Tally {
    if now.None? then Tally(0, 0)
    else if now != was then Tally(1, 0)
    else if o != Some(Done) then t
    else match a
      case TakeAct(who, _) => if now == Some(who) then t.(takes := t.takes + 1) else t
      case ReleaseAct(who) => if now == Some(who) then t.(releases := t.releases + 1) else t
      case _ => t
  }

  ghost function Tallied(ms: seq<Mx>, prios: seq<Tid -> nat>, acts: seq<Action>): Tally
    requires Run(ms, prios, acts)
  {
    if acts == [] then Tally(0, 0)
    else
      var n := |acts| - 1;
      Counted(Tallied(ms[..n + 1], prios[..n + 1], acts[..n]), ms[n].owner, ms[n + 1].owner, acts[n],
              Outcomes(ms[n], acts[n], prios[n]))
  }

  /** In every run, `hold` is the takes of the owner less its releases; so a mutex leaves its owner exactly at the release
      that balances the takes. */
  lemma {:induction false} HoldsBalance(ms: seq<Mx>, prios: seq<Tid -> nat>, acts: seq<Action>)
    requires Run(ms, prios, acts) && ms[0] == FREE
    ensures Kept(ms[|acts|])
    ensures var t := Tallied(ms, prios, acts); ms[|acts|].hold == t.takes - t.releases
  {
    hide Kept, Apply, Outcomes, Counted;
    if acts == [] {
      FreeKept();
    } else {
      var n := |acts| - 1;
      HoldsBalance(ms[..n + 1], prios[..n + 1], acts[..n]);
      ApplyKeeps(ms[n], acts[n], prios[n]);
      StepBalances(ms[n], acts[n], prios[n], Tallied(ms[..n + 1], prios[..n + 1], acts[..n]));
    }
  }

  lemma FreeKept()
    ensures Kept(FREE)
  {
  }

  lemma StepBalances(m: Mx, a: Action, prio: Tid -> nat, t: Tally)
    requires Kept(m) && Enabled(m, a) && m.hold == t.takes - t.releases
    ensures var m' := Apply(m, a, prio).0; var u := Counted(t, m.owner, m'.owner, a, Outcomes(m, a, prio));
            m'.hold == u.takes - u.releases
  {
    hide Sound, Take, Release;
    ApplyKeeps(m, a, prio);
    match a
    case TakeAct(who, wait) => TakeExactly(m, who, wait, prio);
    case ReleaseAct(who) => ReleaseExactly(m, who, prio); if m.wait.queue != [] { assert m.wait.queue[0] in m.wait.queue; }
    case _ =>
  }

  lemma OwnerChangesExactly(ms: seq<Mx>, prios: seq<Tid -> nat>, acts: seq<Action>, a: Action)
    requires Run(ms, prios, acts) && ms[0] == FREE && Enabled(ms[|acts|], a) && ms[|acts|].owner.Some?
    ensures var m, t := ms[|acts|], Tallied(ms, prios, acts);
            Apply(m, a, prios[|acts|]).0.owner != m.owner <==> a == ReleaseAct(m.owner.value) && t.takes == t.releases + 1
  {
    hide Sound, Take, Release;
    HoldsBalance(ms, prios, acts);
    var m, prio := ms[|acts|], prios[|acts|];
    match a
    case TakeAct(who, wait) => TakeExactly(m, who, wait, prio);
    case ReleaseAct(who) => ReleaseExactly(m, who, prio); if m.wait.queue != [] { assert m.wait.queue[0] in m.wait.queue; }
    case _ =>
  }
}
