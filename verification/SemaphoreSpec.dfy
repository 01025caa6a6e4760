/** What the semaphore calls (ipc.c) do, on values, and what all runs of them keep. */
module SemaphoreSpec {
  import opened Basics
  import opened WaitQueue

  /** A woken thread has been handed a unit, and returns RT_EOK as soon as it runs. */
  datatype Sem = Sem(value: nat, wait: Waiters)

  datatype Outcome = Done | TimedOut | Full | Blocked

  function Take(s: Sem, who: Option<Tid>, wait: Wait, flag: Flag, prio: Tid -> nat): (Sem, Outcome)
    requires wait != NoWait ==> who.Some?
  {
    if s.value > 0 then (s.(value := s.value - 1), Done)
    else if wait == NoWait then (s, TimedOut)
    else (s.(wait := Block(s.wait, who.value, flag, wait, prio)), Blocked)
  }

  function Release(s: Sem): (Sem, Outcome) {
    if s.wait.queue != [] then (s.(wait := WakeFirst(s.wait)), Done)
    else if s.value < UINT16_MAX then (s.(value := s.value + 1), Done)
    else (s, Full)
  }

  /** rt_sem_control with RT_IPC_CMD_RESET; the value is cut to 16 bits. */
  function Reset(s: Sem, value: nat): Sem {
    Sem(value % (UINT16_MAX + 1), Dismiss(s.wait))
  }

  /** A take gets a unit exactly when there is one; else it times out at once, or queues, and no unit is lost. */
  lemma TakeExactly(s: Sem, who: Option<Tid>, wait: Wait, flag: Flag, prio: Tid -> nat)
    requires Sound(s.wait) && (wait != NoWait ==> who.Some?) && (who.Some? ==> who.value !in s.wait.queue)
    ensures var (s', o) := Take(s, who, wait, flag, prio);
            && (o == Done <==> s.value > 0) && (o == TimedOut <==> s.value == 0 && wait == NoWait)
            && (o == Blocked <==> s.value == 0 && wait != NoWait)
            && s'.value == s.value - (if o == Done then 1 else 0)
            && (o != Blocked ==> s'.wait == s.wait)
            && (o == Blocked ==>
                  && Without(s'.wait.queue, who.value) == s.wait.queue && who.value in s'.wait.queue
                  && (who.value in s'.wait.armed <==> wait == Timed))
  {
    hide Block;
    if s.value == 0 && wait != NoWait { BlockMeaning(s.wait, who.value, flag, wait, prio); }
  }

  /** A release goes to the first thread that waits, else into the value, and is refused only when that is full. */
  lemma ReleaseExactly(s: Sem)
    requires Sound(s.wait)
    ensures var (s', o) := Release(s);
            && (o == Full <==> s.wait.queue == [] && s.value >= UINT16_MAX) && (o == Done <==> o != Full)
            && (s.wait.queue != [] ==>
                  s'.value == s.value && s.wait.queue == [s.wait.queue[0]] + s'.wait.queue && s.wait.queue[0] in s'.wait.woken)
            && (s.wait.queue == [] ==> s'.wait == s.wait && s'.value == s.value + (if o == Done then 1 else 0))
  {
    WakeMeaning(s.wait);
  }

  /** A reset leaves the value given, in 16 bits, and nobody waiting. */
  lemma ResetExactly(s: Sem, to: nat)
    requires Sound(s.wait)
    ensures (Reset(s, to).value - to) % 65536 == 0 && Reset(s, to).value < 65536
    ensures Reset(s, to).wait.queue == [] && Reset(s, to).wait.armed == {} && Reset(s, to).wait.woken == s.wait.woken
  {
    DismissMeaning(s.wait);
  }

  datatype Action =
    | TakeAct(who: Option<Tid>, wait: Wait)
    | ReleaseAct
    | Returns(t: Tid)
    | Expires(t: Tid)
    | ResetAct(to: nat)

  predicate Enabled(s: Sem, a: Action) {
    match a
    case TakeAct(who, wait) =>
      && (wait != NoWait ==> who.Some?)
      && (who.Some? ==> who.value !in s.wait.queue && who.value !in s.wait.woken)
    case Returns(t) => t in s.wait.woken
    case Expires(t) => t in s.wait.armed
    case _ => true
  }

  function Apply(s: Sem, a: Action, flag: Flag, prio: Tid -> nat): (Sem, Outcome)
    requires Enabled(s, a)
  {
    match a
    case TakeAct(who, wait) => Take(s, who, wait, flag, prio)
    case ReleaseAct => Release(s)
    case Returns(t) => (s.(wait := Enter(s.wait, t)), Done)
    case Expires(t) => (s.(wait := Expire(s.wait, t)), TimedOut)
    case ResetAct(to) => (Reset(s, to), Done)
  }

  /** A thread queues only while there is no unit to take. */
  ghost predicate Kept(s: Sem) {
    && s.value <= UINT16_MAX
    && (s.value > 0 ==> s.wait.queue == [])
    && Sound(s.wait)
  }

  /** The units a step brings in. */
  function Gives(a: Action, o: Outcome): nat {
    if a.ReleaseAct? && o == Done then 1 else 0
  }

  /** The takes a step completes: at once, or by the return of a thread that was handed a unit. */
  function Takes(a: Action, o: Outcome): nat {
    if (a.TakeAct? || a.Returns?) && o == Done then 1 else 0
  }

  /** Units in the semaphore, and units handed to threads that have not returned yet. */
  function Units(s: Sem): nat {
    s.value + |s.wait.woken|
  }

  lemma ApplyKeeps(s: Sem, a: Action, flag: Flag, prio: Tid -> nat)
    requires Kept(s) && Enabled(s, a)
    ensures var (s', o) := Apply(s, a, flag, prio);
            && Kept(s')
            && (!a.ResetAct? ==> Units(s) + Gives(a, o) == Units(s') + Takes(a, o))
  {
    hide Sound;
    match a
    case TakeAct(who, wait) =>
      if s.value == 0 && wait != NoWait { BlockSound(s.wait, who.value, flag, wait, prio); BlockWoken(s.wait, who.value); }
    case ReleaseAct => WakeSound(s.wait, 0);
    case Returns(t) =>
      EnterSound(s.wait, t);
      assert s.wait.woken == Enter(s.wait, t).woken + {t};
    case Expires(t) => ExpireSound(s.wait, t, 0); ExpireQueued(s.wait, t);
    case ResetAct(_) => DismissSound(s.wait, 0);
  }

  lemma BlockWoken(w: Waiters, who: Tid)
    requires who !in w.woken
    ensures w.woken - {who} == w.woken
  {
  }

  lemma ExpireQueued(w: Waiters, t: Tid)
    requires Sound(w) && t in w.armed
    ensures w.queue != [] && NoneLost(w, 0)
  {
  }

  ghost predicate Run(ss: seq<Sem>, acts: seq<Action>, flag: Flag, prios: seq<Tid -> nat>) {
    && |ss| == |acts| + 1 && |prios| == |acts|
    && forall k | 0 <= k < |acts| ::
         Enabled(ss[k], acts[k]) && ss[k + 1] == Apply(ss[k], acts[k], flag, prios[k]).0
  }

  ghost function Given(ss: seq<Sem>, acts: seq<Action>, flag: Flag, prios: seq<Tid -> nat>): nat
    requires Run(ss, acts, flag, prios)
  {
    if acts == [] then 0
    else
      var n := |acts| - 1;
      Given(ss[..n + 1], acts[..n], flag, prios[..n]) + Gives(acts[n], Apply(ss[n], acts[n], flag, prios[n]).1)
  }

  ghost function Taken(ss: seq<Sem>, acts: seq<Action>, flag: Flag, prios: seq<Tid -> nat>): nat
    requires Run(ss, acts, flag, prios)
  {
    if acts == [] then 0
    else
      var n := |acts| - 1;
      Taken(ss[..n + 1], acts[..n], flag, prios[..n]) + Takes(acts[n], Apply(ss[n], acts[n], flag, prios[n]).1)
  }

  /** Conservation: without a reset, what was there at first and what was released is what is there
      now, what was taken, and what is on its way to a thread. */
  lemma {:induction false} Conserved(ss: seq<Sem>, acts: seq<Action>, flag: Flag, prios: seq<Tid -> nat>)
    requires Run(ss, acts, flag, prios) && Kept(ss[0])
    ensures Kept(ss[|acts|])
    ensures (forall a | a in acts :: !a.ResetAct?) ==>
              Units(ss[0]) + Given(ss, acts, flag, prios) == Units(ss[|acts|]) + Taken(ss, acts, flag, prios)
  {
    hide Apply, Enabled, Kept, Gives, Takes, Units;
    if acts != [] {
      var n := |acts| - 1;
      assert acts[n] in acts && forall x | x in acts[..n] :: x in acts;
      Conserved(ss[..n + 1], acts[..n], flag, prios[..n]);
      ApplyKeeps(ss[n], acts[n], flag, prios[n]);
    }
  }

  // ---- How a wait ends ---------------------------------------------------------------------

  function CauseOf(a: Action): Cause {
    match a
    case ReleaseAct => Resumes
    case Expires(t) => Expiry(t)
    case ResetAct(_) => Dismisses
    case _ => Other
  }

  function Waits(ss: seq<Sem>): (ws: seq<Waiters>)
    ensures |ws| == |ss| && forall k | 0 <= k < |ws| :: ws[k] == ss[k].wait
  {
    seq(|ss|, k requires 0 <= k < |ss| => ss[k].wait)
  }

  function Causes(acts: seq<Action>): (cs: seq<Cause>)
    ensures |cs| == |acts| && forall k | 0 <= k < |cs| :: cs[k] == CauseOf(acts[k])
  {
    seq(|acts|, k requires 0 <= k < |acts| => CauseOf(acts[k]))
  }

  predicate TakeOf(a: Action, t: Tid) {
    a.TakeAct? && a.who == Some(t)
  }

  lemma StepExplained(s: Sem, a: Action, flag: Flag, prio: Tid -> nat, t: Tid)
    requires Kept(s) && Enabled(s, a) && !TakeOf(a, t)
    ensures Explained(s.wait, Apply(s, a, flag, prio).0.wait, CauseOf(a), t)
  {
    hide Sound, Explained, Block, WakeFirst, Dismiss, Expire;
    ChangesExplained(s.wait, t);
    match a
    case TakeAct(who, wait) =>
      if s.value == 0 && wait != NoWait { BlockExplained(s.wait, who.value, flag, wait, prio, t); }
    case Returns(u) => assert Entered(s.wait, Some(u)) == Enter(s.wait, u); ReturnExplained(s.wait, u, t);
    case Expires(u) => ExpireQueued(s.wait, u); assert u in s.wait.queue by { ArmedQueued(s.wait, u); }
    case ReleaseAct => if s.wait.queue == [] { NobodyWoken(s.wait, t); }
    case _ =>
  }

  lemma ReturnExplained(w: Waiters, u: Tid, t: Tid)
    requires Sound(w)
    ensures Explained(w, Enter(w, u), Other, t)
  {
  }

  lemma NobodyWoken(w: Waiters, t: Tid)
    requires w.queue == []
    ensures Explained(w, w, Resumes, t)
  {
  }

  /** A take that blocks is a wait that ends once, before the thread's next take: by a release, its own time-out, or
      a reset; only then does it leave the queue, and it has got its unit exactly when that was a release. */
  lemma WaitEndsOnce(ss: seq<Sem>, acts: seq<Action>, flag: Flag, prios: seq<Tid -> nat>, t: Tid)
    requires Run(ss, acts, flag, prios) && Kept(ss[0]) && acts != []
    requires TakeOf(acts[0], t) && Apply(ss[0], acts[0], flag, prios[0]).1 == Blocked
    requires forall k | 1 <= k < |acts| :: !TakeOf(acts[k], t)
    ensures EndedOnce(Waits(ss[1..]), Causes(acts[1..]), t)
  {
    hide Kept, Explained;
    BlockedQueues(ss[0], acts[0], flag, prios[0], t);
    var later, rest := ss[1..], acts[1..];
    forall k | 0 <= k < |rest| ensures Explained(later[k].wait, later[k + 1].wait, CauseOf(rest[k]), t) {
      Conserved(ss[..k + 2], acts[..k + 1], flag, prios[..k + 1]);
      StepExplained(ss[k + 1], acts[k + 1], flag, prios[k + 1], t);
    }
    WaitQueue.WaitEndsOnce(Waits(later), Causes(rest), t);
  }

  lemma BlockedQueues(s: Sem, a: Action, flag: Flag, prio: Tid -> nat, t: Tid)
    requires Kept(s) && Enabled(s, a) && TakeOf(a, t) && Apply(s, a, flag, prio).1 == Blocked
    ensures t in Apply(s, a, flag, prio).0.wait.queue
  {
    InsertDistinct(s.wait.queue, t, flag, prio);
  }
}
