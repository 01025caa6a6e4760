/** What every call of the scheduler keeps, over all runs, and the order in which ready threads run. */
module SchedulerTheory {
  import opened Basics
  import opened WaitQueue
  import opened SchedulerSpec

  /** The threads on one list are ready, of that priority, each listed once, and not the current one. */
  ghost predicate ListOk(s: Sched, p: nat)
    requires p < |s.lists|
  {
    && Distinct(s.lists[p])
    && forall t | t in s.lists[p] :: s.stat(t) == Ready && s.prio(t) == p && s.current != Some(t)
  }

  /** A ready thread is on the list of its priority, and no thread but the current one runs. */
  ghost predicate ThreadOk(s: Sched, t: Tid) {
    && s.prio(t) < |s.lists|
    && (s.stat(t) == Ready ==> t in s.lists[s.prio(t)])
    && (s.stat(t) == Running ==> s.current == Some(t))
    && 1 <= s.remaining(t) <= s.init(t)
  }

  ghost predicate Inv(s: Sched) {
    && (forall p | 0 <= p < |s.lists| :: ListOk(s, p))
    && (forall t: Tid :: ThreadOk(s, t))
  }

  /** No ready thread is more urgent than the running one. */
  ghost predicate Settled(s: Sched) {
    && s.current.Some? && s.stat(s.current.value) == Running
    && forall t: Tid | s.stat(t) == Ready :: s.prio(s.current.value) <= s.prio(t)
  }

  // ---- Lists -------------------------------------------------------------------------------

  /** A thread that is ready nowhere goes on the list of its priority. */
  lemma EnlistKeeps(s: Sched, t: Tid)
    requires (forall p | 0 <= p < |s.lists| :: ListOk(s, p)) && (forall x: Tid | x != t :: ThreadOk(s, x))
    requires s.prio(t) < |s.lists| && 1 <= s.remaining(t) <= s.init(t)
    requires s.stat(t) != Ready
    ensures Inv(Enlist(s, t))
    ensures s.current != Some(t) ==>
              forall p | 0 <= p < |s.lists| ::
                Enlist(s, t).lists[p] == if p == s.prio(t) then s.lists[p] + [t] else s.lists[p]
  {
    var r := Enlist(s, t);
    var p := s.prio(t);
    assert ListOk(s, p);
    assert forall q | 0 <= q < |s.lists| :: t !in s.lists[q] by {
      forall q | 0 <= q < |s.lists| ensures t !in s.lists[q] { assert ListOk(s, q); }
    }
    AppendDistinct(s.lists[p], t);
    forall q | 0 <= q < |r.lists| ensures ListOk(r, q) { assert ListOk(s, q); }
    forall x: Tid ensures ThreadOk(r, x) {
      if x != t { assert ThreadOk(s, x); }
    }
  }

  /** A thread that is not ready any more, or is going to be put elsewhere, leaves its list. */
  lemma DelistKeeps(s: Sched, t: Tid, v: Stat)
    requires Inv(s) && v != Ready && (v == Running ==> s.current == Some(t))
    ensures var r := Delist(s, t); Inv(r.(stat := SetStat(r.stat, t, v)))
    ensures forall p | 0 <= p < |s.lists| ::
              Delist(s, t).lists[p] == if p == s.prio(t) then Without(s.lists[p], t) else s.lists[p]
  {
    assert ThreadOk(s, t);
    var p := s.prio(t);
    var r := Delist(s, t).(stat := SetStat(s.stat, t, v));
    assert ListOk(s, p);
    WithoutDistinct(s.lists[p], t);
    forall q | 0 <= q < |r.lists| ensures ListOk(r, q) {
      assert ListOk(s, q);
    }
    forall x: Tid ensures ThreadOk(r, x) { assert ThreadOk(s, x); }
  }

  lemma NotListed(s: Sched, t: Tid)
    requires Inv(s) && s.stat(t) != Ready
    ensures s.prio(t) < |s.lists| && t !in s.lists[s.prio(t)]
    ensures Delist(s, t) == s
  {
    assert ThreadOk(s, t);
    assert ListOk(s, s.prio(t));
    WithoutNone(s.lists[s.prio(t)], t);
  }

  /** Where the most urgent ready threads are. */
  lemma HighestReady(s: Sched)
    requires Inv(s)
    ensures Highest(s.lists) == |s.lists| <==> forall t: Tid :: s.stat(t) != Ready
    ensures forall t: Tid | s.stat(t) == Ready :: Highest(s.lists) <= s.prio(t)
    ensures Highest(s.lists) < |s.lists| ==>
              var to := s.lists[Highest(s.lists)][0]; s.stat(to) == Ready && s.prio(to) == Highest(s.lists) && s.current != Some(to)
  {
    var p := Highest(s.lists);
    forall t: Tid | s.stat(t) == Ready ensures p <= s.prio(t) && p < |s.lists| {
      assert ThreadOk(s, t);
    }
    if p < |s.lists| {
      assert ListOk(s, p);
      assert s.lists[p][0] in s.lists[p];
    }
  }

  // ---- rt_schedule -------------------------------------------------------------------------

  lemma StaysKeeps(s: Sched)
    requires Inv(s) && s.current.Some? && s.lock == 0
    requires Highest(s.lists) < |s.lists| && Stays(s, Highest(s.lists))
    ensures Schedule(s) == s.(yielding := s.yielding - {s.current.value}, stat := SetStat(s.stat, s.current.value, Running))
    ensures Inv(Schedule(s)) && Settled(Schedule(s))
  {
    var c := s.current.value;
    var cleared := s.(yielding := s.yielding - {c});
    assert Inv(cleared) by { SameThreads(s, cleared); }
    NotListed(cleared, c);
    HighestReady(s);
    var r := Schedule(s);
    SameThreads(s, r);
  }

  /** The invariant does not depend on the yield flags, or on the lock. */
  lemma SameThreads(s: Sched, r: Sched)
    requires Inv(s) && r.lists == s.lists && r.current == s.current && r.prio == s.prio && r.init == s.init
    requires r.remaining == s.remaining && forall t: Tid :: r.stat(t) == s.stat(t)
    ensures Inv(r)
  {
    forall p | 0 <= p < |r.lists| ensures ListOk(r, p) { assert ListOk(s, p); }
    forall t: Tid ensures ThreadOk(r, t) { assert ThreadOk(s, t); }
  }

  /** The state between the choice of another thread and its removal from its list: that thread is
      already the current one, and still listed. */
  lemma SwitchKeeps(s: Sched)
    requires Inv(s) && s.current.Some? && s.lock == 0
    requires Highest(s.lists) < |s.lists| && !Stays(s, Highest(s.lists))
    ensures var r := Schedule(s); var p, c := Highest(s.lists), s.current.value; var to := s.lists[p][0];
            && Inv(r) && Settled(r) && r.current == Some(to) && to != c
            && r.prio == s.prio && r.init == s.init && r.remaining == s.remaining && r.lock == s.lock && |r.lists| == |s.lists|
            && (s.stat(c) == Running ==> s.prio(c) < |s.lists| && s.prio(c) >= p && r.stat(c) == Ready)
            && r.lists[p] == s.lists[p][1..] + (if s.stat(c) == Running && s.prio(c) == p then [c] else [])
            && (forall q | 0 <= q < |s.lists| && q != p ::
                  r.lists[q] == s.lists[q] + (if s.stat(c) == Running && s.prio(c) == q then [c] else []))
  {
    var p, c := Highest(s.lists), s.current.value;
    var to := s.lists[p][0];
    HighestReady(s);
    assert ListOk(s, p) && to in s.lists[p] && to != c;
    var cleared := if s.stat(c) == Running then s.(yielding := s.yielding - {c}) else s;
    var off := Delist(cleared, to).(stat := SetStat(s.stat, to, Suspended));
    SameThreads(s, cleared);
    DelistKeeps(cleared, to, Suspended);
    FirstAway(s.lists[p]);
    var turned := off.(current := Some(to), stat := SetStat(s.stat, to, Running));
    TurnKeeps(cleared, off, turned, c, to);
    if s.stat(c) == Running {
      assert ThreadOk(s, c);
      EnlistKeeps(turned, c);
      OtherOrder(cleared, c, to);
    } else {
      NoneElse(turned, c);
    }
    FinishSwitch(s, cleared, turned, c, to);
  }

  lemma FirstAway(q: seq<Tid>)
    requires Distinct(q) && q != []
    ensures Without(q, q[0]) == q[1..]
  {
    WithoutAt(q, 0);
  }

  lemma TurnKeeps(s: Sched, off: Sched, turned: Sched, c: Tid, to: Tid)
    requires Inv(s) && Inv(off) && s.current == Some(c) && to != c && s.stat(to) == Ready
    requires off.current == Some(c) && off.lists == turned.lists && off.prio == turned.prio && off.init == turned.init
    requires off.remaining == turned.remaining && turned.current == Some(to)
    requires forall t: Tid :: off.stat(t) == if t == to then Suspended else s.stat(t)
    requires forall t: Tid :: turned.stat(t) == if t == to then Running else s.stat(t)
    ensures (forall p | 0 <= p < |turned.lists| :: ListOk(turned, p)) && (forall x: Tid | x != c :: ThreadOk(turned, x))
    ensures turned.prio(c) < |turned.lists| && 1 <= turned.remaining(c) <= turned.init(c)
    ensures s.stat(c) != Running ==> ThreadOk(turned, c)
  {
    forall p | 0 <= p < |turned.lists| ensures ListOk(turned, p) { assert ListOk(off, p); }
    forall x: Tid | x != c || s.stat(c) != Running ensures ThreadOk(turned, x) { assert ThreadOk(off, x) && ThreadOk(s, x); }
    assert ThreadOk(off, c);
  }

  lemma NoneElse(turned: Sched, c: Tid)
    requires (forall p | 0 <= p < |turned.lists| :: ListOk(turned, p)) && (forall x: Tid | x != c :: ThreadOk(turned, x))
    requires ThreadOk(turned, c)
    ensures Inv(turned)
  {
  }

  /** Appending one thread and removing another may be done in either order. */
  lemma OtherOrder(s: Sched, c: Tid, to: Tid)
    requires to != c && s.prio(c) < |s.lists| && s.prio(to) < |s.lists|
    ensures Without(s.lists[s.prio(to)] + [c], to) == Without(s.lists[s.prio(to)], to) + [c]
  {
    WithoutAppend(s.lists[s.prio(to)], c, to);
  }

  lemma {:induction false} WithoutAppend(q: seq<Tid>, c: Tid, to: Tid)
    requires c != to
    ensures Without(q + [c], to) == Without(q, to) + [c]
  {
    if q == [] {
      assert [c][1..] == [];
      assert [] + [c] == [c];
    } else {
      assert (q + [c])[1..] == q[1..] + [c];
      WithoutAppend(q[1..], c, to);
    }
  }

  lemma FinishSwitch(s: Sched, cleared: Sched, turned: Sched, c: Tid, to: Tid)
    requires Inv(s) && s.current == Some(c) && s.lock == 0 && to != c
    requires Highest(s.lists) < |s.lists| && !Stays(s, Highest(s.lists)) && to == s.lists[Highest(s.lists)][0]
    requires s.prio(to) == Highest(s.lists) && Without(s.lists[s.prio(to)], to) == s.lists[s.prio(to)][1..]
    requires cleared == if s.stat(c) == Running then s.(yielding := s.yielding - {c}) else s
    requires turned == Delist(cleared, to).(current := Some(to), stat := SetStat(s.stat, to, Running))
    requires s.stat(c) == Running ==>
               && Inv(Enlist(turned, c)) && s.prio(c) < |s.lists|
               && Without(s.lists[s.prio(to)] + [c], to) == Without(s.lists[s.prio(to)], to) + [c]
    requires s.stat(c) != Running ==> Inv(turned)
    requires forall t: Tid | s.stat(t) == Ready :: Highest(s.lists) <= s.prio(t)
    ensures var r := Schedule(s); var p := Highest(s.lists);
            && Inv(r) && Settled(r) && r.current == Some(to)
            && r.prio == s.prio && r.init == s.init && r.remaining == s.remaining && r.lock == s.lock && |r.lists| == |s.lists|
            && (s.stat(c) == Running ==> s.prio(c) >= p && r.stat(c) == Ready)
            && r.lists[p] == s.lists[p][1..] + (if s.stat(c) == Running && s.prio(c) == p then [c] else [])
            && (forall q | 0 <= q < |s.lists| && q != p ::
                  r.lists[q] == s.lists[q] + (if s.stat(c) == Running && s.prio(c) == q then [c] else []))
  {
    var r := Schedule(s);
    var goal := if s.stat(c) == Running then Enlist(turned, c) else turned;
    assert r.lists == goal.lists;
    assert forall t: Tid :: r.stat(t) == goal.stat(t);
    SameThreads(goal, r);
  }

  /** After rt_schedule, unless the scheduler is locked or nothing else can run: the invariant holds,
      and no ready thread is more urgent than the running one. */
  lemma ScheduleMeaning(s: Sched)
    requires Inv(s) && s.current.Some?
    ensures Inv(Schedule(s)) && Schedule(s).current.Some?
    ensures s.lock == 0 && (s.stat(s.current.value) == Running || exists t: Tid :: s.stat(t) == Ready) ==> Settled(Schedule(s))
  {
    HighestReady(s);
    if s.lock == 0 && Highest(s.lists) < |s.lists| {
      if Stays(s, Highest(s.lists)) { StaysKeeps(s); } else { SwitchKeeps(s); }
    }
  }

  /** A thread that is never suspended, as the idle thread, is enough for that. */
  lemma IdleSuffices(s: Sched, idle: Tid)
    requires Inv(s) && s.current.Some? && s.lock == 0 && (s.stat(idle) == Ready || s.stat(idle) == Running)
    ensures Settled(Schedule(s))
  {
    assert ThreadOk(s, idle);
    ScheduleMeaning(s);
  }

  /** The first thread to run is one of the most urgent ones. */
  lemma BeginKeeps(s: Sched)
    requires Inv(s) && s.current == None && Highest(s.lists) < |s.lists|
    ensures Inv(Begin(s)) && Settled(Begin(s))
  {
    var p := Highest(s.lists);
    var to := s.lists[p][0];
    HighestReady(s);
    DelistKeeps(s, to, Suspended);
    var off := Delist(s, to).(stat := SetStat(s.stat, to, Suspended));
    var r := Begin(s);
    forall q | 0 <= q < |r.lists| ensures ListOk(r, q) { assert ListOk(off, q); }
    forall t: Tid ensures ThreadOk(r, t) { assert ThreadOk(off, t) && ThreadOk(s, t); }
  }

  // ---- All calls ---------------------------------------------------------------------------

  datatype Call =
    | StartupCall(t: Tid)
    | ResumeCall(t: Tid)
    | SuspendCall
    | ScheduleCall
    | YieldCall
    | TickCall
    | PriorityCall(t: Tid, p: nat)
    | EnterCall
    | LeaveCall
    | ExitCall

  predicate Enabled(s: Sched, c: Call) {
    && s.current.Some?
    && match c
       case StartupCall(t) => s.stat(t) == Init
       case TickCall => s.remaining(s.current.value) > 0
       case PriorityCall(_, p) => p < |s.lists|
       case _ => true
  }

  function Apply(s: Sched, c: Call): Sched
    requires Enabled(s, c)
  {
    match c
    case StartupCall(t) => Startup(s, t)
    case ResumeCall(t) => Resume(s, t)
    case SuspendCall => SuspendCurrent(s)
    case ScheduleCall => Schedule(s)
    case YieldCall => Yield(s)
    case TickCall => Tick(s)
    case PriorityCall(t, p) => ChangePriority(s, t, p)
    case EnterCall => EnterCritical(s)
    case LeaveCall => ExitCritical(s)
    case ExitCall => Exit(s)
  }

  lemma ResumeKeeps(s: Sched, t: Tid)
    requires Inv(s)
    ensures Inv(Resume(s, t)) && Resume(s, t).current == s.current
  {
    assert ThreadOk(s, t);
    if s.stat(t) == Suspended { EnlistKeeps(s, t); }
  }

  /** A thread that is not ready may be given another state that is not ready either. */
  lemma StatKeeps(s: Sched, t: Tid, v: Stat)
    requires Inv(s) && s.stat(t) != Ready && v != Ready && (v == Running ==> s.current == Some(t))
    ensures Inv(s.(stat := SetStat(s.stat, t, v)))
  {
    var r := s.(stat := SetStat(s.stat, t, v));
    forall p | 0 <= p < |r.lists| ensures ListOk(r, p) { assert ListOk(s, p); }
    forall x: Tid ensures ThreadOk(r, x) { assert ThreadOk(s, x); }
  }

  lemma SuspendKeeps(s: Sched)
    requires Inv(s) && s.current.Some?
    ensures Inv(SuspendCurrent(s)) && SuspendCurrent(s).current == s.current
  {
    var c := s.current.value;
    assert ThreadOk(s, c) && ListOk(s, s.prio(c));
    if s.stat(c) == Ready || s.stat(c) == Running { DelistKeeps(s, c, Suspended); }
  }

  lemma SliceKeeps(s: Sched, c: Tid, left: nat, yielding: set<Tid>)
    requires Inv(s) && 1 <= left <= s.init(c)
    ensures Inv(s.(remaining := Update(s.remaining, c, left), yielding := yielding))
  {
    var r := s.(remaining := Update(s.remaining, c, left), yielding := yielding);
    forall p | 0 <= p < |r.lists| ensures ListOk(r, p) { assert ListOk(s, p); }
    forall x: Tid ensures ThreadOk(r, x) { assert ThreadOk(s, x); }
  }

  lemma PriorityKeeps(s: Sched, t: Tid, p: nat)
    requires Inv(s) && p < |s.lists|
    ensures Inv(ChangePriority(s, t, p)) && ChangePriority(s, t, p).current == s.current
  {
    assert ThreadOk(s, t) && ListOk(s, s.prio(t));
    var set' := s.(prio := Update(s.prio, t, p));
    if s.stat(t) == Ready {
      var off := Delist(s, t);
      DelistKeeps(s, t, Suspended);
      var gone := off.(stat := SetStat(off.stat, t, Suspended));
      var moved := gone.(prio := Update(gone.prio, t, p));
      PrioKeeps(gone, t, p);
      EnlistKeeps(moved, t);
      var r := ChangePriority(s, t, p);
      SameThreads(Enlist(moved, t), r);
    } else {
      PrioKeeps(s, t, p);
    }
  }

  lemma PrioKeeps(s: Sched, t: Tid, p: nat)
    requires Inv(s) && s.stat(t) != Ready && p < |s.lists|
    ensures Inv(s.(prio := Update(s.prio, t, p)))
  {
    var r := s.(prio := Update(s.prio, t, p));
    forall q | 0 <= q < |r.lists| ensures ListOk(r, q) { assert ListOk(s, q); }
    forall x: Tid ensures ThreadOk(r, x) { assert ThreadOk(s, x); }
  }

  lemma ApplyKeeps(s: Sched, c: Call)
    requires Inv(s) && Enabled(s, c)
    ensures Inv(Apply(s, c)) && Apply(s, c).current.Some?
  {
    hide Schedule, Resume, Delist, Enlist, ChangePriority, ListOk, SuspendCurrent;
    match c
    case StartupCall(t) =>
      StatKeeps(s, t, Suspended);
      ResumeKeeps(s.(stat := SetStat(s.stat, t, Suspended)), t);
      ScheduleMeaning(Resume(s.(stat := SetStat(s.stat, t, Suspended)), t));
    case ResumeCall(t) => ResumeKeeps(s, t);
    case SuspendCall => SuspendKeeps(s);
    case ScheduleCall => ScheduleMeaning(s);
    case YieldCall =>
      var t := s.current.value;
      assert ThreadOk(s, t);
      SliceKeeps(s, t, s.init(t), s.yielding + {t});
      ScheduleMeaning(s.(remaining := Update(s.remaining, t, s.init(t)), yielding := s.yielding + {t}));
    case TickCall => TickKeeps(s);
    case PriorityCall(t, p) => PriorityKeeps(s, t, p);
    case EnterCall => SameThreads(s, EnterCritical(s));
    case LeaveCall =>
      if s.lock > 1 {
        SameThreads(s, ExitCritical(s));
      } else {
        SameThreads(s, s.(lock := 0));
        ScheduleMeaning(s.(lock := 0));
      }
    case ExitCall =>
      var t := s.current.value;
      DelistKeeps(s, t, Closed);
      DelistShape(s, t);
      ScheduleMeaning(Delist(s, t).(stat := SetStat(Delist(s, t).stat, t, Closed)));
  }

  lemma DelistShape(s: Sched, t: Tid)
    ensures Delist(s, t) == s.(lists := Delist(s, t).lists)
  {
  }

  lemma TickKeeps(s: Sched)
    requires Inv(s) && s.current.Some? && s.remaining(s.current.value) > 0
    ensures Inv(Tick(s)) && Tick(s).current.Some?
  {
    hide Schedule, ListOk;
    var c := s.current.value;
    assert ThreadOk(s, c);
    var left := s.remaining(c) - 1;
    if left == 0 {
      SliceKeeps(s, c, s.init(c), s.yielding + {c});
      ScheduleMeaning(s.(remaining := Update(s.remaining, c, s.init(c)), yielding := s.yielding + {c}));
    } else {
      SliceKeeps(s, c, left, s.yielding);
    }
  }

  ghost predicate Run(ss: seq<Sched>, calls: seq<Call>) {
    && |ss| == |calls| + 1
    && forall k | 0 <= k < |calls| :: Enabled(ss[k], calls[k]) && ss[k + 1] == Apply(ss[k], calls[k])
  }

  /** In every state of every run the lists hold exactly the ready threads, once, by their priority, the
      running thread is the current one, and every time slice is between one tick and its whole. */
  lemma {:induction false} RunKeeps(ss: seq<Sched>, calls: seq<Call>)
    requires Run(ss, calls) && Inv(ss[0])
    ensures Inv(ss[|calls|])
  {
    hide Inv, Enabled, Apply;
    if calls != [] {
      var n := |calls| - 1;
      RunKeeps(ss[..n + 1], calls[..n]);
      ApplyKeeps(ss[n], calls[n]);
    }
  }

  // ---- The idle thread ---------------------------------------------------------------------

  predicate Awake(s: Sched, t: Tid) {
    s.stat(t) == Ready || s.stat(t) == Running
  }

  /** The call ends in rt_schedule, with the scheduler unlocked. */
  predicate Reschedules(s: Sched, c: Call)
    requires Enabled(s, c)
  {
    match c
    case StartupCall(_) => s.lock == 0
    case ScheduleCall => s.lock == 0
    case YieldCall => s.lock == 0
    case TickCall => s.lock == 0 && s.remaining(s.current.value) == 1
    case LeaveCall => s.lock <= 1
    case ExitCall => s.lock == 0
    case _ => false
  }

  /** The idle thread neither suspends itself nor exits. */
  predicate KeepsIdle(s: Sched, c: Call, idle: Tid) {
    c.SuspendCall? || c.ExitCall? ==> s.current != Some(idle)
  }

  lemma ScheduleAwake(s: Sched, idle: Tid)
    requires Inv(s) && s.current.Some? && Awake(s, idle)
    ensures Awake(Schedule(s), idle) && (s.lock == 0 ==> Settled(Schedule(s)))
  {
    hide Inv, ListOk, ThreadOk, Stays, Delist;
    if s.lock == 0 { IdleSuffices(s, idle); }
    StatOfDelist();
    if s.lock == 0 && Highest(s.lists) < |s.lists| && Stays(s, Highest(s.lists)) { StaysKeeps(s); }
  }

  lemma StatOfDelist()
    ensures forall r, x :: Delist(r, x).stat == r.stat
  {
  }

  lemma IdleStep(s: Sched, c: Call, idle: Tid)
    requires Inv(s) && Enabled(s, c) && Awake(s, idle) && KeepsIdle(s, c, idle)
    ensures Awake(Apply(s, c), idle)
    ensures Reschedules(s, c) ==> Settled(Apply(s, c))
  {
    hide Schedule, Delist, ListOk, Settled;
    StatOfDelist();
    assert ThreadOk(s, idle);
    match c
    case StartupCall(t) =>
      var r := Resume(s.(stat := SetStat(s.stat, t, Suspended)), t);
      StatKeeps(s, t, Suspended);
      ResumeKeeps(s.(stat := SetStat(s.stat, t, Suspended)), t);
      ScheduleAwake(r, idle);
    case ResumeCall(t) =>
    case SuspendCall =>
    case ScheduleCall => ScheduleAwake(s, idle);
    case YieldCall =>
      var t := s.current.value;
      assert ThreadOk(s, t);
      SliceKeeps(s, t, s.init(t), s.yielding + {t});
      ScheduleAwake(s.(remaining := Update(s.remaining, t, s.init(t)), yielding := s.yielding + {t}), idle);
    case TickCall =>
      var t := s.current.value;
      assert ThreadOk(s, t);
      SliceKeeps(s, t, s.init(t), s.yielding + {t});
      ScheduleAwake(s.(remaining := Update(s.remaining, t, s.init(t)), yielding := s.yielding + {t}), idle);
    case PriorityCall(t, p) =>
    case EnterCall =>
    case LeaveCall =>
      if s.lock <= 1 {
        SameThreads(s, s.(lock := 0));
        ScheduleAwake(s.(lock := 0), idle);
      }
    case ExitCall =>
      var t := s.current.value;
      DelistKeeps(s, t, Closed);
      DelistShape(s, t);
      ScheduleAwake(Delist(s, t).(stat := SetStat(Delist(s, t).stat, t, Closed)), idle);
  }

  /** While the idle thread neither suspends itself nor exits, it is always ready or running; so after every reschedule of
      every run with the scheduler unlocked, no ready thread is more urgent than the running one. */
  lemma {:induction false} AlwaysSettled(ss: seq<Sched>, calls: seq<Call>, idle: Tid)
    requires Run(ss, calls) && Inv(ss[0]) && Awake(ss[0], idle)
    requires forall k | 0 <= k < |calls| :: KeepsIdle(ss[k], calls[k], idle)
    ensures Awake(ss[|calls|], idle)
    ensures forall k | 0 <= k < |calls| && Reschedules(ss[k], calls[k]) :: Settled(ss[k + 1])
  {
    hide Inv, Enabled, Apply, Reschedules, Settled, KeepsIdle, Awake;
    if calls != [] {
      var n := |calls| - 1;
      var ts, ds := ss[..n + 1], calls[..n];
      AlwaysSettled(ts, ds, idle);
      RunKeeps(ts, ds);
      IdleStep(ss[n], calls[n], idle);
      forall k | 0 <= k < |calls| && Reschedules(ss[k], calls[k]) ensures Settled(ss[k + 1]) {
        if k < n { assert Reschedules(ts[k], ds[k]) && ss[k + 1] == ts[k + 1]; }
      }
    }
  }

  // ---- Time slices -------------------------------------------------------------------------

  /** When the slice of the running thread is used up, and nobody more urgent is ready, the list of its
      priority rotates by one: its first thread runs, and the running one goes to the end. */
  lemma SliceRotates(s: Sched)
    requires Inv(s) && Settled(s) && s.lock == 0 && s.remaining(s.current.value) == 1
    requires s.prio(s.current.value) < |s.lists| && s.lists[s.prio(s.current.value)] != []
    ensures var c := s.current.value; var p := s.prio(c); var r := Tick(s);
            && r.current == Some(s.lists[p][0]) && r.lists[p] == s.lists[p][1..] + [c] && r.stat(c) == Ready
            && r.remaining(c) == s.init(c)
  {
    var c := s.current.value;
    var p := s.prio(c);
    assert ThreadOk(s, c) && ListOk(s, p);
    var t := s.(remaining := Update(s.remaining, c, s.init(c)), yielding := s.yielding + {c});
    SliceKeeps(s, c, s.init(c), s.yielding + {c});
    HighestReady(s);
    assert s.lists[p][0] in s.lists[p];
    assert Highest(s.lists) == p;
    SwitchKeeps(t);
  }

  /** With nobody else of its priority ready, it runs on, with a whole slice. */
  lemma SliceRenewed(s: Sched)
    requires Inv(s) && Settled(s) && s.lock == 0 && s.remaining(s.current.value) == 1
    requires s.prio(s.current.value) < |s.lists| && s.lists[s.prio(s.current.value)] == []
    ensures var c := s.current.value; var r := Tick(s); r.current == Some(c) && r.stat(c) == Running && r.remaining(c) == s.init(c)
    ensures s.current.value !in Tick(s).yielding || forall t: Tid :: s.stat(t) != Ready
  {
    var c := s.current.value;
    assert ThreadOk(s, c);
    var t := s.(remaining := Update(s.remaining, c, s.init(c)), yielding := s.yielding + {c});
    SliceKeeps(s, c, s.init(c), s.yielding + {c});
    HighestReady(s);
    if Highest(s.lists) < |s.lists| {
      assert s.prio(c) <= Highest(s.lists);
      assert s.prio(c) != Highest(s.lists);
      StaysKeeps(t);
    }
  }

  // ---- Round robin ---------------------------------------------------------------------------

  /** The threads listed before `t`. */
  function Before(q: seq<Tid>, t: Tid): (b: seq<Tid>)
    ensures |b| <= |q| && b == q[..|b|]
    ensures t !in b
  {
    if q == [] || q[0] == t then [] else [q[0]] + Before(q[1..], t)
  }

  lemma {:induction false} BeforeWithout(q: seq<Tid>, t: Tid, y: Tid)
    requires y != t
    ensures Before(Without(q, y), t) == Without(Before(q, t), y)
  {
    if q != [] {
      BeforeWithout(q[1..], t, y);
      if q[0] != t {
        var b, w := Before(q[1..], t), Without(q[1..], y);
        assert ([q[0]] + b)[1..] == b && ([q[0]] + w)[1..] == w;
      } else {
        assert ([q[0]] + Without(q[1..], y))[0] == t;
      }
    }
  }

  lemma {:induction false} BeforeAppend(q: seq<Tid>, t: Tid, c: seq<Tid>)
    requires t in q
    ensures Before(q + c, t) == Before(q, t)
  {
    if q[0] != t {
      assert (q + c)[1..] == q[1..] + c;
      BeforeAppend(q[1..], t, c);
    }
  }

  lemma BeforeTail(q: seq<Tid>, t: Tid)
    requires q != [] && q[0] != t
    ensures Before(q, t) == [q[0]] + Before(q[1..], t)
  {
  }

  /** A ready thread's wait: who is before it on its list. */
  function Ahead(s: Sched, t: Tid): seq<Tid> {
    if s.prio(t) < |s.lists| then Before(s.lists[s.prio(t)], t) else []
  }

  /** The step puts a thread of priority `p` that was ready on the processor. */
  predicate Dispatches(s: Sched, r: Sched, p: nat) {
    r.current != s.current && r.current.Some? && p < |s.lists| && r.current.value in s.lists[p]
  }

  /** Nobody gets ahead of a ready thread, and a dispatch from its list brings it nearer. */
  ghost predicate Nearer(s: Sched, r: Sched, t: Tid) {
    && |Ahead(r, t)| <= |Ahead(s, t)|
    && (forall x | x in Ahead(r, t) :: x in Ahead(s, t))
    && (Dispatches(s, r, s.prio(t)) ==> |Ahead(r, t)| < |Ahead(s, t)|)
  }

  /** Nobody gets ahead when another thread leaves the list. */
  lemma DelistNearer(s: Sched, r: Sched, t: Tid, y: Tid)
    requires r.lists == Delist(s, y).lists && y != t && r.prio(t) == s.prio(t) && r.current == s.current
    ensures Nearer(s, r, t)
  {
    if s.prio(t) < |s.lists| { BeforeWithout(s.lists[s.prio(t)], t, y); }
  }

  lemma EnlistNearer(s: Sched, r: Sched, t: Tid, y: Tid)
    requires r.lists == Enlist(s, y).lists && r.prio(t) == s.prio(t) && r.current == s.current
    requires s.prio(t) < |s.lists| && t in s.lists[s.prio(t)]
    ensures Nearer(s, r, t)
  {
    BeforeAppend(s.lists[s.prio(t)], t, [y]);
  }

  lemma SameNearer(s: Sched, r: Sched, t: Tid)
    requires r.lists == s.lists && r.prio(t) == s.prio(t) && r.current == s.current
    ensures Nearer(s, r, t)
  {
  }

  lemma ScheduleNearer(s: Sched, t: Tid)
    requires Inv(s) && s.current.Some? && s.stat(t) == Ready && Schedule(s).stat(t) == Ready
    ensures Nearer(s, Schedule(s), t) && Schedule(s).prio(t) == s.prio(t)
  {
    var r := Schedule(s);
    assert ThreadOk(s, t);
    var p := Highest(s.lists);
    HighestReady(s);
    if s.lock > 0 || p == |s.lists| {
    } else if Stays(s, p) {
      StaysKeeps(s);
    } else {
      SwitchKeeps(s);
      SwitchNearer(s, r, t);
    }
  }

  lemma SwitchNearer(s: Sched, r: Sched, t: Tid)
    requires Inv(s) && s.stat(t) == Ready && s.current.Some? && Highest(s.lists) < |s.lists|
    requires r.prio == s.prio && |r.lists| == |s.lists| && s.prio(t) < |s.lists| && t in s.lists[s.prio(t)]
    requires var p, c := Highest(s.lists), s.current.value; var to := s.lists[p][0];
             && to != t && r.current == Some(to) && s.prio(to) == p && s.stat(to) == Ready
             && r.lists[p] == s.lists[p][1..] + (if s.stat(c) == Running && s.prio(c) == p then [c] else [])
             && (forall q | 0 <= q < |s.lists| && q != p ::
                   r.lists[q] == s.lists[q] + (if s.stat(c) == Running && s.prio(c) == q then [c] else []))
    ensures Nearer(s, r, t)
  {
    var p, q, c := Highest(s.lists), s.prio(t), s.current.value;
    var more := if s.stat(c) == Running && s.prio(c) == q then [c] else [];
    if q == p {
      BeforeTail(s.lists[p], t);
      assert t in s.lists[p][1..] by { assert s.lists[p] == [s.lists[p][0]] + s.lists[p][1..]; }
      BeforeAppend(s.lists[p][1..], t, more);
    } else {
      BeforeAppend(s.lists[q], t, more);
      assert ListOk(s, q);
    }
  }

  lemma NearerTrans(s: Sched, m: Sched, r: Sched, t: Tid)
    requires Nearer(s, m, t) && Nearer(m, r, t) && m.current == s.current && m.prio(t) == s.prio(t)
    requires |m.lists| == |s.lists| && s.prio(t) < |s.lists| && forall x | x in s.lists[s.prio(t)] :: x in m.lists[s.prio(t)]
    ensures Nearer(s, r, t)
  {
    hide Ahead;
  }

  /** A priority change of another thread lets nobody ahead. */
  lemma PriorityNearer(s: Sched, t: Tid, y: Tid, p: nat)
    requires Inv(s) && p < |s.lists| && y != t && s.stat(t) == Ready
    ensures Nearer(s, ChangePriority(s, y, p), t)
  {
    assert ThreadOk(s, t) && ThreadOk(s, y);
    assert ListOk(s, s.prio(y));
    if s.stat(y) == Ready {
      var off := Delist(s, y);
      var moved := off.(prio := Update(off.prio, y, p));
      DelistNearer(s, moved, t, y);
      EnlistNearer(moved, ChangePriority(s, y, p), t, y);
    }
  }

  /** Starting a thread puts it behind all ready threads of its priority. */
  lemma StartupNearer(s: Sched, t: Tid, y: Tid)
    requires Inv(s) && s.current.Some? && s.stat(y) == Init && s.stat(t) == Ready && Startup(s, y).stat(t) == Ready
    ensures Nearer(s, Startup(s, y), t)
  {
    hide Schedule, Ahead, Before;
    var s1 := s.(stat := SetStat(s.stat, y, Suspended));
    var m := Resume(s1, y);
    assert ThreadOk(s, t) && ThreadOk(s, y);
    StatKeeps(s, y, Suspended);
    ResumeKeeps(s1, y);
    EnlistNearer(s1, m, t, y);
    SameNearer(s, s1, t);
    assert m.stat(t) == Ready;
    ScheduleNearer(m, t);
    NearerTrans(s, s1, m, t);
    NearerTrans(s, m, Schedule(m), t);
  }

  lemma LeaveNearer(s: Sched, m: Sched, t: Tid)
    requires Inv(s) && Inv(m) && s.current.Some? && m.current == s.current && m.lists == s.lists && m.prio == s.prio
    requires s.stat(t) == Ready && m.stat(t) == Ready && Schedule(m).stat(t) == Ready
    ensures Nearer(s, Schedule(m), t)
  {
    hide Schedule, Ahead, Before;
    assert ThreadOk(s, t);
    SameNearer(s, m, t);
    ScheduleNearer(m, t);
    NearerTrans(s, m, Schedule(m), t);
  }

  lemma TickNearer(s: Sched, t: Tid, r: Sched)
    requires Inv(s) && s.current.Some? && s.stat(t) == Ready && r.stat(t) == Ready && s.remaining(s.current.value) > 0
    requires r == Tick(s) || r == Yield(s)
    ensures Nearer(s, r, t)
  {
    hide Schedule, Ahead, Before;
    var c := s.current.value;
    assert ThreadOk(s, c);
    var m := s.(remaining := Update(s.remaining, c, s.init(c)), yielding := s.yielding + {c});
    SliceKeeps(s, c, s.init(c), s.yielding + {c});
    if r == Schedule(m) { LeaveNearer(s, m, t); } else { SameNearer(s, r, t); }
  }

  lemma ExitNearer(s: Sched, t: Tid)
    requires Inv(s) && s.current.Some? && s.stat(t) == Ready && Exit(s).stat(t) == Ready
    ensures Nearer(s, Exit(s), t)
  {
    hide Schedule, Ahead, Before;
    var c := s.current.value;
    assert ThreadOk(s, t) && ThreadOk(s, c);
    assert ListOk(s, s.prio(c));
    assert s.stat(c) != Ready;
    NotListed(s, c);
    StatKeeps(s, c, Closed);
    LeaveNearer(s, s.(stat := SetStat(s.stat, c, Closed)), t);
  }

  /** Round robin: no call lets a thread overtake one that stays ready at its priority. */
  lemma NobodyOvertakes(s: Sched, a: Call, t: Tid)
    requires Inv(s) && Enabled(s, a) && s.stat(t) == Ready && Apply(s, a).stat(t) == Ready
    requires a.PriorityCall? ==> a.t != t
    ensures Nearer(s, Apply(s, a), t)
  {
    hide Schedule, Resume, Delist, Enlist, ChangePriority, ListOk, Ahead, Startup, Exit, Tick, Yield;
    match a
    case StartupCall(y) => StartupNearer(s, t, y);
    case ResumeCall(y) => ResumeNearer(s, t, y);
    case SuspendCall => SuspendNearer(s, t);
    case ScheduleCall => ScheduleNearer(s, t);
    case YieldCall => YieldReady(s); TickNearer(s, t, Apply(s, a));
    case TickCall => TickNearer(s, t, Apply(s, a));
    case PriorityCall(y, p) => PriorityNearer(s, t, y, p);
    case EnterCall => SameNearer(s, Apply(s, a), t);
    case LeaveCall =>
      if s.lock > 1 {
        SameNearer(s, Apply(s, a), t);
      } else {
        SameThreads(s, s.(lock := 0));
        LeaveNearer(s, s.(lock := 0), t);
      }
    case ExitCall => ExitNearer(s, t);
  }

  lemma YieldReady(s: Sched)
    requires Inv(s) && s.current.Some?
    ensures s.remaining(s.current.value) > 0
  {
    assert ThreadOk(s, s.current.value);
  }

  lemma ResumeNearer(s: Sched, t: Tid, y: Tid)
    requires Inv(s) && s.stat(t) == Ready
    ensures Nearer(s, Resume(s, y), t)
  {
    assert ThreadOk(s, t);
    if s.stat(y) == Suspended { EnlistNearer(s, Resume(s, y), t, y); } else { SameNearer(s, s, t); }
  }

  lemma SuspendNearer(s: Sched, t: Tid)
    requires Inv(s) && s.current.Some? && s.stat(t) == Ready
    ensures Nearer(s, SuspendCurrent(s), t)
  {
    assert ThreadOk(s, t);
    assert ListOk(s, s.prio(t));
    DelistNearer(s, SuspendCurrent(s).(lists := Delist(s, s.current.value).lists), t, s.current.value);
    SameNearer(s, s, t);
  }

  /** The dispatches of priority `p` in a run. */
  function Dispatched(ss: seq<Sched>, p: nat): nat {
    if |ss| < 2 then 0
    else Dispatched(ss[..|ss| - 1], p) + if Dispatches(ss[|ss| - 2], ss[|ss| - 1], p) then 1 else 0
  }

  /** So a thread that stays ready waits for at most as many dispatches from its list as there were
      threads before it. */
  lemma {:induction false} BoundedWait(ss: seq<Sched>, calls: seq<Call>, t: Tid, p: nat)
    requires Run(ss, calls) && Inv(ss[0])
    requires forall k | 0 <= k < |ss| :: ss[k].stat(t) == Ready && ss[k].prio(t) == p
    requires forall k | 0 <= k < |calls| && calls[k].PriorityCall? :: calls[k].t != t
    ensures Dispatched(ss, p) + |Ahead(ss[|calls|], t)| <= |Ahead(ss[0], t)|
  {
    hide Inv, Enabled, Apply, Ahead, Dispatches;
    if calls != [] {
      var n := |calls| - 1;
      BoundedWait(ss[..n + 1], calls[..n], t, p);
      RunKeeps(ss[..n + 1], calls[..n]);
      assert ss[n].stat(t) == Ready && ss[n].prio(t) == p && ss[n + 1].stat(t) == Ready;
      NobodyOvertakes(ss[n], calls[n], t);
      assert ss[..|ss| - 1] == ss[..n + 1];
    }
  }
}
