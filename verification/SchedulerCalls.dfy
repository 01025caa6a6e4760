/** What each call of the scheduler does to the threads, in terms of the state before it, and how slices run out. */
module SchedulerCalls {
  import opened Basics
  import opened WaitQueue
  import opened SchedulerSpec
  import opened SchedulerTheory

  /** Only the state and the place of `t` may differ. */
  ghost predicate OthersStay(s: Sched, r: Sched, t: Tid) {
    && |r.lists| == |s.lists| && (forall x: Tid | x != t :: r.stat(x) == s.stat(x))
    && (forall p, x | 0 <= p < |s.lists| && x != t :: x in r.lists[p] <==> x in s.lists[p])
    && r.init == s.init && r.lock == s.lock
  }

  /** A resumed thread becomes ready, last on the list of its priority; one that was not suspended stays as it is. */
  lemma ResumeExactly(s: Sched, t: Tid)
    requires Inv(s)
    ensures var r := Resume(s, t);
            && OthersStay(s, r, t) && r.current == s.current && r.prio == s.prio && r.remaining == s.remaining
            && (s.stat(t) != Suspended ==> r == s)
            && (s.stat(t) == Suspended && s.current != Some(t) ==>
                  r.stat(t) == Ready && s.prio(t) < |s.lists| && r.lists == s.lists[s.prio(t) := s.lists[s.prio(t)] + [t]])
            && (s.stat(t) == Suspended && s.current == Some(t) ==> r.stat(t) == Running && r.lists == s.lists)
  {
    hide ListOk;
    assert ThreadOk(s, t);
  }

  /** The current thread, if it ran, is suspended and on no list. */
  lemma SuspendExactly(s: Sched)
    requires Inv(s) && s.current.Some?
    ensures var c := s.current.value; var r := SuspendCurrent(s);
            && OthersStay(s, r, c) && r.current == s.current && r.prio == s.prio && r.remaining == s.remaining
            && (s.stat(c) == Running ==> r.stat(c) == Suspended && r.lists == s.lists)
            && (s.stat(c) != Running ==> r == s)
  {
    hide ListOk;
    var c := s.current.value;
    assert ThreadOk(s, c);
    CurrentNotReady(s);
    NotListed(s, c);
  }

  lemma CurrentNotReady(s: Sched)
    requires Inv(s) && s.current.Some?
    ensures s.stat(s.current.value) != Ready
  {
    var c := s.current.value;
    assert ThreadOk(s, c);
    assert ListOk(s, s.prio(c));
  }

  /** Changing a priority moves a ready thread to the end of its new list, and moves nobody else. */
  lemma PriorityExactly(s: Sched, t: Tid, p: nat)
    requires Inv(s) && p < |s.lists|
    ensures var r := ChangePriority(s, t, p);
            && OthersStay(s, r, t) && r.current == s.current && r.remaining == s.remaining && r.stat(t) == s.stat(t)
            && (forall x: Tid :: r.prio(x) == if x == t then p else s.prio(x))
            && (s.stat(t) != Ready ==> r.lists == s.lists)
            && (s.stat(t) == Ready ==>
                  && s.prio(t) < |s.lists| && r.lists[p] == Without(s.lists[p], t) + [t]
                  && (p != s.prio(t) ==> t !in r.lists[s.prio(t)]))
  {
    assert ThreadOk(s, t) && ListOk(s, s.prio(t)) && ListOk(s, p);
    if s.stat(t) == Ready {
      assert s.current != Some(t);
      if p != s.prio(t) { WithoutNone(s.lists[p], t); }
    }
  }

  /** The lock counts, and while it is held no reschedule does anything. */
  lemma LockExactly(s: Sched)
    requires s.current.Some?
    ensures EnterCritical(s) == s.(lock := s.lock + 1) && (s.lock > 0 ==> Schedule(s) == s)
    ensures s.lock > 1 ==> ExitCritical(s) == s.(lock := s.lock - 1)
    ensures s.lock <= 1 ==> ExitCritical(s).lock == 0 && ExitCritical(s) == Schedule(s.(lock := 0))
    ensures ExitCritical(EnterCritical(s)) == if s.lock == 0 then Schedule(s) else s
  {
    ScheduleLock(s.(lock := 0));
    assert s.(lock := s.lock + 1).(lock := s.lock) == s;
  }

  lemma ScheduleLock(s: Sched)
    requires s.current.Some?
    ensures Schedule(s).lock == s.lock
  {
  }

  /** While the scheduler stays locked, the processor stays with its thread, whatever is called. */
  lemma LockedKeeps(s: Sched, c: Call)
    requires Enabled(s, c) && s.lock > 0 && Apply(s, c).lock > 0
    ensures Apply(s, c).current == s.current
  {
    hide Delist, Highest;
    StatOfDelistCurrent();
    LockExactly(s);
    if c.StartupCall? { LockExactly(Resume(s.(stat := SetStat(s.stat, c.t, Suspended)), c.t)); }
  }

  lemma StatOfDelistCurrent()
    ensures forall r, x :: Delist(r, x).current == r.current && Delist(r, x).lock == r.lock && Delist(r, x).remaining == r.remaining
  {
  }

  lemma {:induction false} LockedRun(ss: seq<Sched>, calls: seq<Call>)
    requires Run(ss, calls) && forall k | 0 <= k < |ss| :: ss[k].lock > 0
    ensures ss[|calls|].current == ss[0].current
  {
    hide Apply, Enabled;
    if calls != [] {
      var n := |calls| - 1;
      LockedRun(ss[..n + 1], calls[..n]);
      assert ss[n + 1].lock > 0;
      LockedKeeps(ss[n], calls[n]);
    }
  }

  /** A started thread is ready or runs; with the scheduler unlocked it runs unless one no less urgent does. */
  lemma StartupExactly(s: Sched, t: Tid)
    requires Inv(s) && s.stat(t) == Init && s.current.Some?
    ensures var r := Startup(s, t);
            && (r.stat(t) == Ready || r.stat(t) == Running)
            && (s.lock == 0 ==> Settled(r) && (r.stat(t) == Running || r.prio(r.current.value) <= r.prio(t)))
  {
    hide Schedule, ListOk;
    var m := s.(stat := SetStat(s.stat, t, Suspended));
    StatKeeps(s, t, Suspended);
    ResumeKeeps(m, t);
    ResumeExactly(m, t);
    ScheduleAwake(Resume(m, t), t);
  }

  /** A yield renews the slice, and with peers ready the list of the thread rotates by one. */
  lemma YieldRotates(s: Sched)
    requires Inv(s) && Settled(s) && s.lock == 0
    ensures var c := s.current.value; var p := s.prio(c); var r := Yield(s);
            && p < |s.lists| && r.remaining(c) == s.init(c)
            && (s.lists[p] != [] ==> r.current == Some(s.lists[p][0]) && r.lists[p] == s.lists[p][1..] + [c] && r.stat(c) == Ready)
            && (s.lists[p] == [] ==> r.current == Some(c) && r.stat(c) == Running)
  {
    var c := s.current.value;
    assert ThreadOk(s, c);
    var one := s.(remaining := Update(s.remaining, c, 1));
    SliceKeeps(s, c, 1, s.yielding);
    assert Update(one.remaining, c, s.init(c))(c) == s.init(c);
    assert Settled(one);
    SameButSlice(s, one);
    if s.lists[s.prio(c)] != [] { SliceRotates(one); } else { SliceRenewed(one); }
  }

  /** A yield is an expired slice, whatever was left of it. */
  lemma SameButSlice(s: Sched, one: Sched)
    requires s.current.Some? && one == s.(remaining := Update(s.remaining, s.current.value, 1))
    ensures Yield(s).current == Tick(one).current && Yield(s).lists == Tick(one).lists
    ensures forall t: Tid :: Yield(s).stat(t) == Tick(one).stat(t) && Yield(s).remaining(t) == Tick(one).remaining(t)
  {
    var c := s.current.value;
    var a := s.(remaining := Update(s.remaining, c, s.init(c)), yielding := s.yielding + {c});
    var b := a.(remaining := Update(one.remaining, c, s.init(c)));
    SliceIrrelevant(a, b.remaining);
  }

  lemma SliceIrrelevant(a: Sched, remaining: Tid -> nat)
    requires a.current.Some?
    ensures var b := a.(remaining := remaining);
            Schedule(b) == Schedule(a).(remaining := remaining) && Schedule(a).remaining == a.remaining
  {
    hide Highest, Without;
  }

  /** A thread that exits is closed and on no list; another one runs if the scheduler is unlocked and one is ready. */
  lemma ExitExactly(s: Sched)
    requires Inv(s) && s.current.Some?
    ensures var c := s.current.value; var r := Exit(s);
            && r.stat(c) == Closed && (forall p | 0 <= p < |r.lists| :: c !in r.lists[p])
            && (s.lock == 0 && (exists t: Tid | t != c :: s.stat(t) == Ready) ==> r.current != Some(c) && Settled(r))
  {
    hide Schedule, ListOk, ThreadOk;
    var c := s.current.value;
    CurrentNotReady(s);
    NotListed(s, c);
    DelistKeeps(s, c, Closed);
    var m := s.(stat := SetStat(s.stat, c, Closed));
    ScheduleMeaning(m);
    ClosedStays(m);
    var r := Exit(s);
    forall p | 0 <= p < |r.lists| ensures c !in r.lists[p] {
      assert ListOk(r, p);
      NotOnList(r, c, p);
    }
    if s.lock == 0 && exists t: Tid | t != c :: s.stat(t) == Ready {
      var t: Tid :| t != c && s.stat(t) == Ready;
      assert m.stat(t) == Ready;
    }
  }

  lemma NotOnList(r: Sched, c: Tid, p: nat)
    requires p < |r.lists| && ListOk(r, p) && r.stat(c) != Ready
    ensures c !in r.lists[p]
  {
  }

  lemma ClosedStays(m: Sched)
    requires Inv(m) && m.current.Some? && m.stat(m.current.value) == Closed
    ensures Schedule(m).stat(m.current.value) == Closed
  {
    var p := Highest(m.lists);
    HighestReady(m);
  }

  // ---- Time slices -----------------------------------------------------------------------------

  /** A running thread goes on through a reschedule exactly when nobody more urgent is ready, nor, if it yields, anybody as
      urgent: threads of one priority take turns, and nobody else is preempted. */
  lemma GoesOnExactly(s: Sched)
    requires Inv(s) && s.current.Some? && s.lock == 0 && s.stat(s.current.value) == Running
    ensures var c := s.current.value; var r := Schedule(s);
            r.current == s.current <==>
              forall t: Tid | s.stat(t) == Ready :: s.prio(t) > s.prio(c) || (s.prio(t) == s.prio(c) && c !in s.yielding)
  {
    hide ListOk;
    var p := Highest(s.lists);
    HighestReady(s);
    if p < |s.lists| {
      if Stays(s, p) {
        StaysKeeps(s);
      } else {
        SwitchKeeps(s);
        var to := s.lists[p][0];
        assert s.stat(to) == Ready && s.prio(to) == p;
      }
    }
  }

  /** A tick with more than one left takes one off the running thread's slice and changes nothing else. */
  lemma TickExactly(s: Sched)
    requires s.current.Some? && s.remaining(s.current.value) > 1
    ensures var c := s.current.value; var r := Tick(s);
            && (forall t: Tid :: r.remaining(t) == if t == c then s.remaining(c) - 1 else s.remaining(t))
            && r == s.(remaining := r.remaining)
  {
  }

  function Ticks(calls: seq<Call>): nat {
    if calls == [] then 0 else Ticks(calls[..|calls| - 1]) + (if calls[|calls| - 1].TickCall? then 1 else 0)
  }

  /** Calls other than ticks and yields leave all slices. */
  lemma SlicesStay(s: Sched, c: Call)
    requires Enabled(s, c) && !c.TickCall? && !c.YieldCall?
    ensures Apply(s, c).remaining == s.remaining
  {
    hide Delist, Highest;
    StatOfDelistCurrent();
  }

  /** While a thread is the current one and does not yield, each tick takes one off its slice, whatever else is called. */
  lemma {:induction false} SliceRunsDown(ss: seq<Sched>, calls: seq<Call>, c: Tid)
    requires Run(ss, calls) && Ticks(calls) < ss[0].remaining(c)
    requires forall k | 0 <= k < |calls| :: ss[k].current == Some(c) && !calls[k].YieldCall?
    ensures ss[|calls|].remaining(c) == ss[0].remaining(c) - Ticks(calls)
  {
    hide Apply, Enabled;
    if calls != [] {
      var n := |calls| - 1;
      SliceRunsDown(ss[..n + 1], calls[..n], c);
      if calls[n].TickCall? { TickIs(ss[n]); TickExactly(ss[n]); } else { SlicesStay(ss[n], calls[n]); }
    }
  }

  lemma TickIs(s: Sched)
    requires Enabled(s, TickCall)
    ensures Apply(s, TickCall) == Tick(s)
  {
  }

  /** A thread that runs through as many ticks as it had left: at the last of them, with the scheduler unlocked and nobody
      more urgent ready, the list of its priority rotates by one, or it goes on with a whole slice if it has no peers. */
  lemma SliceRunsOut(ss: seq<Sched>, calls: seq<Call>, c: Tid)
    requires Run(ss, calls) && Inv(ss[0]) && calls != [] && calls[|calls| - 1] == TickCall
    requires forall k | 0 <= k < |calls| :: ss[k].current == Some(c) && !calls[k].YieldCall?
    requires Ticks(calls) == ss[0].remaining(c)
    ensures var s, r := ss[|calls| - 1], ss[|calls|]; var p := s.prio(c);
            && s.remaining(c) == 1
            && (s.lock == 0 && Settled(s) ==>
                  && p < |s.lists| && r.remaining(c) == s.init(c)
                  && (s.lists[p] != [] ==> r.current == Some(s.lists[p][0]) && r.lists[p] == s.lists[p][1..] + [c])
                  && (s.lists[p] == [] ==> r.current == Some(c) && r.stat(c) == Running))
  {
    hide Apply, Enabled, Settled, ListOk;
    var n := |calls| - 1;
    SliceRunsDown(ss[..n + 1], calls[..n], c);
    RunKeeps(ss[..n + 1], calls[..n]);
    var s := ss[n];
    assert ThreadOk(s, c);
    TickIs(s);
    if s.lock == 0 && Settled(s) {
      if s.lists[s.prio(c)] != [] { SliceRotates(s); } else { SliceRenewed(s); }
    }
  }
}
