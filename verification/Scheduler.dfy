/** The uniprocessor scheduler (scheduler.c, thread.c, clock.c) with its bitmap over the ready lists. */
module Scheduler {
  import opened Basics
  import opened Numbers
  import opened FirstBit
  import opened WaitQueue
  import opened ReadyMap
  import S = SchedulerSpec
  import T = SchedulerTheory

  class Scheduler {
    var bitmap: Bitmap             // rt_thread_ready_priority_group, rt_thread_ready_table
    var lists: seq<seq<Tid>>       // rt_thread_priority_table
    var current: Option<Tid>       // rt_current_thread
    var lock: nat                  // rt_scheduler_lock_nest
    var stat: Tid -> S.Stat        // the fields of the threads
    var yielding: set<Tid>
    var prio: Tid -> nat
    var init: Tid -> nat
    var remaining: Tid -> nat

    ghost function Value(): S.Sched
      reads this
    {
      S.Sched(lists, stat, prio, current, yielding, lock, init, remaining)
    }

    /** The bitmap tells which lists are empty. */
    ghost predicate Mapped()
      reads this
    {
      Agrees(bitmap, lists)
    }

    ghost predicate Valid()
      reads this
    {
      Mapped() && T.Inv(Value())
    }

    /** rt_system_scheduler_init, with threads that are not started yet. */
    constructor (levels: nat, prio: Tid -> nat, init: Tid -> nat)
      requires 0 < levels <= 256 && (forall t :: prio(t) < levels) && forall t :: init(t) >= 1
      ensures Valid() && current == None && |lists| == levels && lock == 0 && (forall t :: stat(t) == S.Init)
      ensures this.prio == prio && this.init == init
    {
      bitmap, lists := EMPTY, seq(levels, _ => []);
      current, lock, yielding := None, 0, {};
      this.prio, this.init, this.remaining, stat := prio, init, init, _ => S.Init;
      new;
      EmptyAgrees(levels);
    }

    /** rt_schedule_insert_thread. */
    method InsertThread(t: Tid)
      requires Mapped() && prio(t) < |lists|
      modifies this`stat, this`lists, this`bitmap
      ensures Mapped() && Value() == S.Enlist(old(Value()), t)
    {
      hide Agrees, SetBit;
      if current == Some(t) {
        stat := S.SetStat(stat, t, S.Running);
        return;
      }
      SetAgrees(bitmap, lists, prio(t), lists[prio(t)] + [t]);
      Sizes(bitmap, lists);
      stat := S.SetStat(stat, t, S.Ready);
      bitmap := SetBit(bitmap, |lists|, prio(t));
      lists := lists[prio(t) := lists[prio(t)] + [t]];
    }

    /** rt_schedule_remove_thread. */
    method RemoveThread(t: Tid)
      requires Mapped() && prio(t) < |lists|
      modifies this`lists, this`bitmap
      ensures Mapped() && Value() == S.Delist(old(Value()), t)
    {
      hide Agrees, ClearBit, Without;
      ghost var was := lists;
      Sizes(bitmap, lists);
      lists := lists[prio(t) := Without(lists[prio(t)], t)];
      if lists[prio(t)] == [] {
        ClearAgrees(bitmap, was, prio(t));
        bitmap := ClearBit(bitmap, |lists|, prio(t));
      } else {
        WithoutEmpty(was[prio(t)], t);
        SameAgrees(bitmap, was, prio(t), lists[prio(t)]);
      }
    }

    /** _scheduler_get_highest_priority_thread. */
    method HighestThread() returns (t: Tid, p: nat)
      requires Mapped() && bitmap.group != 0
      ensures p == S.Highest(lists) < |lists| && t == lists[p][0]
    {
      hide Highest, Bit;
      HighestIsLeast(bitmap, lists);
      p := Highest(bitmap, |lists|);
      LeastIs(lists, p);
      t := lists[p][0];
    }

    /** rt_schedule. */
    method Schedule()
      requires Valid() && current.Some?
      modifies this`lists, this`bitmap, this`stat, this`current, this`yielding
      ensures Valid() && Value() == S.Schedule(old(Value()))
    {
      hide Agrees, T.Inv, S.Delist, S.Enlist;
      ghost var s := Value();
      T.ScheduleMeaning(s);
      if lock != 0 { return; }
      GroupZero(bitmap, lists);
      NoneReady(lists);
      if bitmap.group == 0 { return; }
      var to, p := HighestThread();
      var from := current.value;
      Priorities(s, from, to);
      var needInsert := false;
      if stat(from) == S.Running {
        if prio(from) < p {
          to := from;
        } else if prio(from) == p && from !in yielding {
          to := from;
        } else {
          needInsert := true;
        }
        yielding := yielding - {from};
      }
      Different(s, p);
      if to != from {
        current := Some(to);
        if needInsert { InsertThread(from); }
        EnlistShape(s.(yielding := yielding, current := current), from);
        RemoveThread(to);
        stat := S.SetStat(stat, to, S.Running);
      } else {
        RemoveThread(from);
        stat := S.SetStat(stat, from, S.Running);
      }
    }

    /** rt_system_scheduler_start. */
    method Start()
      requires Valid() && current == None && exists t: Tid :: stat(t) == S.Ready
      modifies this`lists, this`bitmap, this`stat, this`current
      ensures Valid() && S.Highest(old(lists)) < |old(lists)| && Value() == S.Begin(old(Value()))
      ensures T.Settled(Value())
    {
      hide Agrees, S.Delist;
      ghost var s := Value();
      T.HighestReady(s);
      GroupZero(bitmap, lists);
      NoneReady(lists);
      var to, p := HighestThread();
      T.BeginKeeps(s);
      current := Some(to);
      RemoveThread(to);
      stat := S.SetStat(stat, to, S.Running);
    }

    /** rt_thread_resume. */
    method Resume(t: Tid)
      requires Valid()
      modifies this`stat, this`lists, this`bitmap
      ensures Valid() && Value() == S.Resume(old(Value()), t)
    {
      hide Agrees, S.Enlist;
      T.ResumeKeeps(Value(), t);
      assert T.ThreadOk(Value(), t);
      if stat(t) != S.Suspended { return; }
      InsertThread(t);
    }

    /** rt_thread_suspend of the current thread. */
    method Suspend()
      requires Valid() && current.Some?
      modifies this`stat, this`lists, this`bitmap
      ensures Valid() && Value() == S.SuspendCurrent(old(Value()))
    {
      hide Agrees, S.Delist;
      var t := current.value;
      T.SuspendKeeps(Value());
      T.DelistShape(Value(), t);
      assert T.ThreadOk(Value(), t);
      if stat(t) != S.Ready && stat(t) != S.Running { return; }
      RemoveThread(t);
      stat := S.SetStat(stat, t, S.Suspended);
    }

    /** rt_thread_startup. */
    method Startup(t: Tid)
      requires Valid() && stat(t) == S.Init
      modifies this`lists, this`bitmap, this`stat, this`current, this`yielding
      ensures Valid() && Value() == S.Startup(old(Value()), t)
    {
      hide Agrees, T.Inv, S.Schedule, S.Resume;
      T.StatKeeps(Value(), t, S.Suspended);
      stat := S.SetStat(stat, t, S.Suspended);
      Resume(t);
      if current.Some? { Schedule(); }
    }

    /** rt_thread_yield. */
    method Yield()
      requires Valid() && current.Some?
      modifies this
      ensures Valid() && Value() == S.Yield(old(Value()))
    {
      hide Agrees, S.Schedule;
      var t := current.value;
      assert T.ThreadOk(Value(), t);
      T.SliceKeeps(Value(), t, init(t), yielding + {t});
      remaining := Update(remaining, t, init(t));
      yielding := yielding + {t};
      Schedule();
    }

    /** rt_tick_increase: the time slice of the running thread. */
    method Tick()
      requires Valid() && current.Some?
      modifies this
      ensures Valid() && old(remaining)(old(current).value) > 0 && Value() == S.Tick(old(Value()))
    {
      hide Agrees, S.Schedule, T.ListOk;
      var t := current.value;
      assert T.ThreadOk(Value(), t);
      T.TickKeeps(Value());
      var slices := remaining;
      remaining := Update(slices, t, slices(t) - 1);
      if remaining(t) == 0 {
        T.SliceKeeps(old(Value()), t, init(t), yielding + {t});
        remaining := Update(slices, t, init(t));
        yielding := yielding + {t};
        Schedule();
      }
    }

    /** rt_thread_control with RT_THREAD_CTRL_CHANGE_PRIORITY. */
    method ChangePriority(t: Tid, p: nat)
      requires Valid() && p < |lists|
      modifies this`lists, this`bitmap, this`stat, this`prio
      ensures Valid() && Value() == S.ChangePriority(old(Value()), t, p)
    {
      hide Agrees, S.Delist, S.Enlist;
      T.PriorityKeeps(Value(), t, p);
      assert T.ThreadOk(Value(), t);
      if stat(t) == S.Ready {
        T.DelistShape(Value(), t);
        SameLevels(Value(), t);
        RemoveThread(t);
        prio := Update(prio, t, p);
        InsertThread(t);
      } else {
        prio := Update(prio, t, p);
      }
    }

    /** rt_enter_critical. */
    method EnterCritical()
      requires Valid()
      modifies this`lock
      ensures Valid() && Value() == S.EnterCritical(old(Value()))
    {
      T.SameThreads(Value(), S.EnterCritical(Value()));
      lock := lock + 1;
    }

    /** rt_exit_critical. */
    method ExitCritical()
      requires Valid()
      modifies this
      ensures Valid() && Value() == S.ExitCritical(old(Value()))
    {
      hide Agrees, S.Schedule;
      T.SameThreads(Value(), Value().(lock := if lock > 1 then lock - 1 else 0));
      if lock <= 1 {
        lock := 0;
        if current.Some? { Schedule(); }
      } else {
        lock := lock - 1;
      }
    }

    /** _thread_exit of the current thread. */
    method Exit()
      requires Valid() && current.Some?
      modifies this
      ensures Valid() && Value() == S.Exit(old(Value()))
    {
      hide Agrees, S.Schedule, S.Delist;
      var t := current.value;
      assert T.ThreadOk(Value(), t);
      T.DelistKeeps(Value(), t, S.Closed);
      T.DelistShape(Value(), t);
      RemoveThread(t);
      stat := S.SetStat(stat, t, S.Closed);
      Schedule();
    }
  }

  lemma Sizes(m: Bitmap, lists: seq<seq<Tid>>)
    requires Agrees(m, lists)
    ensures |lists| <= 256 && |m.table| == 32
  {
  }

  lemma WithoutEmpty(q: seq<Tid>, t: Tid)
    ensures Without(q, t) != [] ==> q != []
  {
  }

  lemma LeastIs(lists: seq<seq<Tid>>, p: nat)
    requires p < |lists| && lists[p] != [] && forall q | 0 <= q < p :: lists[q] == []
    ensures S.Highest(lists) == p
  {
    var h := S.Highest(lists);
    assert h < |lists| ==> lists[h] != [];
  }

  lemma NoneReady(lists: seq<seq<Tid>>)
    ensures S.Highest(lists) == |lists| <==> forall p | 0 <= p < |lists| :: lists[p] == []
  {
  }

  lemma Priorities(s: S.Sched, from: Tid, to: Tid)
    requires T.Inv(s)
    ensures s.prio(from) < |s.lists| && s.prio(to) < |s.lists|
  {
    assert T.ThreadOk(s, from) && T.ThreadOk(s, to);
  }

  /** The thread found on a list is not the current one. */
  lemma Different(s: S.Sched, p: nat)
    requires T.Inv(s) && p == S.Highest(s.lists) < |s.lists|
    ensures s.current != Some(s.lists[p][0])
  {
    T.HighestReady(s);
  }

  lemma EnlistShape(s: S.Sched, t: Tid)
    ensures var r := S.Enlist(s, t);
            |r.lists| == |s.lists| && r.prio == s.prio && r.current == s.current && r.yielding == s.yielding && r.lock == s.lock
  {
  }

  lemma SameLevels(s: S.Sched, t: Tid)
    ensures |S.Delist(s, t).lists| == |s.lists|
  {
  }
}
