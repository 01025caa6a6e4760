/**
  What the uniprocessor scheduler does (scheduler.c, thread.c, clock.c), with the ready lists as
  sequences of threads. The current thread is running, not listed.
*/
module SchedulerSpec {
  import opened Basics
  import opened WaitQueue

  datatype Stat = Init | Ready | Suspended | Running | Closed

  /** `yielding` holds the threads with RT_THREAD_STAT_YIELD, `lock` is the nesting of the scheduler lock. */
  datatype Sched = Sched(lists: seq<seq<Tid>>, stat: Tid -> Stat, prio: Tid -> nat, current: Option<Tid>,
                         yielding: set<Tid>, lock: nat, init: Tid -> nat, remaining: Tid -> nat)

  function SetStat(stat: Tid -> Stat, t: Tid, v: Stat): (r: Tid -> Stat)
    ensures forall x :: r(x) == if x == t then v else stat(x)
  {
    (x: Tid) => if x == t then v else stat(x)
  }

  /** The most urgent priority with a ready thread, or the number of priorities. */
  function Highest(lists: seq<seq<Tid>>): (p: nat)
    ensures p <= |lists|
    ensures p < |lists| ==> lists[p] != []
    ensures forall q | 0 <= q < p :: lists[q] == []
  {
    if lists == [] || lists[0] != [] then 0
    else
      var p := Highest(lists[1..]);
      assert forall q | 0 < q < p + 1 :: lists[q] == lists[1..][q - 1];
      p + 1
  }

  /** rt_schedule_insert_thread: behind the other ready threads of its priority. */
  function Enlist(s: Sched, t: Tid): Sched {
    if s.current == Some(t) then s.(stat := SetStat(s.stat, t, Running))
    else if s.prio(t) < |s.lists| then
      s.(stat := SetStat(s.stat, t, Ready), lists := s.lists[s.prio(t) := s.lists[s.prio(t)] + [t]])
    else s
  }

  /** rt_schedule_remove_thread. */
  function Delist(s: Sched, t: Tid): Sched {
    if s.prio(t) < |s.lists| then s.(lists := s.lists[s.prio(t) := Without(s.lists[s.prio(t)], t)]) else s
  }

  /** The running thread keeps the processor: it is more urgent, or as urgent and not yielding. */
  predicate Stays(s: Sched, p: nat)
    requires s.current.Some?
  {
    var c := s.current.value;
    s.stat(c) == Running && (s.prio(c) < p || (s.prio(c) == p && c !in s.yielding))
  }

  /** rt_schedule, with interrupts off and no context lost: which thread runs afterwards. */
  function Schedule(s: Sched): Sched
    requires s.current.Some?
  {
    var p := Highest(s.lists);
    if s.lock > 0 || p == |s.lists| then s
    else
      var c := s.current.value;
      var cleared := if s.stat(c) == Running then s.(yielding := s.yielding - {c}) else s;
      if Stays(s, p) then
        var r := Delist(cleared, c);
        r.(stat := SetStat(r.stat, c, Running))
      else
        var to := s.lists[p][0];
        var switched := cleared.(current := Some(to));
        var queued := if s.stat(c) == Running then Enlist(switched, c) else switched;
        var r := Delist(queued, to);
        r.(stat := SetStat(r.stat, to, Running))
  }

  /** rt_thread_resume. */
  function Resume(s: Sched, t: Tid): Sched {
    if s.stat(t) != Suspended then s else Enlist(s, t)
  }

  /** rt_thread_suspend of the current thread; a call of rt_schedule follows. */
  function SuspendCurrent(s: Sched): Sched
    requires s.current.Some?
  {
    var c := s.current.value;
    if s.stat(c) != Ready && s.stat(c) != Running then s
    else var r := Delist(s, c); r.(stat := SetStat(r.stat, c, Suspended))
  }

  /** rt_thread_startup. */
  function Startup(s: Sched, t: Tid): Sched {
    var r := Resume(s.(stat := SetStat(s.stat, t, Suspended)), t);
    if r.current.Some? then Schedule(r) else r
  }

  /** rt_thread_yield. */
  function Yield(s: Sched): Sched
    requires s.current.Some?
  {
    var c := s.current.value;
    Schedule(s.(remaining := Update(s.remaining, c, s.init(c)), yielding := s.yielding + {c}))
  }

  /** rt_tick_increase, for the running thread's time slice. */
  function Tick(s: Sched): Sched
    requires s.current.Some? && s.remaining(s.current.value) > 0
  {
    var c := s.current.value;
    var left := s.remaining(c) - 1;
    if left == 0 then Schedule(s.(remaining := Update(s.remaining, c, s.init(c)), yielding := s.yielding + {c}))
    else s.(remaining := Update(s.remaining, c, left))
  }

  /** rt_thread_control with RT_THREAD_CTRL_CHANGE_PRIORITY. */
  function ChangePriority(s: Sched, t: Tid, p: nat): Sched {
    if s.stat(t) == Ready then
      var r := Delist(s, t);
      Enlist(r.(prio := Update(r.prio, t, p)), t)
    else s.(prio := Update(s.prio, t, p))
  }

  function EnterCritical(s: Sched): Sched {
    s.(lock := s.lock + 1)
  }

  function ExitCritical(s: Sched): Sched {
    if s.lock > 1 then s.(lock := s.lock - 1)
    else
      var r := s.(lock := 0);
      if r.current.Some? then Schedule(r) else r
  }

  /** _thread_exit of the current thread. */
  function Exit(s: Sched): Sched
    requires s.current.Some?
  {
    var c := s.current.value;
    var r := Delist(s, c);
    Schedule(r.(stat := SetStat(r.stat, c, Closed)))
  }

  /** rt_system_scheduler_start, with a thread ready. */
  function Begin(s: Sched): Sched
    requires Highest(s.lists) < |s.lists|
  {
    var to := s.lists[Highest(s.lists)][0];
    var r := Delist(s.(current := Some(to)), to);
    r.(stat := SetStat(r.stat, to, Running))
  }
}
