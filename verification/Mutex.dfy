/** The mutex (ipc.c), with the threads whose priorities it changes. */
module Mutex {
  import opened Basics
  import opened WaitQueue
  import opened MutexSpec

  /** The current_priority fields of all threads. */
  class Threads {
    var priority: Tid -> nat

    constructor (priority: Tid -> nat)
      ensures this.priority == priority
    {
      this.priority := priority;
    }

    /** rt_thread_control with RT_THREAD_CTRL_CHANGE_PRIORITY. */
    method ChangePriority(t: Tid, p: nat)
      modifies this
      ensures priority == Update(old(priority), t, p)
    {
      priority := Update(priority, t, p);
    }
  }

  class Mutex {
    const threads: Threads
    var value: nat
    var owner: Option<Tid>
    var original: nat              // original_priority
    var hold: nat
    var wait: Waiters              // suspend_thread; the flag is always RT_IPC_FLAG_PRIO

    ghost function Value(): Mx
      reads this
    {
      Mx(value, owner, original, hold, wait)
    }

    ghost predicate Valid()
      reads this
    {
      Kept(Value())
    }

    /** rt_mutex_init; the flag a caller passes is ignored. */
    constructor (threads: Threads)
      ensures Valid() && Value() == FREE && this.threads == threads
    {
      this.threads := threads;
      value, owner, original, hold, wait := 1, None, NO_PRIORITY, 0, NOBODY;
    }

    /** rt_mutex_take, up to the point where the caller returns or gives up the processor. */
    method Take(who: Tid, time: Wait) returns (o: Outcome)
      requires Valid() && who !in wait.queue
      modifies this, threads
      ensures Valid() && (Value(), threads.priority, o) == MutexSpec.Take(old(Value()), who, time, old(threads.priority))
    {
      hide Block;
      ApplyKeeps(Value(), TakeAct(who, time), threads.priority);
      if owner == Some(who) {
        if hold >= HOLD_MAX { return Full; }
        hold := hold + 1;
      } else if value > 0 {
        value := value - 1;
        owner, original := Some(who), threads.priority(who);
        if hold < HOLD_MAX { hold := hold + 1; }
      } else {
        if time == NoWait { return TimedOut; }
        if threads.priority(who) < threads.priority(owner.value) {
          threads.ChangePriority(owner.value, threads.priority(who));
        }
        wait := SuspendOn(wait, who, Prio, time, threads.priority);
        return Blocked;
      }
      return Done;
    }

    /** rt_mutex_release. */
    method Release(who: Tid) returns (o: Outcome)
      requires Valid() && who !in wait.queue
      modifies this, threads
      ensures Valid() && (Value(), threads.priority, o) == MutexSpec.Release(old(Value()), who, old(threads.priority))
    {
      hide WakeFirst;
      ApplyKeeps(Value(), ReleaseAct(who), threads.priority);
      if owner != Some(who) { return NotOwner; }
      hold := hold - 1;
      if hold == 0 {
        if original != threads.priority(owner.value) {
          threads.ChangePriority(owner.value, original);
        }
        if wait.queue != [] {
          var heir := wait.queue[0];
          owner, original := Some(heir), threads.priority(heir);
          if hold < HOLD_MAX { hold := hold + 1; }
          wait := WakeFirst(wait);
        } else {
          if value < UINT16_MAX { value := value + 1; }
          owner, original := None, NO_PRIORITY;
        }
      }
      return Done;
    }
  }
}
