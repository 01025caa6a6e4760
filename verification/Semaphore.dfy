/** The counting semaphore (ipc.c). */
module Semaphore {
  import opened Basics
  import opened WaitQueue
  import opened SemaphoreSpec

  class Semaphore {
    const flag: Flag
    var value: nat
    var wait: Waiters              // suspend_thread

    ghost function Value(): Sem
      reads this
    {
      Sem(value, wait)
    }

    ghost predicate Valid()
      reads this
    {
      Kept(Value())
    }

    /** rt_sem_init. */
    constructor (value: nat, flag: Flag)
      requires value <= UINT16_MAX
      ensures Valid() && Value() == Sem(value, NOBODY) && this.flag == flag
    {
      this.value, this.flag, wait := value, flag, NOBODY;
    }

    /** rt_sem_take, up to the point where the caller returns or gives up the processor. */
    method Take(who: Option<Tid>, time: Wait, prio: Tid -> nat) returns (o: Outcome)
      requires Valid() && Enabled(Value(), TakeAct(who, time))
      modifies this
      ensures Valid() && (Value(), o) == SemaphoreSpec.Take(old(Value()), who, time, flag, prio)
    {
      hide Kept, Block;
      ApplyKeeps(Value(), TakeAct(who, time), flag, prio);
      if value > 0 {
        value := value - 1;
        return Done;
      }
      if time == NoWait { return TimedOut; }
      wait := SuspendOn(wait, who.value, flag, time, prio);
      return Blocked;
    }

    /** rt_sem_release: a unit goes to the first thread of the queue, or into the semaphore. */
    method Release() returns (o: Outcome)
      requires Valid()
      modifies this
      ensures Valid() && (Value(), o) == SemaphoreSpec.Release(old(Value()))
    {
      hide Kept, WakeFirst;
      ApplyKeeps(Value(), ReleaseAct, flag, t => 0);
      if wait.queue != [] {
        wait := WakeFirst(wait);
      } else {
        if value >= UINT16_MAX { return Full; }
        value := value + 1;
      }
      return Done;
    }

    /** rt_sem_control with RT_IPC_CMD_RESET. */
    method Reset(to: nat)
      requires Valid()
      modifies this
      ensures Valid() && Value() == SemaphoreSpec.Reset(old(Value()), to)
    {
      hide Kept, Dismiss;
      ApplyKeeps(Value(), ResetAct(to), flag, t => 0);
      wait := ResumeAll(wait);
      value := to % (UINT16_MAX + 1);
    }
  }
}
