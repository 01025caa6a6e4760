/** The mailbox (ipc.c): a ring of words, and two lists of suspended threads. */
module Mailbox {
  import opened Basics
  import opened WaitQueue
  import opened MailboxSpec
  import opened Numbers

  /** The ring slot `i` places after `from`. */
  function Slot(from: nat, i: nat, size: nat): nat {
    if from + i >= size then from + i - size else from + i
  }

  lemma SlotIsModular(from: nat, i: nat, size: nat)
    requires from < size && i <= size
    ensures Slot(from, i, size) == (from + i) % size
  {
    if from + i >= size { Unique(from + i, size, 1, from + i - size); }
  }

  class Mailbox {
    const pool: array<nat>
    const size: nat
    const flag: Flag
    var entry: nat
    var inOffset: nat
    var outOffset: nat
    var recv: Waiters              // suspend_thread
    var send: Waiters              // suspend_sender_thread
    ghost var mails: seq<nat>

    /** The ring holds `mails`, from the output offset on. */
    ghost predicate Valid()
      reads this, pool
    {
      && pool.Length == size <= UINT16_MAX
      && entry == |mails| <= size
      && (if size == 0 then outOffset == 0 else outOffset < size)
      && inOffset == Slot(outOffset, entry, size)
      && forall i | 0 <= i < entry :: pool[Slot(outOffset, i, size)] == mails[i]
    }

    ghost function Value(): Box
      reads this
    {
      Box(size, mails, recv, send)
    }

    /** rt_mb_init; the size field has 16 bits. */
    constructor (size: nat, flag: Flag)
      requires size <= UINT16_MAX
      ensures Valid() && Value() == Empty(size) && this.flag == flag && fresh(pool)
    {
      this.size, this.flag := size, flag;
      pool := new nat[size];
      entry, inOffset, outOffset := 0, 0, 0;
      recv, send, mails := NOBODY, NOBODY, [];
    }

    /** A region of rt_mb_send_wait, first or repeated. */
    method Send(who: Option<Tid>, value: nat, wait: Wait, prio: Tid -> nat) returns (o: Outcome)
      requires Valid() && (wait != NoWait ==> who.Some?)
      modifies this, pool
      ensures Valid() && (Value(), o) == MailboxSpec.Send(old(Value()), who, value, wait, flag, prio)
    {
      send := Entered(send, who);
      if entry == size {
        if wait == NoWait { return Refused; }
        send := SuspendOn(send, who.value, flag, wait, prio);
        return Blocked;
      }
      pool[inOffset] := value;
      inOffset := inOffset + 1;
      if inOffset >= size { inOffset := 0; }
      if entry < UINT16_MAX { entry := entry + 1; }
      mails := mails + [value];
      recv := WakeFirst(recv);
      return Done;
    }

    /** rt_mb_urgent. */
    method Urgent(value: nat) returns (o: Outcome)
      requires Valid()
      modifies this, pool
      ensures Valid() && (Value(), o) == MailboxSpec.Urgent(old(Value()), value)
    {
      if entry == size { return Refused; }
      if outOffset > 0 { outOffset := outOffset - 1; } else { outOffset := size - 1; }
      pool[outOffset] := value;
      entry := entry + 1;
      mails := [value] + mails;
      recv := WakeFirst(recv);
      return Done;
    }

    /** A region of rt_mb_recv, first or repeated. */
    method Recv(who: Option<Tid>, wait: Wait, prio: Tid -> nat) returns (o: Outcome)
      requires Valid() && (wait != NoWait ==> who.Some?)
      modifies this
      ensures Valid() && (Value(), o) == MailboxSpec.Recv(old(Value()), who, wait, flag, prio)
    {
      recv := Entered(recv, who);
      if entry == 0 {
        if wait == NoWait { return Refused; }
        recv := SuspendOn(recv, who.value, flag, wait, prio);
        return Blocked;
      }
      var value := pool[outOffset];
      outOffset := outOffset + 1;
      if outOffset >= size { outOffset := 0; }
      if entry > 0 { entry := entry - 1; }
      mails := mails[1..];
      send := WakeFirst(send);
      return Got(value);
    }

    /** rt_mb_control with RT_IPC_CMD_RESET. */
    method Reset()
      requires Valid()
      modifies this
      ensures Valid() && Value() == MailboxSpec.Reset(old(Value()))
    {
      recv := ResumeAll(recv);
      send := ResumeAll(send);
      entry, inOffset, outOffset, mails := 0, 0, 0, [];
    }
  }
}
