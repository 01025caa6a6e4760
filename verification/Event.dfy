/** The event set (ipc.c). */
module Event {
  import opened Basics
  import opened WaitQueue
  import opened EventSpec

  class Event {
    const flag: Flag
    var bits: Bits
    var want: map<Tid, Want>       // event_set and event_info of the threads
    var wait: Waiters              // suspend_thread

    ghost function Value(): Ev
      reads this
    {
      Ev(bits, want, wait)
    }

    ghost predicate Valid()
      reads this
    {
      Kept(Value())
    }

    /** rt_event_init. */
    constructor (flag: Flag)
      ensures Valid() && Value() == Ev(0, map[], NOBODY) && this.flag == flag
    {
      this.flag, bits, want, wait := flag, 0, map[], NOBODY;
    }

    /** rt_event_send: the walk over the suspended threads, `n` being the position of the next one. */
    method Send(events: Bits) returns (o: Outcome)
      requires Valid()
      modifies this
      ensures Valid() && (Value(), o) == EventSpec.Send(old(Value()), events)
    {
      hide Kept, Walk, Both, Minus, Either;
      SendKeeps(Value(), events);
      if events == 0 { return Error; }
      ghost var e := Value();
      bits := Either(bits, events);
      ghost var whole := Walk(wait.queue, bits, want);
      ghost var woken: set<Tid> := {};
      var n := 0;
      while n < |wait.queue|
        invariant n <= |wait.queue|
        invariant wait == Waiters(wait.queue, e.wait.armed - woken, e.wait.woken + woken)
        invariant whole == Rest(wait.queue, n, bits, want, woken)
        decreases |wait.queue| - n
      {
        var t := wait.queue[n];
        var w := WantOf(want, t);
        var status := false;
        RestStep(wait.queue, n, bits, want, woken);
        if w.and {
          if Both(bits, w.bits) == w.bits { status := true; }
        } else if w.or {
          if Both(w.bits, bits) != 0 {
            w := w.(bits := Both(w.bits, bits));
            status := true;
          }
        } else {
          return Invalid;
        }
        BothCommutes(bits, WantOf(want, t).bits);
        if status {
          want := want[t := w];
          if w.clear { bits := Minus(bits, w.bits); }
          wait := Waiters(wait.queue[..n] + wait.queue[n + 1..], wait.armed - {t}, wait.woken + {t});
          woken := woken + {t};
        } else {
          n := n + 1;
        }
      }
      RestEnd(wait.queue, bits, want, woken);
      return Done;
    }

    /** rt_event_recv, up to the point where the caller returns or gives up the processor. */
    method Recv(who: Tid, w: Want, time: Wait, prio: Tid -> nat) returns (o: Outcome)
      requires Valid() && Enabled(Value(), RecvAct(who, w, time))
      modifies this
      ensures Valid() && (Value(), o) == EventSpec.Recv(old(Value()), who, w, time, flag, prio)
    {
      hide Kept, Both, Minus, Block;
      RecvKeeps(Value(), who, w, time, flag, prio);
      if w.bits == 0 { return Error; }
      var status := false;
      if w.and {
        if Both(bits, w.bits) == w.bits { status := true; }
      } else if w.or {
        if Both(bits, w.bits) != 0 { status := true; }
      }
      if status {
        o := Received(Both(bits, w.bits));
        want := want[who := w.(bits := Both(bits, w.bits))];
        if w.clear { bits := Minus(bits, w.bits); }
        return;
      }
      if time == NoWait { return TimedOut; }
      want := want[who := w];
      wait := SuspendOn(wait, who, flag, time, prio);
      return Blocked;
    }

    /** rt_event_control with RT_IPC_CMD_RESET. */
    method Reset()
      requires Valid()
      modifies this
      ensures Valid() && Value() == EventSpec.Reset(old(Value()))
    {
      hide Kept, Dismiss;
      ApplyKeeps(Value(), ResetAct, flag, t => 0);
      wait := ResumeAll(wait);
      bits := 0;
    }
  }

  lemma BothCommutes(a: Bits, b: Bits)
    ensures Both(a, b) == Both(b, a)
  {
  }

  /** The result of the walk, when it has come to position `n` of the list. */
  ghost function Rest(q: seq<Tid>, n: nat, bits: Bits, want: map<Tid, Want>, woken: set<Tid>): Walked
    requires n <= |q|
  {
    var r := Walk(q[n..], bits, want);
    Walked(q[..n] + r.kept, woken + r.woken, r.bits, r.want, r.valid)
  }

  lemma RestStep(q: seq<Tid>, n: nat, bits: Bits, want: map<Tid, Want>, woken: set<Tid>)
    requires n < |q|
    ensures var t, w, r := q[n], WantOf(want, q[n]), Rest(q, n, bits, want, woken);
            if !w.and && !w.or then r == Walked(q, woken, bits, want, false)
            else if Satisfied(w, bits) then
              r == Rest(q[..n] + q[n + 1..], n, if w.clear then Minus(bits, Got(w, bits)) else bits,
                        want[t := w.(bits := Got(w, bits))], woken + {t})
            else r == Rest(q, n + 1, bits, want, woken)
  {
    hide Both, Minus;
    assert q[n..][1..] == q[n + 1..] && q[..n] + q[n..] == q;
    var cut := q[..n] + q[n + 1..];
    assert cut[n..] == q[n + 1..] && cut[..n] == q[..n];
    assert q[..n + 1] == q[..n] + [q[n]];
  }

  lemma RestEnd(q: seq<Tid>, bits: Bits, want: map<Tid, Want>, woken: set<Tid>)
    ensures Rest(q, |q|, bits, want, woken) == Walked(q, woken, bits, want, true)
  {
    assert q[|q|..] == [] && q[..|q|] == q;
  }
}
