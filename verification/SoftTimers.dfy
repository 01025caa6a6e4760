/**
  The soft timer check (timer.c). Interrupts are enabled while a callback runs: the tick goes on, and anyone
  may start and stop any timer. Each region with interrupts disabled is one step.
*/
module SoftTimers {
  import opened Basics
  import opened TimerSpec
  import opened TimerTheory
  import WaitQueue

  /** `busy`: a callback is running. `flight`: its timer, while that is on the check's temporary list, where it stays
      until it is started or stopped. `late`: the ticks since the check last found nothing expired. */
  datatype Soft = Soft(s: Timers, busy: bool, flight: Option<Id>, now: nat, late: nat)

  datatype Act = Begin | End | Leave | Starts(t: Id) | Halts(t: Id) | SetsTime(t: Id, ticks: nat) | Ticks

  predicate Expired(m: Soft) {
    m.s.row != [] && Due(m.s.timeout(m.s.row[0]), m.now)
  }

  predicate Enabled(m: Soft, a: Act) {
    match a
    case Begin => !m.busy && Expired(m)
    case End => m.busy
    case Leave => !m.busy && !Expired(m)
    case _ => true
  }

  function OffList(m: Soft, t: Id): Option<Id> {
    if m.flight == Some(t) then None else m.flight
  }

  function Step(m: Soft, a: Act): Soft
    requires Enabled(m, a)
  {
    match a
    case Begin => m.(s := TakeOut(m.s, m.s.row[0]), busy := true, flight := Some(m.s.row[0]))
    case End => m.(s := if m.flight.Some? then PutBack(m.s, m.flight.value, m.now) else m.s, busy := false, flight := None)
    case Leave => m.(late := 0)
    case Starts(t) => m.(s := Start(m.s, t, m.now), flight := OffList(m, t))
    case Halts(t) => m.(s := Stop(m.s, t), flight := if t in m.s.active then OffList(m, t) else m.flight)
    case SetsTime(t, ticks) => m.(s := SetTicks(m.s, t, ticks))
    case Ticks => m.(now := (m.now + 1) % WRAP, late := m.late + 1)
  }

  /** The list is in order, the timer in flight is not on it, and a timer is active exactly when it is pending
      or a periodic timer in flight. */
  ghost predicate Sound(m: Soft, span: nat) {
    && Ok(m.s, m.now, m.late, span)
    && (m.flight.Some? ==> m.busy && m.flight.value !in m.s.row)
    && (forall t: Id :: t in m.s.active <==> t in m.s.row || (m.flight == Some(t) && t in m.s.periodic))
  }

  /** A tick does not leave the window, and a time set stays in it. */
  predicate InWindow(m: Soft, a: Act, span: nat) {
    (a.Ticks? ==> Short(m.late + 1, span)) && (a.SetsTime? ==> a.ticks <= span)
  }

  lemma StepKeeps(m: Soft, a: Act, span: nat)
    requires Sound(m, span) && Enabled(m, a) && InWindow(m, a, span)
    ensures Sound(Step(m, a), span)
  {
    hide Window, Sorted, Due, Start, Stop, DueCount, TimerTheory.TakeOut, TimerTheory.PutBack;
    match a
    case Begin => BeginKeeps(m, span);
    case End => EndKeeps(m, span);
    case Leave => LeaveKeeps(m, span);
    case Starts(t) =>
      StartKeeps(m.s, t, m.now, m.late, span);
      StartExactly(m.s, t, m.now, m.late, span);
    case Halts(t) =>
      StopKeeps(m.s, t, m.now, m.late, span);
      StopExactly(m.s, t, m.now, m.late, span);
    case SetsTime(t, ticks) =>
    case Ticks => LaterKeeps(m.s, m.now, m.late, span);
  }

  lemma BeginKeeps(m: Soft, span: nat)
    requires Sound(m, span) && Enabled(m, Begin)
    ensures Sound(Step(m, Begin), span)
  {
    hide Window, Sorted, Due, DueCount, WaitQueue.Without;
    var t := m.s.row[0];
    FireGone(m.s, m.now, m.late, span, if t in m.s.periodic then m.s.active else m.s.active - {t});
  }

  lemma EndKeeps(m: Soft, span: nat)
    requires Sound(m, span) && Enabled(m, End)
    ensures Sound(Step(m, End), span)
  {
    hide Window, Sorted, Start;
    if m.flight.Some? && m.flight.value in m.s.periodic {
      var t := m.flight.value;
      var off := m.s.(active := m.s.active - {t});
      StartKeeps(off, t, m.now, m.late, span);
      StartExactly(off, t, m.now, m.late, span);
    }
  }

  lemma LeaveKeeps(m: Soft, span: nat)
    requires Sound(m, span) && Enabled(m, Leave)
    ensures Sound(Step(m, Leave), span) && forall x | x in m.s.row :: !Due(m.s.timeout(x), m.now)
  {
    hide Window, Sorted, Due;
    NoneExpired(m, span);
    Rebase(m.s, m.now, m.late, span);
  }

  /** If the first timer is not expired, none is. */
  lemma NoneExpired(m: Soft, span: nat)
    requires Sound(m, span) && !Expired(m)
    ensures forall x | x in m.s.row :: !Due(m.s.timeout(x), m.now)
  {
    hide Window, Sorted, Due;
    DueFirst(m.s, m.now, m.late, span);
    DueCountIs(m.s.row, m.s.timeout, m.now, 0);
  }

  lemma LaterKeeps(s: Timers, now: nat, late: nat, span: nat)
    requires Ok(s, now, late, span) && Short(late + 1, span)
    ensures Ok(s, (now + 1) % WRAP, late + 1, span)
  {
    hide Rank;
    var now' := (now + 1) % WRAP;
    forall x ensures Rank(s.timeout(x), now', late + 1) == Rank(s.timeout(x), now, late) {
      RankLater(s.timeout(x), now, late);
    }
    forall j | 0 <= j < |s.row| ensures Rank(s.timeout(s.row[j]), now', late + 1) <= late + 1 + span {
      RankInWindow(s.row, s.timeout, now, late, span, j);
    }
    WindowFromRank(s.row, s.timeout, now', late + 1, span);
  }

  lemma RankLater(timeout: nat, now: nat, late: nat)
    requires now < WRAP
    ensures Rank(timeout, (now + 1) % WRAP, late + 1) == Rank(timeout, now, late)
  {
    if now + 1 == WRAP { Shift(timeout - now + late, 1); }
  }

  // ---- Runs --------------------------------------------------------------------------------------

  ghost predicate Steps(ms: seq<Soft>, acts: seq<Act>) {
    && |ms| == |acts| + 1
    && forall k | 0 <= k < |acts| :: Enabled(ms[k], acts[k]) && ms[k + 1] == Step(ms[k], acts[k])
  }

  ghost predicate Run(ms: seq<Soft>, acts: seq<Act>, span: nat) {
    Steps(ms, acts) && forall k | 0 <= k < |acts| :: InWindow(ms[k], acts[k], span)
  }

  /** In every run in which the check finds nothing expired once in less than half the range of the tick. */
  lemma {:induction false} RunKeeps(ms: seq<Soft>, acts: seq<Act>, span: nat)
    requires Run(ms, acts, span) && Sound(ms[0], span)
    ensures Sound(ms[|acts|], span)
  {
    hide Sound, Step;
    if acts != [] {
      var n := |acts| - 1;
      RunKeeps(ms[..n + 1], acts[..n], span);
      StepKeeps(ms[n], acts[n], span);
    }
  }

  /** What takes the timer `x` off the list or gives it another timeout. */
  predicate Concerns(m: Soft, a: Act, x: Id) {
    a == Starts(x) || a == Halts(x) || (a == Begin && m.s.row != [] && m.s.row[0] == x)
  }

  lemma OtherStep(m: Soft, a: Act, span: nat, x: Id)
    requires Sound(m, span) && Enabled(m, a) && x in m.s.row && !Concerns(m, a, x)
    ensures x in Step(m, a).s.row && Step(m, a).s.timeout(x) == m.s.timeout(x)
  {
    hide Window, Sorted, Due, Start, Stop, WaitQueue.Without;
    match a
    case Begin => WithoutMember(m.s, m.s.row[0], m.now, m.late, span);
    case End =>
      if m.flight.Some? {
        var t := m.flight.value;
        var off := m.s.(active := m.s.active - {t});
        assert Ok(off, m.now, m.late, span);
        StartExactly(off, t, m.now, m.late, span);
        StartKeeps(off, t, m.now, m.late, span);
      }
    case Starts(t) =>
      StartExactly(m.s, t, m.now, m.late, span);
      StartKeeps(m.s, t, m.now, m.late, span);
    case Halts(t) => StopExactly(m.s, t, m.now, m.late, span);
    case _ =>
  }

  /** However starts, stops and ticks fall between the steps of the check, a pending timer stays pending at its
      timeout until it is started, stopped or fired. */
  lemma {:induction false} NoneLost(ms: seq<Soft>, acts: seq<Act>, span: nat, x: Id)
    requires Run(ms, acts, span) && Sound(ms[0], span) && x in ms[0].s.row
    requires forall k | 0 <= k < |acts| :: !Concerns(ms[k], acts[k], x)
    ensures x in ms[|acts|].s.row && ms[|acts|].s.timeout(x) == ms[0].s.timeout(x)
  {
    hide Sound, Step, Concerns;
    if acts != [] {
      var n := |acts| - 1;
      assert forall k | 0 <= k < n :: !Concerns(ms[..n + 1][k], acts[..n][k], x);
      NoneLost(ms[..n + 1], acts[..n], span, x);
      RunKeeps(ms[..n + 1], acts[..n], span);
      OtherStep(ms[n], acts[n], span, x);
    }
  }

  /** No timer is fired before its timeout: it was due so many ticks ago, and no more than the check is late. */
  lemma NoneEarly(m: Soft, span: nat)
    requires Sound(m, span) && Enabled(m, Begin)
    ensures var timeout := m.s.timeout(m.s.row[0]); var ago := Minus(m.now, timeout);
            ago <= m.late && (timeout + ago) % WRAP == m.now
  {
    hide Sorted;
    var t := m.s.timeout(m.s.row[0]);
    RankInWindow(m.s.row, m.s.timeout, m.now, m.late, span, 0);
    DueIsRank(t, m.now, m.late, span);
    Ago(t, m.now, m.late);
  }

  lemma Ago(timeout: nat, now: nat, late: nat)
    requires timeout < WRAP && now < WRAP && late < HALF && Rank(timeout, now, late) <= late
    ensures Minus(now, timeout) == late - Rank(timeout, now, late)
    ensures (timeout + Minus(now, timeout)) % WRAP == now
  {
    Difference(now, timeout, now - late);
    assert Minus(now, now - late) == late;
    Onwards(timeout, now);
  }

  lemma Onwards(timeout: nat, now: nat)
    requires now < WRAP
    ensures (timeout + Minus(now, timeout)) % WRAP == now
  {
    var k := (now - timeout) / WRAP;
    assert now - timeout == k * WRAP + Minus(now, timeout);
    Shift(now, -k);
  }

  /** When the check leaves, every timer that was pending and is expired by then was fired on the way, unless
      someone started or stopped it. */
  lemma FiredByThen(ms: seq<Soft>, acts: seq<Act>, span: nat, x: Id)
    requires Run(ms, acts, span) && Sound(ms[0], span) && x in ms[0].s.row
    requires !ms[|acts|].busy && !Expired(ms[|acts|]) && Due(ms[0].s.timeout(x), ms[|acts|].now)
    requires forall k | 0 <= k < |acts| :: acts[k] != Starts(x) && acts[k] != Halts(x)
    ensures exists k :: 0 <= k < |acts| && acts[k] == Begin && ms[k].s.row != [] && ms[k].s.row[0] == x
  {
    hide Sound, Step, Due;
    if forall k | 0 <= k < |acts| :: !Concerns(ms[k], acts[k], x) {
      NoneLost(ms, acts, span, x);
      RunKeeps(ms, acts, span);
      NoneExpired(ms[|acts|], span);
    }
  }

  /** Without interruptions one round of the soft check is one of the hard check. */
  lemma RoundIsFire(m: Soft, does: Does, span: nat)
    requires Sound(m, span) && Enabled(m, Begin)
    ensures var t := m.s.row[0]; var begun := Step(m, Begin);
            var called := match does {
              case Nothing => begun
              case Restarts => Step(begun, Starts(t))
              case Stops => Step(begun, Halts(t)) };
            Step(called, End).s == Fire(m.s, t, m.now, does) && !Step(called, End).busy
  {
    hide Window, Sorted, Due, Start, WaitQueue.Without;
    var t := m.s.row[0];
    BeginKeeps(m, span);
    var s := TakeOut(m.s, t);
    assert does == Stops && t !in s.active ==> PutBack(s, t, m.now) == s;
  }

  // ---- Too late --------------------------------------------------------------------------------

  /** A check that is four ticks late, and the longest time the source accepts: the new timer goes in front of one that
      is overdue, and the check leaves without firing that one. */
  lemma OverdueMissed() returns (ms: seq<Soft>, acts: seq<Act>)
    ensures acts == [Starts(0), Ticks, Ticks, Ticks, Ticks, Starts(1)] && Steps(ms, acts)
    ensures ms[0].s.row == [] && ms[0].now == 0 && !ms[0].busy && forall x :: ms[0].s.init(x) < HALF
    ensures var last := ms[6];
            last.s.row == [1, 0] && last.now == 4 && Due(last.s.timeout(0), last.now) && Enabled(last, Leave)
  {
    hide Start, Due, Later;
    acts := [Starts(0), Ticks, Ticks, Ticks, Ticks, Starts(1)];
    var m0 := Soft(Timers([], _ => 0, x => if x == 1 then HALF - 1 else 0, {}, {}), false, None, 0, 0);
    StartFirst(m0.s);
    var m1 := Step(m0, acts[0]);
    var m2 := Step(m1, acts[1]);
    var m3 := Step(m2, acts[2]);
    var m4 := Step(m3, acts[3]);
    var m5 := Step(m4, acts[4]);
    StartSecond(m5.s);
    ms := [m0, m1, m2, m3, m4, m5, Step(m5, acts[5])];
  }

  lemma StartFirst(s: Timers)
    requires s.row == [] && s.init(0) == 0
    ensures var s' := Start(s, 0, 0); s'.row == [0] && s'.timeout(0) == 0 && s'.init == s.init
  {
  }

  lemma StartSecond(s: Timers)
    requires s.row == [0] && s.timeout(0) == 0 && s.init(1) == HALF - 1
    ensures var s' := Start(s, 1, 4);
            s'.row == [1, 0] && s'.timeout(0) == 0 && Due(s'.timeout(0), 4) && !Due(s'.timeout(1), 4)
  {
    WaitQueue.WithoutNone(s.row, 1);
    assert Later(0, 4 + HALF - 1);
  }
}
