/** The timers on their skip list (timer.c): rows of links, the last of which holds every pending timer. */
module TimerList {
  import opened Basics
  import opened TimerSpec
  import opened TimerTheory
  import WaitQueue

  const MASK: nat := 3               // RT_TIMER_SKIP_LIST_MASK

  // ---- Rows ----------------------------------------------------------------------------------

  /** The timers of a row that are tall enough for the row above it. */
  function Keep(row: seq<Id>, tall: set<Id>): (r: seq<Id>)
    ensures forall x :: x in r <==> x in row && x in tall
  {
    if row == [] then []
    else if row[0] in tall then [row[0]] + Keep(row[1..], tall)
    else Keep(row[1..], tall)
  }

  lemma {:induction false} KeepConcat(a: seq<Id>, b: seq<Id>, tall: set<Id>)
    ensures Keep(a + b, tall) == Keep(a, tall) + Keep(b, tall)
  {
    if a == [] {
      assert a + b == b;
    } else {
      assert (a + b)[1..] == a[1..] + b;
      KeepConcat(a[1..], b, tall);
    }
  }

  lemma {:induction false} KeepMore(row: seq<Id>, tall: set<Id>, t: Id)
    requires t !in row
    ensures Keep(row, tall + {t}) == Keep(row, tall)
  {
    if row != [] {
      assert row[0] in row && forall x | x in row[1..] :: x in row;
      KeepMore(row[1..], tall, t);
    }
  }

  lemma KeepLess(row: seq<Id>, tall: set<Id>, t: Id)
    requires t !in row
    ensures Keep(row, tall - {t}) == Keep(row, tall)
  {
    KeepMore(row, tall - {t}, t);
    if t in tall { assert tall - {t} + {t} == tall; } else { assert tall - {t} == tall; }
  }

  lemma {:induction false} KeepWithout(row: seq<Id>, tall: set<Id>, t: Id)
    ensures WaitQueue.Without(Keep(row, tall), t) == Keep(WaitQueue.Without(row, t), tall)
  {
    if row != [] {
      KeepWithout(row[1..], tall, t);
      var k := Keep(row[1..], tall);
      assert ([row[0]] + k)[1..] == k;
      var w := WaitQueue.Without(row[1..], t);
      assert ([row[0]] + w)[1..] == w;
    }
  }

  /** A row above a sorted row is sorted. */
  lemma {:induction false} KeepOk(row: seq<Id>, tall: set<Id>, timeout: Id -> nat, now: nat, late: nat, span: nat)
    requires Window(row, timeout, now, late, span) && Sorted(row, timeout, now, late) && Distinct(row)
    ensures Window(Keep(row, tall), timeout, now, late, span) && Sorted(Keep(row, tall), timeout, now, late)
    ensures Distinct(Keep(row, tall))
  {
    hide Window, Sorted, Rank;
    if row != [] {
      TailSorted(row, timeout, now, late, span);
      WaitQueue.PopDistinct(row);
      var k := Keep(row[1..], tall);
      KeepOk(row[1..], tall, timeout, now, late, span);
      if row[0] in tall {
        HeadSorted(row[0], k, timeout, now, late, span);
        WaitQueue.PushDistinct(k, row[0]);
      }
    }
  }

  /** Inserting a tall timer in a row at its own place is inserting it in the row below. */
  lemma KeepInsert(row: seq<Id>, tall: set<Id>, t: Id, timeout: Id -> nat, now: nat, late: nat, span: nat)
    requires Window(row, timeout, now, late, span) && Sorted(row, timeout, now, late) && t !in row
    requires (forall x :: timeout(x) < WRAP) && late <= Rank(timeout(t), now, late) <= late + span
    ensures var above := Keep(row, tall);
            InsertAt(above, Place(above, timeout, timeout(t)), t)
            == Keep(InsertAt(row, Place(row, timeout, timeout(t)), t), tall + {t})
  {
    hide Window, Sorted, Rank, Later;
    var i := Place(row, timeout, timeout(t));
    var a, b := row[..i], row[i..];
    assert row == a + b;
    assert t !in a && t !in b;
    PlaceSplits(row, timeout, timeout(t), now, late, span);
    KeepConcat(a, b, tall);
    PlaceIs(Keep(a, tall), Keep(b, tall), timeout, timeout(t));
    KeepConcat(a + [t], b, tall + {t});
    KeepConcat(a, [t], tall + {t});
    KeepMore(a, tall, t);
    KeepMore(b, tall, t);
    KeepOne(t, tall + {t});
    var above := Keep(row, tall);
    assert above[..|Keep(a, tall)|] == Keep(a, tall) && above[|Keep(a, tall)|..] == Keep(b, tall);
  }

  lemma KeepOne(t: Id, tall: set<Id>)
    requires t in tall
    ensures Keep([t], tall) == [t]
  {
    assert [t][1..] == [];
  }

  /** Every row holds the tall timers of the one below; the last one holds all of them. */
  ghost predicate Rows(rows: seq<seq<Id>>, tall: seq<set<Id>>, row: seq<Id>) {
    && rows != [] && |tall| == |rows| && rows[|rows| - 1] == row
    && (forall l | 0 <= l < |rows| :: rows[l] == Keep(row, tall[l]))
    && (forall l, m | 0 <= l && m == l + 1 && m < |rows| :: tall[l] <= tall[m])
  }

  function IndexIn(row: seq<Id>, t: Id): (i: nat)
    ensures i <= |row| && (i < |row| ==> row[i] == t) && (t in row ==> i < |row|)
  {
    if row == [] || row[0] == t then 0 else 1 + IndexIn(row[1..], t)
  }

  class TimerList {
    const levels: nat              // RT_TIMER_SKIP_LIST_LEVEL
    var rows: seq<seq<Id>>
    var timeout: Id -> nat         // timeout_tick
    var init: Id -> nat            // init_tick
    var active: set<Id>            // the flags RT_TIMER_FLAG_ACTIVATED and RT_TIMER_FLAG_PERIODIC
    var periodic: set<Id>
    var randomNr: nat
    ghost var tall: seq<set<Id>>

    ghost predicate Shape()
      reads this
    {
      levels > 0 && |rows| == levels && Rows(rows, tall, rows[levels - 1])
    }

    ghost function Value(): Timers
      requires levels > 0 && |rows| == levels
      reads this
    {
      Timers(rows[levels - 1], timeout, init, active, periodic)
    }

    ghost predicate Valid(now: nat, late: nat, span: nat)
      reads this
    {
      Shape() && Ok(Value(), now, late, span)
    }

    /** rt_system_timer_init, with the tick fields and kinds of the timers. */
    constructor (levels: nat, init: Id -> nat, periodic: set<Id>)
      requires levels > 0
      ensures Shape() && Value() == Timers([], this.timeout, init, {}, periodic)
      ensures forall t :: this.timeout(t) == 0
    {
      this.levels, this.init, this.periodic, active, randomNr := levels, init, periodic, {}, 0;
      timeout := _ => 0;
      rows, tall := seq(levels, _ => []), seq(levels, _ => {});
    }

    /** _timer_remove: the timer leaves every row it is in. */
    method Remove(t: Id)
      requires Shape()
      modifies this`rows, this`tall
      ensures Shape() && rows[levels - 1] == WaitQueue.Without(old(rows[levels - 1]), t)
      ensures forall l | 0 <= l < levels :: t !in tall[l]
    {
      hide Keep, WaitQueue.Without;
      for i := 0 to levels
        invariant |rows| == levels && tall == old(tall)
        invariant forall l | 0 <= l < levels :: rows[l] == if l < i then WaitQueue.Without(old(rows)[l], t) else old(rows)[l]
      {
        rows := rows[i := WaitQueue.Without(rows[i], t)];
      }
      forall l | 0 <= l < levels ensures rows[l] == Keep(rows[levels - 1], tall[l] - {t}) {
        KeepWithout(old(rows)[levels - 1], tall[l], t);
        KeepLess(rows[levels - 1], tall[l], t);
      }
      ghost var was := tall;
      tall := seq(|was|, l requires 0 <= l < |was| => was[l] - {t});
    }

    /** The search of rt_timer_start: in each row, from the node found in the row above, to the last
        timer that is not later than the new one. The result is linear insertion's place in every row. */
    method Find(when: nat, ghost now: nat, ghost late: nat, ghost span: nat) returns (heads: seq<nat>)
      requires Valid(now, late, span) && when < WRAP && late <= Rank(when, now, late) <= late + span
      ensures |heads| == levels
      ensures forall l | 0 <= l < levels :: heads[l] == Place(rows[l], timeout, when)
    {
      hide Keep, Window, Sorted, Later, Rank, Place;
      heads := [];
      var head: nat := 0;
      for l := 0 to levels
        invariant |heads| == l && forall m | 0 <= m < l :: heads[m] == Place(rows[m], timeout, when)
        invariant l < levels ==> head <= Place(rows[l], timeout, when)
      {
        while head < |rows[l]| && !Later(timeout(rows[l][head]), when)
          invariant head <= Place(rows[l], timeout, when) <= |rows[l]|
          decreases |rows[l]| - head
        {
          head := head + 1;
        }
        heads := heads + [head];
        if l + 1 < levels {
          NextRow(rows, tall, rows[levels - 1], l, timeout, when, now, late, span);
          head := if head == 0 then 0 else IndexIn(rows[l + 1], rows[l][head - 1]) + 1;
        }
      }
    }

    /** rt_timer_start. */
    method Start(t: Id, now: nat, ghost late: nat, ghost span: nat)
      requires Valid(now, late, span)
      modifies this
      ensures Valid(now, late, span) && Value() == TimerTheory.Start(old(Value()), t, now)
    {
      hide Keep, Window, Sorted, Rank, Later, Place, InsertAt, Update;
      ghost var s := Value();
      StartKeeps(s, t, now, late, span);
      Remove(t);
      active := active - {t};
      var when := (now + init(t)) % WRAP;
      timeout := Update(timeout, t, when);
      StartRank(s, t, now, late, span);
      var heads := Find(when, now, late, span);
      InsertRows(t, heads, now, late, span);
      active := active + {t};
    }

    /** The links of rt_timer_start: into the last row, and into as many rows above as the counter says. */
    method InsertRows(t: Id, heads: seq<nat>, ghost now: nat, ghost late: nat, ghost span: nat)
      requires Shape() && |heads| == levels && t !in rows[levels - 1]
      requires forall l | 0 <= l < levels :: t !in tall[l] && heads[l] == Place(rows[l], timeout, timeout(t))
      requires Window(rows[levels - 1], timeout, now, late, span) && Sorted(rows[levels - 1], timeout, now, late)
      requires (forall x :: timeout(x) < WRAP) && late <= Rank(timeout(t), now, late) <= late + span
      modifies this`rows, this`tall, this`randomNr
      ensures Shape()
      ensures rows[levels - 1] == InsertAt(old(rows[levels - 1]), Place(old(rows[levels - 1]), timeout, timeout(t)), t)
    {
      hide Keep, Window, Sorted, Rank, Later, Place, InsertAt, Rows;
      ghost var was, wasTall := rows, tall;
      LastRow(rows, tall, rows[levels - 1]);
      randomNr := (randomNr + 1) % WRAP;
      var tst := randomNr;
      rows := rows[levels - 1 := InsertAt(rows[levels - 1], heads[levels - 1], t)];
      ghost var h := 1;
      var k := 2;
      while k <= levels && tst % (MASK + 1) == 0
        invariant 2 <= k <= levels + 1 && h == k - 1 && |rows| == levels
        invariant forall l | 0 <= l < levels ::
                    rows[l] == if l >= levels - h then InsertAt(was[l], heads[l], t) else was[l]
        decreases levels - k
      {
        rows := rows[levels - k := InsertAt(rows[levels - k], heads[levels - k], t)];
        tst := tst / 4;
        k, h := k + 1, h + 1;
      }
      tall := seq(levels, l requires 0 <= l < levels => if l >= levels - h then wasTall[l] + {t} else wasTall[l]);
      InsertedRows(was, wasTall, rows, tall, h, t, timeout, now, late, span);
    }

    /** rt_timer_stop. */
    method Stop(t: Id, ghost now: nat, ghost late: nat, ghost span: nat) returns (ok: bool)
      requires Valid(now, late, span)
      modifies this
      ensures Valid(now, late, span) && Value() == TimerTheory.Stop(old(Value()), t)
      ensures ok <==> t in old(active)
    {
      hide Keep, Window, Sorted, WaitQueue.Without;
      StopKeeps(Value(), t, now, late, span);
      if t !in active { return false; }
      Remove(t);
      active := active - {t};
      return true;
    }

    /** rt_timer_control with RT_TIMER_CTRL_SET_TIME. */
    method SetTime(t: Id, ticks: nat, ghost now: nat, ghost late: nat, ghost span: nat)
      requires Valid(now, late, span) && ticks <= span
      modifies this`init
      ensures Valid(now, late, span) && Value() == SetTicks(old(Value()), t, ticks)
    {
      hide Keep, Window, Sorted;
      init := Update(init, t, ticks);
    }

    /** rt_timer_check, at an unchanging tick. `list` is the temporary list a timer is on while its
        callback runs; the callback takes it off by starting or stopping the timer. */
    method Check(now: nat, ghost late: nat, ghost span: nat, does: Id -> Does) returns (fired: seq<Id>)
      requires Valid(now, late, span) && Obedient(Value(), does)
      modifies this
      ensures Valid(now, late, span)
      ensures fired == old(Value()).row[..DueCount(old(Value()).row, old(timeout), now)]
      ensures Value() == FireAll(old(Value()), fired, now, does)
      ensures forall x | x in Value().row :: !Due(timeout(x), now)
    {
      hide Keep, Window, Sorted, Due, DueCount, Fire, FireAll, Rows;
      ghost var s := Value();
      CheckMeaning(s, now, late, span, does);
      ghost var all := s.row[..DueCount(s.row, s.timeout, now)];
      fired := [];
      while rows[levels - 1] != [] && Due(timeout(rows[levels - 1][0]), now)
        invariant Valid(now, late, span) && periodic == s.periodic && init == s.init
        invariant |fired| <= |all| && fired == all[..|fired|]
        invariant DueCount(Value().row, timeout, now) == |all| - |fired|
        invariant Value().row[..|all| - |fired|] == all[|fired|..]
        invariant FireAll(Value(), all[|fired|..], now, does) == FireAll(s, all, now, does)
        decreases |all| - |fired|
      {
        var t := rows[levels - 1][0];
        OneMore(Value(), all, |fired|, now);
        FireKeeps(Value(), now, late, span, does(t));
        FireAllStep(Value(), all[|fired|..], now, does);
        FireOne(t, now, late, span, does(t));
        fired := fired + [t];
        assert all[|fired| - 1..][1..] == all[|fired|..];
      }
      NoMore(Value(), all, |fired|, now, does);
    }

    /** One turn of the loop of rt_timer_check. */
    method FireOne(t: Id, now: nat, ghost late: nat, ghost span: nat, does: Does)
      requires Valid(now, late, span) && rows[levels - 1] != [] && t == rows[levels - 1][0]
      requires DueCount(Value().row, timeout, now) > 0 && (Rearms(Value(), t, does) ==> init(t) >= 1)
      modifies this
      ensures Valid(now, late, span) && Value() == Fire(old(Value()), t, now, does)
    {
      hide Keep, Window, Sorted, Due, DueCount, Rows, TimerTheory.Start, WaitQueue.Without;
      ghost var s := Value();
      FireKeeps(s, now, late, span, does);
      FireGone(s, now, late, span, if t in periodic then active else active - {t});
      FireGone(s, now, late, span, (if t in periodic then active else active - {t}) - {t});
      TakeOut(t, now, late, span);
      var list := [t];
      match does {
        case Nothing =>
        case Restarts =>
          Start(t, now, late, span);
          list := [];
        case Stops =>
          var stopped := Stop(t, now, late, span);
          if stopped { list := []; }
      }
      if list != [] { PutBack(t, now, late, span); }
    }

    /** An expired timer leaves the list before its callback runs (the hard and the soft check). */
    method TakeOut(t: Id, ghost now: nat, ghost late: nat, ghost span: nat)
      requires Valid(now, late, span) && rows[levels - 1] != [] && t == rows[levels - 1][0]
      modifies this
      ensures Valid(now, late, span) && Value() == TimerTheory.TakeOut(old(Value()), t)
    {
      hide Keep, Window, Sorted, Due, DueCount, Rows, WaitQueue.Without;
      FireGone(Value(), now, late, span, if t in periodic then active else active - {t});
      Remove(t);
      if t !in periodic { active := active - {t}; }
    }

    /** After its callback, a timer that is still on the temporary list is started again if it is periodic. */
    method PutBack(t: Id, now: nat, ghost late: nat, ghost span: nat)
      requires Valid(now, late, span) && t !in rows[levels - 1]
      modifies this
      ensures Valid(now, late, span) && Value() == TimerTheory.PutBack(old(Value()), t, now)
    {
      hide Keep, Window, Sorted, Rows, TimerTheory.Start;
      if t in periodic && t in active {
        active := active - {t};
        Start(t, now, late, span);
      }
    }
  }

  lemma NextRow(rows: seq<seq<Id>>, tall: seq<set<Id>>, row: seq<Id>, l: nat, timeout: Id -> nat, when: nat,
                now: nat, late: nat, span: nat)
    requires Rows(rows, tall, row) && l + 1 < |rows| && Distinct(row)
    requires Window(row, timeout, now, late, span) && Sorted(row, timeout, now, late) && (forall x :: timeout(x) < WRAP)
    requires when < WRAP && late <= Rank(when, now, late) <= late + span
    ensures var p := Place(rows[l], timeout, when);
            p > 0 ==> rows[l][p - 1] in rows[l + 1] && IndexIn(rows[l + 1], rows[l][p - 1]) < Place(rows[l + 1], timeout, when)
  {
    hide Window, Sorted, Later, Rank;
    var p := Place(rows[l], timeout, when);
    KeepOk(row, tall[l + 1], timeout, now, late, span);
    PlaceSplits(rows[l + 1], timeout, when, now, late, span);
    assert tall[l] <= tall[l + 1];
    if p > 0 {
      var u := rows[l][p - 1];
      assert u in rows[l] && u in rows[l + 1];
      assert !Later(timeout(rows[l + 1][IndexIn(rows[l + 1], u)]), when);
    }
  }

  lemma StartRank(s: Timers, t: Id, now: nat, late: nat, span: nat)
    requires Ok(s, now, late, span)
    ensures var when := (now + s.init(t)) % WRAP; when < WRAP && late <= Rank(when, now, late) <= late + span
  {
    WindowShort(s.row, s.timeout, now, late, span);
    NewRank(now, late, span, s.init(t));
  }

  lemma LastRow(rows: seq<seq<Id>>, tall: seq<set<Id>>, row: seq<Id>)
    requires Rows(rows, tall, row)
    ensures |tall| == |rows| > 0 && rows[|rows| - 1] == row
  {
  }

  lemma InsertedRows(was: seq<seq<Id>>, wasTall: seq<set<Id>>, rows: seq<seq<Id>>, tall: seq<set<Id>>,
                     h: nat, t: Id, timeout: Id -> nat, now: nat, late: nat, span: nat)
    requires was != [] && Rows(was, wasTall, was[|was| - 1]) && 1 <= h <= |was| == |rows| == |tall| == |wasTall|
    requires t !in was[|was| - 1] && forall l | 0 <= l < |rows| :: t !in wasTall[l]
    requires Window(was[|was| - 1], timeout, now, late, span) && Sorted(was[|was| - 1], timeout, now, late)
    requires (forall x :: timeout(x) < WRAP) && late <= Rank(timeout(t), now, late) <= late + span
    requires forall l | 0 <= l < |rows| ::
               && rows[l] == (if l >= |rows| - h then InsertAt(was[l], Place(was[l], timeout, timeout(t)), t) else was[l])
               && tall[l] == (if l >= |rows| - h then wasTall[l] + {t} else wasTall[l])
    ensures Rows(rows, tall, rows[|rows| - 1])
  {
    hide Window, Sorted, Rank, Place, InsertAt, Keep;
    var row := was[|was| - 1];
    var i := Place(row, timeout, timeout(t));
    forall l | 0 <= l < |rows| ensures rows[l] == Keep(rows[|rows| - 1], tall[l]) {
      assert was[l] == Keep(row, wasTall[l]);
      KeepInsert(row, wasTall[l], t, timeout, now, late, span);
      KeepShort(row, i, t, wasTall[l]);
    }
  }

  /** A timer that is not tall does not show in the rows above. */
  lemma KeepShort(row: seq<Id>, i: nat, t: Id, tall: set<Id>)
    requires i <= |row| && t !in tall
    ensures Keep(InsertAt(row, i, t), tall) == Keep(row, tall)
  {
    hide Keep;
    var a, b := row[..i], row[i..];
    assert row == a + b;
    KeepConcat(a, b, tall);
    KeepConcat(a + [t], b, tall);
    KeepConcat(a, [t], tall);
    KeepNone(t, tall);
    assert Keep(a, tall) + [] == Keep(a, tall);
  }

  lemma KeepNone(t: Id, tall: set<Id>)
    requires t !in tall
    ensures Keep([t], tall) == []
  {
    assert [t][1..] == [];
  }

  lemma OneMore(s: Timers, all: seq<Id>, n: nat, now: nat)
    requires n <= |all| && s.row != [] && Due(s.timeout(s.row[0]), now)
    requires DueCount(s.row, s.timeout, now) == |all| - n && s.row[..|all| - n] == all[n..]
    ensures n < |all| && s.row[0] == all[n] && DueCount(s.row, s.timeout, now) > 0
    ensures all[..n + 1] == all[..n] + [s.row[0]]
  {
    assert all[n..][0] == s.row[..|all| - n][0];
  }

  lemma FireAllStep(s: Timers, ts: seq<Id>, now: nat, does: Id -> Does)
    requires ts != []
    ensures FireAll(s, ts, now, does) == FireAll(Fire(s, ts[0], now, does(ts[0])), ts[1..], now, does)
  {
  }

  lemma NoMore(s: Timers, all: seq<Id>, n: nat, now: nat, does: Id -> Does)
    requires n <= |all| && (s.row == [] || !Due(s.timeout(s.row[0]), now))
    requires DueCount(s.row, s.timeout, now) == |all| - n
    ensures n == |all| && all[..n] == all && FireAll(s, all[n..], now, does) == s
  {
  }
}
