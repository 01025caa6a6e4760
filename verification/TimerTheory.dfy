/** Starting, stopping and checking timers (timer.c), and all runs of these under a ticking clock. */
module TimerTheory {
  import opened Basics
  import opened TimerSpec
  import WaitQueue

  /** `row` holds the pending timers; flags and tick fields are those of the timers. */
  datatype Timers = Timers(row: seq<Id>, timeout: Id -> nat, init: Id -> nat, active: set<Id>, periodic: set<Id>)

  /** What a timer's callback does to its own timer. */
  datatype Does = Nothing | Restarts | Stops

  /** rt_timer_start. */
  function Start(s: Timers, t: Id, now: nat): Timers {
    var row := WaitQueue.Without(s.row, t);
    var timeout := Update(s.timeout, t, (now + s.init(t)) % WRAP);
    s.(row := InsertAt(row, Place(row, timeout, timeout(t)), t), timeout := timeout, active := s.active + {t})
  }

  /** rt_timer_stop. */
  function Stop(s: Timers, t: Id): Timers {
    if t in s.active then s.(row := WaitQueue.Without(s.row, t), active := s.active - {t}) else s
  }

  /** rt_timer_control with RT_TIMER_CTRL_SET_TIME; the timeout of a pending timer stays until it is started again. */
  function SetTicks(s: Timers, t: Id, ticks: nat): Timers {
    s.(init := Update(s.init, t, ticks))
  }

  /** An expired timer leaves the list, for its callback to run. */
  function TakeOut(s: Timers, t: Id): Timers {
    s.(row := WaitQueue.Without(s.row, t), active := if t in s.periodic then s.active else s.active - {t})
  }

  /** A timer that was neither started nor stopped during its callback is started again if it is periodic. */
  function PutBack(s: Timers, t: Id, now: nat): Timers {
    if t in s.periodic && t in s.active then Start(s.(active := s.active - {t}), t, now) else s
  }

  /** rt_timer_check, for one expired timer: it leaves the list, its callback runs, and it is started
      again if the callback says so, or if it is periodic and the callback left it alone. */
  function Fire(s: Timers, t: Id, now: nat, does: Does): Timers {
    match does
    case Nothing => PutBack(TakeOut(s, t), t, now)
    case Restarts => Start(TakeOut(s, t), t, now)
    case Stops => Stop(TakeOut(s, t), t)
  }

  predicate Rearms(s: Timers, t: Id, does: Does) {
    does == Restarts || (does == Nothing && t in s.periodic)
  }

  function FireAll(s: Timers, ts: seq<Id>, now: nat, does: Id -> Does): Timers
    decreases |ts|
  {
    if ts == [] then s else FireAll(Fire(s, ts[0], now, does(ts[0])), ts[1..], now, does)
  }

  /** The number of expired timers at the front of the row. */
  function DueCount(row: seq<Id>, timeout: Id -> nat, now: nat): (k: nat)
    ensures k <= |row|
    ensures forall j | 0 <= j < k :: Due(timeout(row[j]), now)
    ensures k < |row| ==> !Due(timeout(row[k]), now)
  {
    if row == [] || !Due(timeout(row[0]), now) then 0
    else
      var k := DueCount(row[1..], timeout, now);
      assert forall j | 0 < j < k + 1 :: row[j] == row[1..][j - 1];
      k + 1
  }

  /** The row is sorted inside the window, without repetition, and its timers are active. */
  ghost predicate Ok(s: Timers, now: nat, late: nat, span: nat) {
    && now < WRAP
    && Window(s.row, s.timeout, now, late, span) && Sorted(s.row, s.timeout, now, late)
    && (forall t: Id :: s.timeout(t) < WRAP && s.init(t) <= span)
    && Distinct(s.row) && (forall t | t in s.row :: t in s.active)
  }

  // ---- Removal and insertion -------------------------------------------------------------------

  lemma {:induction false} WithoutOk(row: seq<Id>, t: Id, timeout: Id -> nat, now: nat, late: nat, span: nat)
    requires Window(row, timeout, now, late, span) && Sorted(row, timeout, now, late)
    ensures Window(WaitQueue.Without(row, t), timeout, now, late, span)
    ensures Sorted(WaitQueue.Without(row, t), timeout, now, late)
  {
    hide Window, Sorted, Rank;
    if row != [] {
      TailSorted(row, timeout, now, late, span);
      WithoutOk(row[1..], t, timeout, now, late, span);
      if row[0] != t { HeadSorted(row[0], WaitQueue.Without(row[1..], t), timeout, now, late, span); }
    }
  }

  /** Timeouts of timers that are not on the row do not matter. */
  lemma OtherTimeout(row: seq<Id>, timeout: Id -> nat, timeout': Id -> nat, now: nat, late: nat, span: nat)
    requires Window(row, timeout, now, late, span) && Sorted(row, timeout, now, late)
    requires forall t | t in row :: timeout'(t) == timeout(t)
    ensures Window(row, timeout', now, late, span) && Sorted(row, timeout', now, late)
  {
    hide Minus, Rank;
    assert forall i | 0 <= i < |row| :: row[i] in row;
  }

  /** A timer started now gets a place in the window. */
  lemma NewRank(now: nat, late: nat, span: nat, init: nat)
    requires now < WRAP && init <= span && Short(late, span)
    ensures Rank((now + init) % WRAP, now, late) == late + init
  {
    NewTimeout(now, late, init);
  }

  /** Timers started with times the source accepts lie less than half the range ahead. Starting one more keeps the row
      sorted if and only if the first pending timer is not too long before the new timeout: only lateness breaks the order. */
  lemma StartSortedExactly(s: Timers, t: Id, now: nat, late: nat)
    requires Sorted(s.row, s.timeout, now, late) && (forall x: Id :: s.timeout(x) < WRAP)
    requires now < WRAP && late + HALF <= WRAP && s.init(t) < HALF
    requires forall x | x in s.row :: Rank(s.timeout(x), now, late) < late + HALF
    ensures var s' := Start(s, t, now); var rest := WaitQueue.Without(s.row, t);
            Sorted(s'.row, s'.timeout, now, late)
            <==> (rest != [] ==> late + s.init(t) - Rank(s.timeout(rest[0]), now, late) <= WRAP - HALF)
  {
    hide Rank, Place, InsertAt, WaitQueue.Without, Sorted;
    var s', rest := Start(s, t, now), WaitQueue.Without(s.row, t);
    NewTimeout(now, late, s.init(t));
    SortedRest(s.row, s.timeout, s'.timeout, t, now, late);
    assert rest != [] ==> rest[0] in rest;
    OnlyLate(rest, s'.timeout, t, now, late);
  }

  lemma SortedRest(row: seq<Id>, timeout: Id -> nat, timeout': Id -> nat, t: Id, now: nat, late: nat)
    requires Sorted(row, timeout, now, late) && forall x | x != t :: timeout'(x) == timeout(x)
    ensures Sorted(WaitQueue.Without(row, t), timeout', now, late)
  {
    hide Rank, WaitQueue.Without;
    var rest := WaitQueue.Without(row, t);
    WaitQueue.WithoutSorted(row, t, x => Rank(timeout(x), now, late));
    assert forall i | 0 <= i < |rest| :: rest[i] in rest;
  }

  lemma OnlyLate(row: seq<Id>, timeout: Id -> nat, t: Id, now: nat, late: nat)
    requires Sorted(row, timeout, now, late) && (forall x :: timeout(x) < WRAP) && late <= Rank(timeout(t), now, late)
    requires forall x | x in row :: Rank(timeout(x), now, late) < late + HALF
    ensures Sorted(InsertAt(row, Place(row, timeout, timeout(t)), t), timeout, now, late)
            <==> (row != [] ==> Rank(timeout(t), now, late) - Rank(timeout(row[0]), now, late) <= WRAP - HALF)
  {
    hide Rank, Place, InsertAt, Sorted;
    InsertSortedExactly(row, timeout, t, now, late);
    assert forall i | 0 <= i < |row| :: row[i] in row;
  }

  lemma NewTimeout(now: nat, late: nat, init: nat)
    requires now < WRAP && late + init < WRAP
    ensures Rank((now + init) % WRAP, now, late) == late + init
  {
    var w := (now + init) % WRAP;
    var k := (now + init) / WRAP;
    assert now + init == k * WRAP + w;
    Shift(w - (now - late), k);
  }

  lemma InsertDistinct(row: seq<Id>, i: nat, t: Id)
    requires Distinct(row) && i <= |row| && t !in row
    ensures Distinct(InsertAt(row, i, t)) && forall x :: x in InsertAt(row, i, t) <==> x in row || x == t
  {
    hide InsertAt;
    var r := InsertAt(row, i, t);
    InsertIndex(row, i, t, 0);
    forall x, y | 0 <= x < y < |r| ensures r[x] != r[y] {
      InsertIndex(row, i, t, x);
      InsertIndex(row, i, t, y);
    }
    forall x ensures x in r <==> x in row || x == t {
      InsertMember(row, i, t, x);
    }
  }

  lemma InsertMember(row: seq<Id>, i: nat, t: Id, x: Id)
    requires i <= |row|
    ensures x in InsertAt(row, i, t) <==> x in row || x == t
  {
    assert row == row[..i] + row[i..];
  }

  lemma StartKeeps(s: Timers, t: Id, now: nat, late: nat, span: nat)
    requires Ok(s, now, late, span)
    ensures var s' := Start(s, t, now); var rest := WaitQueue.Without(s.row, t);
            && Ok(s', now, late, span)
            && s'.timeout(t) == (now + s.init(t)) % WRAP && (forall x | x != t :: s'.timeout(x) == s.timeout(x))
            && s'.row == InsertAt(rest, Place(rest, s'.timeout, s'.timeout(t)), t)
            && Ok(s.(row := rest, timeout := s'.timeout), now, late, span)
  {
    hide Window, Sorted, InsertAt, Place, WaitQueue.Without, Rank;
    var rest := WaitQueue.Without(s.row, t);
    var s' := Start(s, t, now);
    WaitQueue.WithoutDistinct(s.row, t);
    WithoutOk(s.row, t, s.timeout, now, late, span);
    OtherTimeout(rest, s.timeout, s'.timeout, now, late, span);
    WindowShort(s.row, s.timeout, now, late, span);
    NewRank(now, late, span, s.init(t));
    InsertSorted(rest, s'.timeout, t, now, late, span);
    InsertDistinct(rest, Place(rest, s'.timeout, s'.timeout(t)), t);
  }

  lemma WindowShort(row: seq<Id>, timeout: Id -> nat, now: nat, late: nat, span: nat)
    requires Window(row, timeout, now, late, span)
    ensures Short(late, span)
  {
  }

  lemma StopKeeps(s: Timers, t: Id, now: nat, late: nat, span: nat)
    requires Ok(s, now, late, span)
    ensures Ok(Stop(s, t), now, late, span) && t !in Stop(s, t).row
    ensures forall x | x != t :: x in Stop(s, t).row <==> x in s.row
  {
    hide Window, Sorted;
    WaitQueue.WithoutDistinct(s.row, t);
    WithoutOk(s.row, t, s.timeout, now, late, span);
  }

  /** A started timer is pending and active, at the tick its time is from now; nothing else changes. */
  lemma StartExactly(s: Timers, t: Id, now: nat, late: nat, span: nat)
    requires Ok(s, now, late, span)
    ensures var s' := Start(s, t, now);
            && (forall x :: x in s'.row <==> x in s.row || x == t) && s'.active == s.active + {t}
            && (forall x :: s'.timeout(x) == if x == t then (now + s.init(t)) % WRAP else s.timeout(x))
            && s'.periodic == s.periodic && s'.init == s.init
  {
    hide Ok, InsertAt, Place, WaitQueue.Without;
    StartKeeps(s, t, now, late, span);
    var rest := WaitQueue.Without(s.row, t);
    var s' := Start(s, t, now);
    forall x ensures x in s'.row <==> x in s.row || x == t {
      WithoutMember(s, t, now, late, span);
      InsertMember(rest, Place(rest, s'.timeout, s'.timeout(t)), t, x);
    }
  }

  lemma WithoutMember(s: Timers, t: Id, now: nat, late: nat, span: nat)
    requires Ok(s, now, late, span)
    ensures forall x :: x in WaitQueue.Without(s.row, t) <==> x in s.row && x != t
  {
    hide Window, Sorted;
    WaitQueue.WithoutDistinct(s.row, t);
  }

  /** A stopped timer is neither pending nor active; nothing else changes. */
  lemma StopExactly(s: Timers, t: Id, now: nat, late: nat, span: nat)
    requires Ok(s, now, late, span)
    ensures var s' := Stop(s, t);
            && (forall x :: x in s'.row <==> x in s.row && x != t) && s'.active == s.active - {t}
            && s'.periodic == s.periodic && s'.init == s.init && s'.timeout == s.timeout
  {
    hide Window, Sorted;
    WithoutMember(s, t, now, late, span);
  }

  /** A time that is set counts from the next start on, and leaves what is pending as it is. */
  lemma SetTimeExactly(s: Timers, t: Id, ticks: nat, now: nat)
    ensures var s' := SetTicks(s, t, ticks);
            && s'.row == s.row && s'.timeout == s.timeout && s'.active == s.active && s'.periodic == s.periodic
            && (forall x | x != t :: s'.init(x) == s.init(x))
            && Start(s', t, now).timeout(t) == (now + ticks) % WRAP
  {
  }

  // ---- The check -------------------------------------------------------------------------------

  /** In a sorted row the expired timers are the first ones. */
  lemma DueFirst(s: Timers, now: nat, late: nat, span: nat)
    requires Ok(s, now, late, span)
    ensures forall j | 0 <= j < |s.row| ::
              (j < DueCount(s.row, s.timeout, now) <==> Due(s.timeout(s.row[j]), now))
              && (Due(s.timeout(s.row[j]), now) <==> Rank(s.timeout(s.row[j]), now, late) <= late)
  {
    hide Due, Rank;
    var k := DueCount(s.row, s.timeout, now);
    forall j | 0 <= j < |s.row|
      ensures (j < k <==> Due(s.timeout(s.row[j]), now))
              && (Due(s.timeout(s.row[j]), now) <==> Rank(s.timeout(s.row[j]), now, late) <= late)
    {
      RankInWindow(s.row, s.timeout, now, late, span, j);
      DueIsRank(s.timeout(s.row[j]), now, late, span);
      if k < |s.row| {
        RankInWindow(s.row, s.timeout, now, late, span, k);
        DueIsRank(s.timeout(s.row[k]), now, late, span);
      }
    }
  }

  lemma DueCountIs(row: seq<Id>, timeout: Id -> nat, now: nat, k: nat)
    requires k <= |row| && (forall j | 0 <= j < k :: Due(timeout(row[j]), now)) && (k < |row| ==> !Due(timeout(row[k]), now))
    ensures DueCount(row, timeout, now) == k
  {
  }

  lemma FirstOut(row: seq<Id>)
    requires Distinct(row) && row != []
    ensures WaitQueue.Without(row, row[0]) == row[1..]
  {
    WaitQueue.WithoutAt(row, 0);
  }

  /** Firing the first timer, when that starts it again: it goes behind all timers that are due. */
  lemma FireRearm(s: Timers, now: nat, late: nat, span: nat)
    requires Ok(s, now, late, span) && s.row != [] && s.init(s.row[0]) >= 1
    ensures var t := s.row[0]; var s' := Start(s, t, now);
            var k := DueCount(s.row, s.timeout, now);
            k > 0 ==>
              && Ok(s', now, late, span) && !Due(s'.timeout(t), now)
              && DueCount(s'.row, s'.timeout, now) == k - 1 && s'.row[..k - 1] == s.row[1..k]
              && (forall x :: x in s'.row <==> x in s.row)
  {
    hide Window, Sorted, InsertAt, Due, Rank, Later;
    var t, k := s.row[0], DueCount(s.row, s.timeout, now);
    var s' := Start(s, t, now);
    if k > 0 {
      StartKeeps(s, t, now, late, span);
      FirstOut(s.row);
      var rest := s.row[1..];
      var i := Place(rest, s'.timeout, s'.timeout(t));
      WindowShort(s.row, s.timeout, now, late, span);
      NewRank(now, late, span, s.init(t));
      DueIsRank(s'.timeout(t), now, late, span);
      DueFirst(s, now, late, span);
      PlaceSplits(rest, s'.timeout, s'.timeout(t), now, late, span);
      BehindDue(s, s', now, late, k, i);
      InsertedCount(rest, s'.timeout, now, k - 1, i, t);
      forall x ensures x in s'.row <==> x in s.row { InsertMember(rest, i, t, x); }
    }
  }

  lemma BehindDue(s: Timers, s': Timers, now: nat, late: nat, k: nat, i: nat)
    requires 0 < k <= |s.row| && Distinct(s.row) && i <= |s.row| - 1
    requires forall x | x != s.row[0] :: s'.timeout(x) == s.timeout(x)
    requires forall j | 0 <= j < |s.row| :: (j < k <==> Due(s.timeout(s.row[j]), now))
               && (Due(s.timeout(s.row[j]), now) <==> Rank(s.timeout(s.row[j]), now, late) <= late)
    requires Rank(s'.timeout(s.row[0]), now, late) >= late
    requires forall j | 0 <= j < |s.row| - 1 ::
               j < i <==> Rank(s'.timeout(s.row[1..][j]), now, late) <= Rank(s'.timeout(s.row[0]), now, late)
    ensures k - 1 <= i
    ensures forall j | 0 <= j < |s.row| - 1 :: s'.timeout(s.row[1..][j]) == s.timeout(s.row[j + 1])
    ensures forall j | 0 <= j < |s.row| - 1 :: j < k - 1 <==> Due(s'.timeout(s.row[1..][j]), now)
  {
    hide Due, Rank;
    var rest := s.row[1..];
    assert forall j | 0 <= j < |rest| :: rest[j] == s.row[j + 1] && rest[j] != s.row[0];
    assert forall j | 0 <= j < k - 1 :: s'.timeout(rest[j]) == s.timeout(s.row[j + 1]);
    assert k >= 2 ==> Rank(s'.timeout(rest[k - 2]), now, late) <= late;
  }

  lemma InsertedCount(rest: seq<Id>, timeout: Id -> nat, now: nat, k: nat, i: nat, t: Id)
    requires k <= i <= |rest| && (forall j | 0 <= j < |rest| :: j < k <==> Due(timeout(rest[j]), now))
    requires !Due(timeout(t), now)
    ensures var r := InsertAt(rest, i, t); DueCount(r, timeout, now) == k && r[..k] == rest[..k]
  {
    hide Due, InsertAt;
    var r := InsertAt(rest, i, t);
    InsertIndex(rest, i, t, 0);
    forall j | 0 <= j < k ensures r[j] == rest[j] { InsertIndex(rest, i, t, j); }
    if k < |r| { InsertIndex(rest, i, t, k); }
    DueCountIs(r, timeout, now, k);
  }

  lemma FireGone(s: Timers, now: nat, late: nat, span: nat, active: set<Id>)
    requires Ok(s, now, late, span) && s.row != [] && (forall t | t in s.row && t != s.row[0] :: t in active)
    ensures var s' := s.(row := WaitQueue.Without(s.row, s.row[0]), active := active);
            var k := DueCount(s.row, s.timeout, now);
            && Ok(s', now, late, span)
            && (k > 0 ==> DueCount(s'.row, s'.timeout, now) == k - 1 && s'.row[..k - 1] == s.row[1..k])
            && (forall x :: x in s'.row <==> x in s.row && x != s.row[0])
  {
    hide Window, Sorted, Due;
    FirstOut(s.row);
    WaitQueue.PopDistinct(s.row);
    WithoutOk(s.row, s.row[0], s.timeout, now, late, span);
    var k, rest := DueCount(s.row, s.timeout, now), s.row[1..];
    if k > 0 {
      assert forall j | 0 <= j < |rest| :: rest[j] == s.row[j + 1];
      DueCountIs(rest, s.timeout, now, k - 1);
    }
  }

  /** One turn of the check: the expired timers that follow keep their order, no new one joins them,
      and the fired timer is pending afterwards exactly when it was started again. */
  lemma FireKeeps(s: Timers, now: nat, late: nat, span: nat, does: Does)
    requires Ok(s, now, late, span) && DueCount(s.row, s.timeout, now) > 0
    requires Rearms(s, s.row[0], does) ==> s.init(s.row[0]) >= 1
    ensures var t, k := s.row[0], DueCount(s.row, s.timeout, now); var s' := Fire(s, t, now, does);
            && Ok(s', now, late, span) && s'.periodic == s.periodic && s'.init == s.init
            && DueCount(s'.row, s'.timeout, now) == k - 1 && s'.row[..k - 1] == s.row[1..k]
            && (forall x :: x in s'.row <==> x in s.row && (x != t || Rearms(s, t, does)))
  {
    hide Window, Sorted, Due, InsertAt, Start, DueCount;
    var t := s.row[0];
    assert t in s.row;
    WaitQueue.PopDistinct(s.row);
    if Rearms(s, t, does) {
      FireRearm(s, now, late, span);
      FireStarts(s, t, now, does);
    } else {
      var off := if t in s.periodic then s.active else s.active - {t};
      FireGone(s, now, late, span, off);
      FireGone(s, now, late, span, off - {t});
      WaitQueue.WithoutNone(WaitQueue.Without(s.row, t), t);
    }
  }

  lemma FireStarts(s: Timers, t: Id, now: nat, does: Does)
    requires t in s.active && Rearms(s, t, does)
    ensures Fire(s, t, now, does) == Start(s, t, now)
    ensures Start(s, t, now).periodic == s.periodic && Start(s, t, now).init == s.init
  {
    hide Place, InsertAt, Update, WaitQueue.Without;
    WaitQueue.WithoutNone(WaitQueue.Without(s.row, t), t);
    var off := if t in s.periodic then s.active else s.active - {t};
    assert off + {t} == s.active + {t} && off - {t} + {t} == s.active + {t};
  }

  ghost predicate Obedient(s: Timers, does: Id -> Does) {
    forall t: Id | Rearms(s, t, does(t)) :: s.init(t) >= 1
  }

  lemma ExpiredSplit(row: seq<Id>, k: nat)
    requires Distinct(row) && 0 < k <= |row|
    ensures row[..k][0] == row[0] && row[..k][1..] == row[1..k] && row[0] !in row[1..k]
    ensures forall x :: x in row[..k] <==> x == row[0] || x in row[1..k]
  {
    assert row[..k] == [row[0]] + row[1..k];
  }

  /** The whole check: it fires exactly the expired timers, each once, in their order; afterwards no
      pending timer is expired, and pending are those that were not fired or were started again. */
  lemma {:induction false} CheckMeaning(s: Timers, now: nat, late: nat, span: nat, does: Id -> Does)
    requires Ok(s, now, late, span) && Obedient(s, does)
    ensures var fired := s.row[..DueCount(s.row, s.timeout, now)]; var s' := FireAll(s, fired, now, does);
            && Ok(s', now, late, span) && s'.periodic == s.periodic && s'.init == s.init
            && (forall x | x in s.row :: x in fired <==> Due(s.timeout(x), now))
            && Distinct(fired)
            && (forall x | x in s'.row :: !Due(s'.timeout(x), now))
            && (forall x :: x in s'.row <==> x in s.row && (x !in fired || Rearms(s, x, does(x))))
    decreases DueCount(s.row, s.timeout, now)
  {
    hide Window, Sorted, Due, DueCount, Fire;
    var k := DueCount(s.row, s.timeout, now);
    DueFirst(s, now, late, span);
    ExpiredAre(s.row, s.timeout, now, k);
    if k > 0 {
      var t := s.row[0];
      FireKeeps(s, now, late, span, does(t));
      var s1 := Fire(s, t, now, does(t));
      CheckMeaning(s1, now, late, span, does);
      ExpiredSplit(s.row, k);
      var rest := s.row[1..k];
      assert s1.row[..k - 1] == rest;
      forall x ensures x in FireAll(s1, rest, now, does).row <==> x in s.row && (x !in s.row[..k] || Rearms(s, x, does(x))) {
        assert x in rest ==> x in s.row && x != t;
      }
    }
  }

  lemma ExpiredAre(row: seq<Id>, timeout: Id -> nat, now: nat, k: nat)
    requires k <= |row| && Distinct(row) && forall j | 0 <= j < |row| :: j < k <==> Due(timeout(row[j]), now)
    ensures forall x | x in row :: x in row[..k] <==> Due(timeout(x), now)
    ensures Distinct(row[..k])
  {
    hide Due;
    forall x | x in row ensures x in row[..k] <==> Due(timeout(x), now) {
      var j :| 0 <= j < |row| && row[j] == x;
      if j < k { assert row[..k][j] == x; }
    }
  }

  // ---- When the check ends ---------------------------------------------------------------------

  /** A timer that is started again for no time at all is due again, behind all others that are. */
  lemma FireNoTime(s: Timers, now: nat, late: nat, span: nat)
    requires Ok(s, now, late, span) && DueCount(s.row, s.timeout, now) > 0 && s.init(s.row[0]) == 0
    ensures var s' := Start(s, s.row[0], now);
            Due(s'.timeout(s.row[0]), now) && DueCount(s'.row, s'.timeout, now) == DueCount(s.row, s.timeout, now)
  {
    hide Window, Sorted, InsertAt, Due, Rank, Later;
    var t, k := s.row[0], DueCount(s.row, s.timeout, now);
    var s' := Start(s, t, now);
    StartKeeps(s, t, now, late, span);
    FirstOut(s.row);
    var rest := s.row[1..];
    var i := Place(rest, s'.timeout, s'.timeout(t));
    WindowShort(s.row, s.timeout, now, late, span);
    NewRank(now, late, span, 0);
    DueIsRank(s'.timeout(t), now, late, span);
    DueFirst(s, now, late, span);
    PlaceSplits(rest, s'.timeout, s'.timeout(t), now, late, span);
    BehindDue(s, s', now, late, k, i);
    assert forall j | k - 1 <= j < |rest| :: Rank(s'.timeout(rest[j]), now, late) > late;
    StillDue(rest, s'.timeout, now, i, t);
  }

  lemma StillDue(rest: seq<Id>, timeout: Id -> nat, now: nat, i: nat, t: Id)
    requires i <= |rest| && (forall j | 0 <= j < |rest| :: j < i <==> Due(timeout(rest[j]), now)) && Due(timeout(t), now)
    ensures DueCount(InsertAt(rest, i, t), timeout, now) == i + 1
  {
    hide Due, InsertAt;
    var r := InsertAt(rest, i, t);
    InsertIndex(rest, i, t, 0);
    forall j | 0 <= j < i + 1 ensures Due(timeout(r[j]), now) { InsertIndex(rest, i, t, j); }
    if i + 1 < |r| { InsertIndex(rest, i, t, i + 1); }
    DueCountIs(r, timeout, now, i + 1);
  }

  /** One turn of the check, when the fired timer is started again: one timer less is due if and only if it is started
      for at least one tick. */
  lemma RearmExactly(s: Timers, now: nat, late: nat, span: nat, does: Does)
    requires Ok(s, now, late, span) && DueCount(s.row, s.timeout, now) > 0 && Rearms(s, s.row[0], does)
    ensures var s' := Fire(s, s.row[0], now, does); var k := DueCount(s.row, s.timeout, now);
            DueCount(s'.row, s'.timeout, now) == (if s.init(s.row[0]) >= 1 then k - 1 else k)
  {
    hide Window, Sorted, Due, InsertAt, Start, DueCount;
    assert s.row[0] in s.row;
    FireStarts(s, s.row[0], now, does);
    if s.init(s.row[0]) >= 1 { FireKeeps(s, now, late, span, does); } else { FireNoTime(s, now, late, span); }
  }

  /** One turn of the loop of rt_timer_check, or nothing when it is over. */
  function Turn(s: Timers, now: nat, does: Id -> Does): Timers {
    if s.row != [] && Due(s.timeout(s.row[0]), now) then Fire(s, s.row[0], now, does(s.row[0])) else s
  }

  function Turns(s: Timers, now: nat, does: Id -> Does, n: nat): Timers
    decreases n
  {
    if n == 0 then s else Turns(Turn(s, now, does), now, does, n - 1)
  }

  ghost predicate CheckEnds(s: Timers, now: nat, does: Id -> Does) {
    exists n :: DueCount(Turns(s, now, does, n).row, Turns(s, now, does, n).timeout, now) == 0
  }

  /** Every expired timer that will be started again is started for at least one tick. */
  ghost predicate Advances(s: Timers, now: nat, does: Id -> Does) {
    forall t | t in s.row && Due(s.timeout(t), now) && Rearms(s, t, does(t)) :: s.init(t) >= 1
  }

  lemma CheckEndsExactly(s: Timers, now: nat, late: nat, span: nat, does: Id -> Does)
    requires Ok(s, now, late, span)
    ensures CheckEnds(s, now, does) <==> Advances(s, now, does)
  {
    hide Ok, Turns, Due, DueCount;
    if Advances(s, now, does) {
      var n := EndsAfter(s, now, late, span, does);
      assert DueCount(Turns(s, now, does, n).row, Turns(s, now, does, n).timeout, now) == 0;
    } else {
      var t :| t in s.row && Due(s.timeout(t), now) && Rearms(s, t, does(t)) && s.init(t) == 0;
      forall n ensures DueCount(Turns(s, now, does, n).row, Turns(s, now, does, n).timeout, now) != 0 {
        NeverEnds(s, now, late, span, does, t, n);
      }
    }
  }

  /** What a turn does to a timer it does not fire, and to one that is started again for no time at all. */
  lemma TurnKeeps(s: Timers, now: nat, late: nat, span: nat, does: Id -> Does)
    requires Ok(s, now, late, span) && DueCount(s.row, s.timeout, now) > 0
    ensures var t := s.row[0]; var s' := Turn(s, now, does);
            && s' == Fire(s, t, now, does(t))
            && Ok(s', now, late, span) && s'.periodic == s.periodic && s'.init == s.init
            && (forall x | x != t :: s'.timeout(x) == s.timeout(x) && (x in s'.row <==> x in s.row))
            && (Rearms(s, t, does(t)) && s.init(t) == 0 ==> t in s'.row && Due(s'.timeout(t), now))
  {
    hide Window, Sorted, Due, InsertAt, DueCount, Place, Start;
    DueFirst(s, now, late, span);
    var t, d := s.row[0], does(s.row[0]);
    assert t in s.row;
    if Rearms(s, t, d) {
      FireStarts(s, t, now, d);
      StartKeeps(s, t, now, late, span);
      StartExactly(s, t, now, late, span);
      if s.init(t) == 0 { FireNoTime(s, now, late, span); }
    } else {
      FireKeeps(s, now, late, span, d);
    }
  }

  lemma {:induction false} NeverEnds(s: Timers, now: nat, late: nat, span: nat, does: Id -> Does, t: Id, n: nat)
    requires Ok(s, now, late, span) && t in s.row && Due(s.timeout(t), now) && Rearms(s, t, does(t)) && s.init(t) == 0
    ensures DueCount(Turns(s, now, does, n).row, Turns(s, now, does, n).timeout, now) > 0
    decreases n
  {
    hide Ok, Due, DueCount, Turn, Rearms;
    OneDue(s, now, late, span, t);
    if n > 0 {
      StillNoTime(s, now, late, span, does, t);
      NeverEnds(Turn(s, now, does), now, late, span, does, t, n - 1);
    }
  }

  lemma StillNoTime(s: Timers, now: nat, late: nat, span: nat, does: Id -> Does, t: Id)
    requires Ok(s, now, late, span) && t in s.row && Due(s.timeout(t), now) && Rearms(s, t, does(t)) && s.init(t) == 0
    ensures var s' := Turn(s, now, does);
            Ok(s', now, late, span) && t in s'.row && Due(s'.timeout(t), now) && Rearms(s', t, does(t)) && s'.init(t) == 0
  {
    hide Ok, Due, DueCount, Turn;
    OneDue(s, now, late, span, t);
    TurnKeeps(s, now, late, span, does);
  }

  lemma OneDue(s: Timers, now: nat, late: nat, span: nat, t: Id)
    requires Ok(s, now, late, span) && t in s.row && Due(s.timeout(t), now)
    ensures DueCount(s.row, s.timeout, now) > 0
  {
    hide Window, Sorted, Due, DueCount;
    DueFirst(s, now, late, span);
  }

  lemma {:induction false} EndsAfter(s: Timers, now: nat, late: nat, span: nat, does: Id -> Does) returns (n: nat)
    requires Ok(s, now, late, span) && Advances(s, now, does)
    ensures DueCount(Turns(s, now, does, n).row, Turns(s, now, does, n).timeout, now) == 0
    decreases DueCount(s.row, s.timeout, now)
  {
    hide Ok, Due, DueCount, Turn;
    if DueCount(s.row, s.timeout, now) == 0 {
      n := 0;
    } else {
      FirstDue(s, now);
      TurnKeeps(s, now, late, span, does);
      FireKeeps(s, now, late, span, does(s.row[0]));
      StillAdvances(s, now, late, span, does);
      n := EndsAfter(Turn(s, now, does), now, late, span, does);
      n := n + 1;
    }
  }

  lemma FirstDue(s: Timers, now: nat)
    requires DueCount(s.row, s.timeout, now) > 0
    ensures s.row != [] && s.row[0] in s.row && Due(s.timeout(s.row[0]), now)
  {
  }

  lemma StillAdvances(s: Timers, now: nat, late: nat, span: nat, does: Id -> Does)
    requires Ok(s, now, late, span) && Advances(s, now, does) && DueCount(s.row, s.timeout, now) > 0
    ensures Advances(Turn(s, now, does), now, does)
  {
    hide Window, Sorted, Due, DueCount, Fire, Turn;
    FirstDue(s, now);
    var t, s' := s.row[0], Turn(s, now, does);
    TurnKeeps(s, now, late, span, does);
    FireKeeps(s, now, late, span, does(t));
  }

  /** A periodic timer with `init_tick` 0, alone on the list: after any number of turns it is still due. */
  lemma Spins(now: nat, n: nat)
    requires now < WRAP
    ensures var s := Timers([0], _ => now, _ => 0, {0}, {0}); var s' := Turns(s, now, _ => Nothing, n);
            Ok(s, now, 0, 0) && DueCount(s'.row, s'.timeout, now) > 0
  {
    hide Turns, DueCount;
    var s := Timers([0], _ => now, _ => 0, {0}, {0});
    assert Minus(now, now) == 0;
    NeverEnds(s, now, 0, 0, _ => Nothing, 0, n);
  }

  // ---- Time --------------------------------------------------------------------------------------

  /** With nothing expired, the window starts at the current tick. */
  lemma Rebase(s: Timers, now: nat, late: nat, span: nat)
    requires Ok(s, now, late, span) && forall x | x in s.row :: !Due(s.timeout(x), now)
    ensures Ok(s, now, 0, span)
  {
    hide Due, Rank;
    DueFirst(s, now, late, span);
    forall j | 0 <= j < |s.row|
      ensures Rank(s.timeout(s.row[j]), now, 0) == Rank(s.timeout(s.row[j]), now, late) - late <= span
    {
      assert s.row[j] in s.row;
      RankInWindow(s.row, s.timeout, now, late, span, j);
      RankShift(s.timeout(s.row[j]), now, late);
    }
    WindowFromRank(s.row, s.timeout, now, 0, span);
    WindowShort(s.row, s.timeout, now, late, span);
  }

  lemma RankShift(timeout: nat, now: nat, late: nat)
    requires Rank(timeout, now, late) >= late
    ensures Rank(timeout, now, 0) == Rank(timeout, now, late) - late
  {
    var r := Rank(timeout, now, late);
    var k := (timeout - (now - late)) / WRAP;
    assert timeout - now + late == k * WRAP + r;
    Shift(r - late, k);
  }

  /** A tick makes the window one tick late, across the wrap-around of the tick too. */
  lemma TickKeeps(s: Timers, now: nat, span: nat)
    requires Ok(s, now, 0, span)
    ensures Ok(s, (now + 1) % WRAP, 1, span)
    ensures forall x :: Rank(s.timeout(x), (now + 1) % WRAP, 1) == Rank(s.timeout(x), now, 0)
  {
    hide Rank;
    var now' := (now + 1) % WRAP;
    forall x ensures Rank(s.timeout(x), now', 1) == Rank(s.timeout(x), now, 0) { RankTick(s.timeout(x), now); }
    forall j | 0 <= j < |s.row| ensures Rank(s.timeout(s.row[j]), now', 1) <= 1 + span {
      RankInWindow(s.row, s.timeout, now, 0, span, j);
    }
    WindowFromRank(s.row, s.timeout, now', 1, span);
  }

  lemma RankTick(timeout: nat, now: nat)
    requires now < WRAP
    ensures Rank(timeout, (now + 1) % WRAP, 1) == Rank(timeout, now, 0)
  {
    if now + 1 == WRAP { Shift(timeout - now, 1); }
  }

  datatype Act = StartAct(t: Id) | StopAct(t: Id) | SetTime(t: Id, ticks: nat) | Tick(does: Id -> Does)

  /** A moment: the timers and the tick. */
  datatype Moment = Moment(s: Timers, now: nat)

  function Step(m: Moment, a: Act): Moment {
    match a
    case StartAct(t) => Moment(Start(m.s, t, m.now), m.now)
    case StopAct(t) => Moment(Stop(m.s, t), m.now)
    case SetTime(t, ticks) => Moment(SetTicks(m.s, t, ticks), m.now)
    case Tick(does) =>
      var now := (m.now + 1) % WRAP;
      Moment(FireAll(m.s, m.s.row[..DueCount(m.s.row, m.s.timeout, now)], now, does), now)
  }

  ghost predicate Run(ms: seq<Moment>, acts: seq<Act>) {
    && |ms| == |acts| + 1
    && forall k | 0 <= k < |acts| ::
         && ms[k + 1] == Step(ms[k], acts[k])
         && (acts[k].Tick? ==> Obedient(ms[k].s, acts[k].does))
  }

  lemma StepKeeps(m: Moment, a: Act, span: nat)
    requires Ok(m.s, m.now, 0, span) && (a.Tick? ==> Obedient(m.s, a.does)) && (a.SetTime? ==> a.ticks <= span)
    ensures Ok(Step(m, a).s, Step(m, a).now, 0, span)
  {
    hide Window, Sorted, DueCount, FireAll, Start, Stop;
    match a
    case StartAct(t) => StartKeeps(m.s, t, m.now, 0, span);
    case StopAct(t) => StopKeeps(m.s, t, m.now, 0, span);
    case SetTime(t, ticks) =>
    case Tick(does) =>
      var now := (m.now + 1) % WRAP;
      TickKeeps(m.s, m.now, span);
      CheckMeaning(m.s, now, 1, span, does);
      Rebase(Step(m, a).s, now, 1, span);
  }

  /** In every run with a check at each tick, the list stays sorted inside its window, for as long as
      one likes and however often the tick wraps around. */
  lemma {:induction false} RunKeeps(ms: seq<Moment>, acts: seq<Act>, span: nat)
    requires Run(ms, acts) && Ok(ms[0].s, ms[0].now, 0, span)
    requires forall k | 0 <= k < |acts| && acts[k].SetTime? :: acts[k].ticks <= span
    ensures Ok(ms[|acts|].s, ms[|acts|].now, 0, span)
  {
    hide Ok, Step;
    if acts != [] {
      var n := |acts| - 1;
      RunKeeps(ms[..n + 1], acts[..n], span);
      StepKeeps(ms[n], acts[n], span);
    }
  }

  /** A timer fires at the tick it was started for; one started for no time at all, at the next tick. */
  lemma FiresOnTime(m: Moment, span: nat, x: Id)
    requires Ok(m.s, m.now, 0, span) && x in m.s.row
    ensures var now := (m.now + 1) % WRAP;
            x in m.s.row[..DueCount(m.s.row, m.s.timeout, now)] <==> m.s.timeout(x) == now || m.s.timeout(x) == m.now
  {
    hide Window, Sorted, Due, DueCount;
    var now := (m.now + 1) % WRAP;
    TickKeeps(m.s, m.now, span);
    DueFirst(m.s, now, 1, span);
    ExpiredAre(m.s.row, m.s.timeout, now, DueCount(m.s.row, m.s.timeout, now));
    var j :| 0 <= j < |m.s.row| && m.s.row[j] == x;
    LowRank(m.s.timeout(x), m.now);
  }

  // ---- When a timer fires ------------------------------------------------------------------------

  /** The timers the check of the next tick fires. */
  function Fired(m: Moment): seq<Id> {
    m.s.row[..DueCount(m.s.row, m.s.timeout, (m.now + 1) % WRAP)]
  }

  /** The ticks a pending timer has left. */
  function Left(m: Moment, t: Id): nat {
    Rank(m.s.timeout(t), m.now, 0)
  }

  function Ticks(acts: seq<Act>): nat {
    if acts == [] then 0 else Ticks(acts[..|acts| - 1]) + (if acts[|acts| - 1].Tick? then 1 else 0)
  }

  lemma StartedLeft(m: Moment, t: Id, span: nat)
    requires Ok(m.s, m.now, 0, span)
    ensures Left(Step(m, StartAct(t)), t) == m.s.init(t)
  {
    hide Window, Sorted, Place, InsertAt;
    WindowShort(m.s.row, m.s.timeout, m.now, 0, span);
    NewRank(m.now, 0, span, m.s.init(t));
  }

  lemma {:induction false} FireAllOthers(s: Timers, ts: seq<Id>, now: nat, does: Id -> Does, x: Id)
    requires x !in ts
    ensures FireAll(s, ts, now, does).timeout(x) == s.timeout(x)
    decreases |ts|
  {
    hide Place, InsertAt, WaitQueue.Without;
    if ts != [] { FireAllOthers(Fire(s, ts[0], now, does(ts[0])), ts[1..], now, does, x); }
  }

  /** A step that does not concern a pending timer leaves it pending; a tick leaves it one tick less. */
  lemma StepWaits(m: Moment, a: Act, span: nat, t: Id)
    requires Ok(m.s, m.now, 0, span) && (a.Tick? ==> Obedient(m.s, a.does)) && (a.SetTime? ==> a.ticks <= span)
    requires t in m.s.row && a != StartAct(t) && a != StopAct(t) && (a.Tick? ==> Left(m, t) >= 2)
    ensures t in Step(m, a).s.row && (a.Tick? ==> t !in Fired(m))
    ensures Left(Step(m, a), t) == Left(m, t) - (if a.Tick? then 1 else 0)
  {
    hide Window, Sorted, DueCount, FireAll, Start, Stop, Rank, Due;
    match a
    case StartAct(x) => StartExactly(m.s, x, m.now, 0, span);
    case StopAct(x) => StopExactly(m.s, x, m.now, 0, span);
    case SetTime(x, ticks) =>
    case Tick(does) =>
      var now := (m.now + 1) % WRAP;
      FiresOnTime(m, span, t);
      LowRank(m.s.timeout(t), m.now);
      TickKeeps(m.s, m.now, span);
      CheckMeaning(m.s, now, 1, span, does);
      FireAllOthers(m.s, Fired(m), now, does, t);
      RankShift(m.s.timeout(t), now, 1);
  }

  lemma {:induction false} StillWaits(ms: seq<Moment>, acts: seq<Act>, span: nat, t: Id)
    requires Run(ms, acts) && Ok(ms[0].s, ms[0].now, 0, span) && t in ms[0].s.row
    requires forall k | 0 <= k < |acts| && acts[k].SetTime? :: acts[k].ticks <= span
    requires forall k | 0 <= k < |acts| :: acts[k] != StartAct(t) && acts[k] != StopAct(t)
    requires Ticks(acts) == 0 || Ticks(acts) < Left(ms[0], t)
    ensures t in ms[|acts|].s.row && Left(ms[|acts|], t) == Left(ms[0], t) - Ticks(acts)
    ensures forall k | 0 <= k < |acts| && acts[k].Tick? :: t !in Fired(ms[k])
  {
    hide Ok, Step, Fired, Left;
    if acts != [] {
      var n := |acts| - 1;
      var ns, bs := ms[..n + 1], acts[..n];
      StillWaits(ns, bs, span, t);
      RunKeeps(ns, bs, span);
      StepWaits(ms[n], acts[n], span, t);
      forall k | 0 <= k < |acts| && acts[k].Tick? ensures t !in Fired(ms[k]) {
        if k < n { assert bs[k].Tick? && ns[k] == ms[k]; }
      }
    }
  }

  /** A pending timer that nobody starts or stops fires exactly at the check of the tick that uses up the ticks it has left,
      and at none before; one started for no time at all, at the first. So a timer fires `init_tick` ticks after its start. */
  lemma FiresAfter(ms: seq<Moment>, acts: seq<Act>, span: nat, t: Id)
    requires Run(ms, acts) && Ok(ms[0].s, ms[0].now, 0, span) && t in ms[0].s.row
    requires forall k | 0 <= k < |acts| && acts[k].SetTime? :: acts[k].ticks <= span
    requires forall k | 0 <= k < |acts| :: acts[k] != StartAct(t) && acts[k] != StopAct(t)
    requires acts != [] && acts[|acts| - 1].Tick? && Ticks(acts) == if Left(ms[0], t) == 0 then 1 else Left(ms[0], t)
    ensures t in Fired(ms[|acts| - 1])
    ensures forall k | 0 <= k < |acts| - 1 && acts[k].Tick? :: t !in Fired(ms[k])
  {
    hide Ok, Step, Fired, Left;
    var n := |acts| - 1;
    var ns, bs := ms[..n + 1], acts[..n];
    StillWaits(ns, bs, span, t);
    RunKeeps(ns, bs, span);
    FiresNow(ms[n], span, t);
    forall k | 0 <= k < n && acts[k].Tick? ensures t !in Fired(ms[k]) { assert bs[k].Tick? && ns[k] == ms[k]; }
  }

  lemma FiresNow(m: Moment, span: nat, t: Id)
    requires Ok(m.s, m.now, 0, span) && t in m.s.row
    ensures t in Fired(m) <==> Left(m, t) <= 1
  {
    hide Window, Sorted, DueCount, Rank;
    FiresOnTime(m, span, t);
    LowRank(m.s.timeout(t), m.now);
  }

  lemma FireOther(s: Timers, t: Id, now: nat, does: Does, x: Id)
    requires x != t
    ensures var s' := Fire(s, t, now, does);
            && s'.timeout(x) == s.timeout(x) && (x in s'.active <==> x in s.active)
            && s'.init == s.init && s'.periodic == s.periodic
  {
    hide Place, InsertAt, WaitQueue.Without;
  }

  lemma {:induction false} FireAllSets(s: Timers, ts: seq<Id>, now: nat, does: Id -> Does, k: nat)
    requires k < |ts| && Distinct(ts) && ts[k] in s.active && Rearms(s, ts[k], does(ts[k]))
    ensures FireAll(s, ts, now, does).timeout(ts[k]) == (now + s.init(ts[k])) % WRAP
    decreases k
  {
    hide Fire;
    var t, rest := ts[0], ts[1..];
    WaitQueue.PopDistinct(ts);
    if k == 0 {
      FireStarts(s, t, now, does(t));
      FireAllOthers(Fire(s, t, now, does(t)), rest, now, does, t);
    } else {
      assert rest[k - 1] == ts[k];
      FireOther(s, t, now, does(t), ts[k]);
      FireAllSets(Fire(s, t, now, does(t)), rest, now, does, k - 1);
    }
  }

  /** A timer that fires is pending afterwards exactly when it is started again, and then with its whole time left: so a
      periodic timer fires every `init_tick` ticks. */
  lemma FiresAgain(m: Moment, does: Id -> Does, span: nat, t: Id)
    requires Ok(m.s, m.now, 0, span) && Obedient(m.s, does) && t in Fired(m)
    ensures var m' := Step(m, Tick(does));
            (t in m'.s.row <==> Rearms(m.s, t, does(t))) && (t in m'.s.row ==> Left(m', t) == m.s.init(t))
  {
    hide Window, Sorted, DueCount, FireAll, Rank, Due;
    var now := (m.now + 1) % WRAP;
    TickKeeps(m.s, m.now, span);
    CheckMeaning(m.s, now, 1, span, does);
    WindowShort(m.s.row, m.s.timeout, m.now, 0, span);
    var k :| 0 <= k < |Fired(m)| && Fired(m)[k] == t;
    assert t in m.s.row;
    if Rearms(m.s, t, does(t)) {
      FireAllSets(m.s, Fired(m), now, does, k);
      NewRank(now, 0, span, m.s.init(t));
    }
  }

  lemma LowRank(timeout: nat, now: nat)
    requires timeout < WRAP && now < WRAP
    ensures Rank(timeout, now, 0) == 0 <==> timeout == now
    ensures Rank(timeout, now, 0) == 1 <==> timeout == (now + 1) % WRAP
  {
  }
}
