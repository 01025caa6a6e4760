/**
  The timer list (timer.c) as one sequence in order of timeout, under a 32-bit tick that wraps around.
*/
module TimerSpec {
  import opened Basics
  import WaitQueue

  type Id = nat

  const HALF: nat := 0x7FFF_FFFF     // RT_TICK_MAX / 2

  /** a - b on unsigned 32-bit ticks. */
  function Minus(a: int, b: int): (r: nat)
    ensures r < WRAP
  {
    (a - b) % WRAP
  }

  /** What a search for the place of a new timer stops at. */
  predicate Later(a: nat, b: nat) {
    0 < Minus(a, b) < HALF
  }

  /** A timer has expired, as rt_timer_check decides it. */
  predicate Due(timeout: nat, now: nat) {
    Minus(now, timeout) < HALF
  }

  /** The first timer of a row with a later timeout, or the length of the row. */
  function Place(row: seq<Id>, timeout: Id -> nat, when: nat): (i: nat)
    ensures i <= |row|
    ensures i < |row| ==> Later(timeout(row[i]), when)
    ensures forall j | 0 <= j < i :: !Later(timeout(row[j]), when)
  {
    if row == [] || Later(timeout(row[0]), when) then 0
    else
      var i := Place(row[1..], timeout, when);
      assert forall j | 0 < j < i + 1 :: row[j] == row[1..][j - 1];
      i + 1
  }

  /** Linear insertion: behind every timer that is not later. */
  function InsertAt(row: seq<Id>, i: nat, t: Id): seq<Id>
    requires i <= |row|
  {
    row[..i] + [t] + row[i..]
  }

  // ---- Order in a window ---------------------------------------------------------------------

  /** Each part of a window is shorter than half the range of the tick, and the two are within the other half. */
  predicate Short(late: nat, span: nat) {
    late < HALF && span < HALF && late + span <= WRAP - HALF
  }

  /** The pending timeouts lie between `late` ticks before and `span` ticks behind the current tick. */
  ghost predicate Window(row: seq<Id>, timeout: Id -> nat, now: nat, late: nat, span: nat) {
    && Short(late, span)
    && forall i | 0 <= i < |row| :: Minus(timeout(row[i]), now - late) <= late + span
  }

  /** How far a timeout lies behind the start of the window. */
  function Rank(timeout: nat, now: nat, late: nat): nat {
    Minus(timeout, now - late)
  }

  ghost predicate Sorted(row: seq<Id>, timeout: Id -> nat, now: nat, late: nat) {
    forall i, j | 0 <= i < j < |row| :: Rank(timeout(row[i]), now, late) <= Rank(timeout(row[j]), now, late)
  }

  /** The modular comparison is the order of the ranks if and only if they are not too far apart. */
  lemma LaterIsRank(a: nat, b: nat, now: nat, late: nat)
    requires a < WRAP && b < WRAP
    ensures var r, q := Rank(a, now, late), Rank(b, now, late);
            (Later(a, b) <==> r > q) <==> r - q < HALF && q - r <= WRAP - HALF
    ensures Minus(a, b) == 0 <==> a == b
  {
    var base := now - late;
    assert Minus(a, b) == (Rank(a, now, late) - Rank(b, now, late)) % WRAP by { Difference(a, b, base); }
  }

  lemma Difference(a: int, b: int, base: int)
    ensures Minus(a, b) == (Minus(a, base) - Minus(b, base)) % WRAP
  {
    var p, q := (a - base) / WRAP, (b - base) / WRAP;
    assert a - base == p * WRAP + Minus(a, base);
    assert b - base == q * WRAP + Minus(b, base);
    Shift(a - b, q - p);
  }

  lemma Shift(n: int, k: int)
    ensures (n + k * WRAP) % WRAP == n % WRAP
  {
  }

  /** Inside the window, due means not behind the current tick. */
  lemma DueIsRank(timeout: nat, now: nat, late: nat, span: nat)
    requires timeout < WRAP && now < WRAP && Short(late, span) && Rank(timeout, now, late) <= late + span
    ensures Due(timeout, now) <==> Rank(timeout, now, late) <= late
  {
    Difference(now, timeout, now - late);
    assert Minus(now, now - late) == late;
  }

  /** A row that splits into timers that are not later and timers that are. */
  lemma {:induction false} PlaceIs(a: seq<Id>, b: seq<Id>, timeout: Id -> nat, when: nat)
    requires forall t | t in a :: !Later(timeout(t), when)
    requires forall t | t in b :: Later(timeout(t), when)
    ensures Place(a + b, timeout, when) == |a|
  {
    if a == [] {
      assert a + b == b;
      assert b != [] ==> b[0] in b;
    } else {
      assert (a + b)[1..] == a[1..] + b;
      assert a[0] in a;
      PlaceIs(a[1..], b, timeout, when);
    }
  }

  /** In a sorted row, what lies before the place is not later and what lies behind it is. */
  lemma PlaceSplits(row: seq<Id>, timeout: Id -> nat, when: nat, now: nat, late: nat, span: nat)
    requires Window(row, timeout, now, late, span) && Sorted(row, timeout, now, late)
    requires when < WRAP && late <= Rank(when, now, late) <= late + span && forall t :: timeout(t) < WRAP
    ensures var i := Place(row, timeout, when);
            forall j | 0 <= j < |row| ::
              (j < i <==> Rank(timeout(row[j]), now, late) <= Rank(when, now, late)) && (j < i <==> !Later(timeout(row[j]), when))
  {
    hide Rank, Later;
    var i := Place(row, timeout, when);
    forall j | 0 <= j < |row|
      ensures (j < i <==> Rank(timeout(row[j]), now, late) <= Rank(when, now, late)) && (j < i <==> !Later(timeout(row[j]), when))
    {
      RankInWindow(row, timeout, now, late, span, j);
      LaterIsRank(timeout(row[j]), when, now, late);
      if i < |row| {
        RankInWindow(row, timeout, now, late, span, i);
        LaterIsRank(timeout(row[i]), when, now, late);
      }
    }
  }

  lemma RankInWindow(row: seq<Id>, timeout: Id -> nat, now: nat, late: nat, span: nat, j: nat)
    requires Window(row, timeout, now, late, span) && j < |row|
    ensures Rank(timeout(row[j]), now, late) <= late + span && Short(late, span)
  {
  }

  /** Linear insertion keeps the row sorted. */
  lemma InsertSorted(row: seq<Id>, timeout: Id -> nat, t: Id, now: nat, late: nat, span: nat)
    requires Window(row, timeout, now, late, span) && Sorted(row, timeout, now, late) && forall x :: timeout(x) < WRAP
    requires late <= Rank(timeout(t), now, late) <= late + span
    ensures var r := InsertAt(row, Place(row, timeout, timeout(t)), t);
            Sorted(r, timeout, now, late) && Window(r, timeout, now, late, span)
  {
    hide Rank, Later, Window, Sorted, InsertAt;
    var i := Place(row, timeout, timeout(t));
    PlaceSplits(row, timeout, timeout(t), now, late, span);
    SortedInsert(row, timeout, i, t, now, late);
    WindowInsert(row, timeout, i, t, now, late, span);
  }

  lemma InsertIndex(row: seq<Id>, i: nat, t: Id, x: nat)
    requires i <= |row| && x <= |row|
    ensures |InsertAt(row, i, t)| == |row| + 1
    ensures InsertAt(row, i, t)[x] == if x < i then row[x] else if x == i then t else row[x - 1]
  {
  }

  lemma SortedInsert(row: seq<Id>, timeout: Id -> nat, i: nat, t: Id, now: nat, late: nat)
    requires Sorted(row, timeout, now, late) && i <= |row|
    requires forall j | 0 <= j < |row| ::
               if j < i then Rank(timeout(row[j]), now, late) <= Rank(timeout(t), now, late)
               else Rank(timeout(t), now, late) < Rank(timeout(row[j]), now, late)
    ensures Sorted(InsertAt(row, i, t), timeout, now, late)
  {
    hide Rank, InsertAt;
    var r := InsertAt(row, i, t);
    InsertIndex(row, i, t, 0);
    forall x, y | 0 <= x < y < |r| ensures Rank(timeout(r[x]), now, late) <= Rank(timeout(r[y]), now, late) {
      InsertIndex(row, i, t, x);
      InsertIndex(row, i, t, y);
    }
  }

  lemma WindowInsert(row: seq<Id>, timeout: Id -> nat, i: nat, t: Id, now: nat, late: nat, span: nat)
    requires Window(row, timeout, now, late, span) && i <= |row| && Rank(timeout(t), now, late) <= late + span
    ensures Window(InsertAt(row, i, t), timeout, now, late, span)
  {
    hide InsertAt, Minus;
    var r := InsertAt(row, i, t);
    InsertIndex(row, i, t, 0);
    forall x | 0 <= x < |r| ensures Minus(timeout(r[x]), now - late) <= late + span {
      InsertIndex(row, i, t, x);
    }
  }

  lemma WindowFromRank(row: seq<Id>, timeout: Id -> nat, now: nat, late: nat, span: nat)
    ensures Window(row, timeout, now, late, span)
            <==> Short(late, span) && forall i | 0 <= i < |row| :: Rank(timeout(row[i]), now, late) <= late + span
  {
  }

  /** A timer in front of others that are no earlier. */
  lemma HeadSorted(x: Id, row: seq<Id>, timeout: Id -> nat, now: nat, late: nat, span: nat)
    requires Window(row, timeout, now, late, span) && Sorted(row, timeout, now, late)
    requires Rank(timeout(x), now, late) <= late + span
    requires forall y | y in row :: Rank(timeout(x), now, late) <= Rank(timeout(y), now, late)
    ensures Window([x] + row, timeout, now, late, span) && Sorted([x] + row, timeout, now, late)
  {
    hide Minus;
    var r := [x] + row;
    assert forall i | 0 < i < |r| :: r[i] == row[i - 1] && r[i] in row;
  }

  lemma TailSorted(row: seq<Id>, timeout: Id -> nat, now: nat, late: nat, span: nat)
    requires Window(row, timeout, now, late, span) && Sorted(row, timeout, now, late) && row != []
    ensures Window(row[1..], timeout, now, late, span) && Sorted(row[1..], timeout, now, late)
    ensures Rank(timeout(row[0]), now, late) <= late + span
    ensures forall y | y in row[1..] :: Rank(timeout(row[0]), now, late) <= Rank(timeout(y), now, late)
  {
    hide Minus;
    var rest := row[1..];
    assert forall i | 0 <= i < |rest| :: rest[i] == row[i + 1];
  }

  // ---- Order outside a window ------------------------------------------------------------------

  /** The place a new timer belongs in: before the first timer of a higher rank. */
  function RankPlace(row: seq<Id>, timeout: Id -> nat, when: nat, now: nat, late: nat): (i: nat)
    ensures i <= |row|
    ensures i < |row| ==> Rank(timeout(row[i]), now, late) > Rank(when, now, late)
    ensures forall j | 0 <= j < i :: Rank(timeout(row[j]), now, late) <= Rank(when, now, late)
  {
    if row == [] || Rank(timeout(row[0]), now, late) > Rank(when, now, late) then 0
    else
      var i := RankPlace(row[1..], timeout, when, now, late);
      assert forall j | 0 < j < i + 1 :: row[j] == row[1..][j - 1];
      i + 1
  }

  /** The first timer is not too far before the new one, and the one to come behind it not too far after. */
  predicate Near(row: seq<Id>, timeout: Id -> nat, when: nat, now: nat, late: nat) {
    var r := RankPlace(row, timeout, when, now, late);
    && (r > 0 ==> Rank(when, now, late) - Rank(timeout(row[0]), now, late) <= WRAP - HALF)
    && (r < |row| ==> Rank(timeout(row[r]), now, late) - Rank(when, now, late) < HALF)
  }

  /** In any sorted row, the search finds the right place if and only if these two are near. */
  lemma PlaceExactly(row: seq<Id>, timeout: Id -> nat, when: nat, now: nat, late: nat)
    requires Sorted(row, timeout, now, late) && when < WRAP && forall t :: timeout(t) < WRAP
    ensures Place(row, timeout, when) == RankPlace(row, timeout, when, now, late) <==> Near(row, timeout, when, now, late)
  {
    hide Rank, Later;
    var i, r := Place(row, timeout, when), RankPlace(row, timeout, when, now, late);
    forall j | 0 <= j < |row|
      ensures (Later(timeout(row[j]), when) <==> Rank(timeout(row[j]), now, late) > Rank(when, now, late))
              <==> Rank(timeout(row[j]), now, late) - Rank(when, now, late) < HALF
                   && Rank(when, now, late) - Rank(timeout(row[j]), now, late) <= WRAP - HALF
    {
      LaterIsRank(timeout(row[j]), when, now, late);
    }
    if Near(row, timeout, when, now, late) {
      forall j | 0 <= j < r ensures !Later(timeout(row[j]), when) {
        assert Rank(timeout(row[0]), now, late) <= Rank(timeout(row[j]), now, late);
      }
    }
  }

  /** Insertion keeps any sorted row sorted if and only if these two are near. */
  lemma InsertSortedExactly(row: seq<Id>, timeout: Id -> nat, t: Id, now: nat, late: nat)
    requires Sorted(row, timeout, now, late) && forall x :: timeout(x) < WRAP
    ensures Sorted(InsertAt(row, Place(row, timeout, timeout(t)), t), timeout, now, late)
            <==> Near(row, timeout, timeout(t), now, late)
  {
    hide Rank, Later, InsertAt, Near;
    var when := timeout(t);
    var i, r := Place(row, timeout, when), RankPlace(row, timeout, when, now, late);
    var q := InsertAt(row, i, t);
    PlaceExactly(row, timeout, when, now, late);
    InsertIndex(row, i, t, 0);
    if i == r {
      forall j | 0 <= j < |row|
        ensures if j < i then Rank(timeout(row[j]), now, late) <= Rank(when, now, late)
                else Rank(when, now, late) < Rank(timeout(row[j]), now, late)
      {
        assert j > r ==> Rank(timeout(row[r]), now, late) <= Rank(timeout(row[j]), now, late);
      }
      SortedInsert(row, timeout, i, t, now, late);
    } else if i < r {
      InsertIndex(row, i, t, i);
      InsertIndex(row, i, t, i + 1);
      NotLater(timeout(row[i]), when, now, late);
      assert Rank(timeout(q[i]), now, late) > Rank(timeout(q[i + 1]), now, late);
    } else {
      InsertIndex(row, i, t, r);
      InsertIndex(row, i, t, i);
      assert Rank(timeout(q[r]), now, late) > Rank(timeout(q[i]), now, late);
    }
  }

  /** Of equal ranks neither is later. */
  lemma NotLater(a: nat, b: nat, now: nat, late: nat)
    requires a < WRAP && b < WRAP
    ensures Rank(a, now, late) == Rank(b, now, late) ==> !Later(a, b)
  {
    LaterIsRank(a, b, now, late);
  }
}
