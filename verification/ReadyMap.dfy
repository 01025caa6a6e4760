/**
  The bitmap over the ready lists (scheduler.c): one word for up to 32 priorities, and for up to 256 a
  word over 32 bytes of 8 priorities each.
*/
module ReadyMap {
  import opened Numbers
  import opened FirstBit
  import opened WaitQueue

  /** rt_thread_ready_priority_group, and rt_thread_ready_table where there are more than 32 priorities. */
  datatype Bitmap = Bitmap(group: nat, table: seq<nat>)

  const EMPTY := Bitmap(0, seq(32, _ => 0))

  predicate TwoLevel(levels: nat) {
    levels > 32
  }

  /** The bits of rt_schedule_insert_thread: number_mask, and high_mask in the byte `number`. */
  function SetBit(m: Bitmap, levels: nat, p: nat): Bitmap
    requires p < levels <= 256 && |m.table| == 32
  {
    if TwoLevel(levels) then Bitmap(Or(m.group, Pow2(p / 8)), m.table[p / 8 := Or(m.table[p / 8], Pow2(p % 8))])
    else m.(group := Or(m.group, Pow2(p)))
  }

  /** The bits of rt_schedule_remove_thread, once the list of its priority is empty. */
  function ClearBit(m: Bitmap, levels: nat, p: nat): Bitmap
    requires p < levels <= 256 && |m.table| == 32
  {
    if TwoLevel(levels) then
      var row := AndNot(m.table[p / 8], Pow2(p % 8));
      Bitmap(if row == 0 then AndNot(m.group, Pow2(p / 8)) else m.group, m.table[p / 8 := row])
    else m.(group := AndNot(m.group, Pow2(p)))
  }

  /** _scheduler_get_highest_priority_thread: the priority it looks up. */
  function Highest(m: Bitmap, levels: nat): int
    requires m.group < 0x1_0000_0000 && |m.table| == 32 && forall n | 0 <= n < 32 :: m.table[n] < 256
  {
    if TwoLevel(levels) then
      var number := Ffs(m.group) - 1;
      number * 8 + (if 0 <= number < 32 then Ffs(m.table[number]) else 0) - 1
    else Ffs(m.group) - 1
  }

  predicate Filled(lists: seq<seq<Tid>>, p: nat) {
    p < |lists| && lists[p] != []
  }

  /** A bit is set exactly when the list of its priority is not empty. */
  ghost predicate Agrees(m: Bitmap, lists: seq<seq<Tid>>) {
    && |lists| <= 256 && m.group < 0x1_0000_0000 && |m.table| == 32
    && (forall n | 0 <= n < 32 :: m.table[n] < 256)
    && if TwoLevel(|lists|) then
         && (forall n: nat :: Bit(m.group, n) <==> n < 32 && m.table[n] != 0)
         && (forall n: nat, b: nat | n < 32 :: RowBit(m, n, b) <==> b < 8 && Filled(lists, 8 * n + b))
       else forall p: nat :: Bit(m.group, p) <==> Filled(lists, p)
  }

  predicate RowBit(m: Bitmap, n: nat, b: nat)
    requires n < |m.table|
  {
    Bit(m.table[n], b)
  }

  lemma ByteBelow(row: nat, b: nat)
    requires row < 256 && b < 8
    ensures Or(row, Pow2(b)) < 256
  {
    PowEight();
    PowGrows(b, 8);
    OrBelow(row, Pow2(b), 8);
  }

  lemma WordBelow(group: nat, p: nat)
    requires group < 0x1_0000_0000 && p < 32
    ensures Or(group, Pow2(p)) < 0x1_0000_0000
  {
    PowEight();
    PowGrows(p, 32);
    OrBelow(group, Pow2(p), 32);
  }

  lemma SetOne(n: nat, k: nat, j: nat)
    ensures Bit(Or(n, Pow2(k)), j) <==> Bit(n, j) || j == k
  {
    OrBit(n, Pow2(k), j);
    PowBit(k, j);
  }

  lemma ClearOne(n: nat, k: nat, j: nat)
    ensures Bit(AndNot(n, Pow2(k)), j) <==> Bit(n, j) && j != k
  {
    AndNotBit(n, Pow2(k), j);
    PowBit(k, j);
  }

  lemma ByteZero(row: nat)
    requires row < 256
    ensures row == 0 <==> forall b: nat | b < 8 :: !Bit(row, b)
  {
    PowEight();
    NoneSet(row, 8);
  }

  lemma SetNotZero(row: nat, b: nat)
    ensures Or(row, Pow2(b)) != 0
  {
  }

  /** After a thread is put on the list of priority `p`. */
  lemma SetAgrees(m: Bitmap, lists: seq<seq<Tid>>, p: nat, list: seq<Tid>)
    requires Agrees(m, lists) && p < |lists| && list != []
    ensures Agrees(SetBit(m, |lists|, p), lists[p := list])
  {
    hide Or, Pow2, Bit;
    var m', lists' := SetBit(m, |lists|, p), lists[p := list];
    if TwoLevel(|lists|) {
      WordBelow(m.group, p / 8);
      ByteBelow(m.table[p / 8], p % 8);
      SetNotZero(m.table[p / 8], p % 8);
      forall n: nat ensures Bit(m'.group, n) <==> n < 32 && m'.table[n] != 0 { SetOne(m.group, p / 8, n); }
      forall n: nat, b: nat | n < 32 ensures RowBit(m', n, b) <==> b < 8 && Filled(lists', 8 * n + b) {
        SetOne(m.table[p / 8], p % 8, b);
        assert RowBit(m, n, b) <==> b < 8 && Filled(lists, 8 * n + b);
      }
    } else {
      WordBelow(m.group, p);
      forall q: nat ensures Bit(m'.group, q) <==> Filled(lists', q) { SetOne(m.group, p, q); }
    }
  }

  /** After the last thread is taken off the list of priority `p`, or none was on it. */
  lemma ClearAgrees(m: Bitmap, lists: seq<seq<Tid>>, p: nat)
    requires Agrees(m, lists) && p < |lists|
    ensures Agrees(ClearBit(m, |lists|, p), lists[p := []])
  {
    hide AndNot, Pow2, Bit;
    var m', lists' := ClearBit(m, |lists|, p), lists[p := []];
    if TwoLevel(|lists|) {
      forall n: nat ensures Bit(m'.group, n) <==> n < 32 && m'.table[n] != 0 {
        ClearOne(m.group, p / 8, n);
        assert Bit(m.group, n) <==> n < 32 && m.table[n] != 0;
        if n == p / 8 && m'.table[n] != 0 { assert m.table[n] != 0; }
      }
      forall n: nat, b: nat | n < 32 ensures RowBit(m', n, b) <==> b < 8 && Filled(lists', 8 * n + b) {
        ClearOne(m.table[p / 8], p % 8, b);
        assert RowBit(m, n, b) <==> b < 8 && Filled(lists, 8 * n + b);
      }
    } else {
      forall q: nat ensures Bit(m'.group, q) <==> Filled(lists', q) { ClearOne(m.group, p, q); }
    }
  }

  /** A list that changes without becoming empty, or becoming filled, needs no bit. */
  lemma SameAgrees(m: Bitmap, lists: seq<seq<Tid>>, p: nat, list: seq<Tid>)
    requires Agrees(m, lists) && p < |lists| && lists[p] != [] && list != []
    ensures Agrees(m, lists[p := list])
  {
    hide Bit;
    var lists' := lists[p := list];
    assert forall q: nat :: Filled(lists', q) <==> Filled(lists, q);
  }

  lemma NoneSet(n: nat, w: nat)
    requires n < Pow2(w)
    ensures n == 0 <==> forall j: nat | j < w :: !Bit(n, j)
  {
    hide Bit;
    if n == 0 {
      forall j: nat | j < w ensures !Bit(n, j) { ZeroBit(j); }
    } else {
      LowestBound(n, w);
      assert Bit(n, Lowest(n));
    }
  }

  /** The word is zero exactly when no thread is ready. */
  lemma GroupZero(m: Bitmap, lists: seq<seq<Tid>>)
    requires Agrees(m, lists)
    ensures m.group == 0 <==> forall p | 0 <= p < |lists| :: lists[p] == []
  {
    hide Bit, Pow2;
    PowEight();
    NoneSet(m.group, 32);
    if TwoLevel(|lists|) {
      if m.group == 0 {
        forall p | 0 <= p < |lists| ensures lists[p] == [] {
          assert !Bit(m.group, p / 8);
          ByteZero(m.table[p / 8]);
          assert !Bit(m.table[p / 8], p % 8);
          assert RowBit(m, p / 8, p % 8) <==> Filled(lists, 8 * (p / 8) + p % 8);
        }
      }
      if forall p | 0 <= p < |lists| :: lists[p] == [] {
        forall n: nat | n < 32 ensures !Bit(m.group, n) {
          forall b: nat | b < 8 ensures !Bit(m.table[n], b) { assert RowBit(m, n, b) <==> Filled(lists, 8 * n + b); }
          ByteZero(m.table[n]);
        }
      }
    } else {
      assert forall p: nat :: Bit(m.group, p) <==> Filled(lists, p);
      if m.group == 0 {
        forall p | 0 <= p < |lists| ensures lists[p] == [] { assert !Bit(m.group, p); }
      }
    }
  }

  /** What the look-up finds is the most urgent priority with a ready thread. */
  lemma HighestIsLeast(m: Bitmap, lists: seq<seq<Tid>>)
    requires Agrees(m, lists) && m.group != 0
    ensures var p := Highest(m, |lists|);
            0 <= p < |lists| && lists[p] != [] && forall q | 0 <= q < p :: lists[q] == []
  {
    hide Bit, Pow2, Ffs, Lowest;
    FfsMeaning(m.group);
    if TwoLevel(|lists|) {
      var n := Lowest(m.group);
      assert Bit(m.group, n);
      FfsMeaning(m.table[n]);
      var b := Lowest(m.table[n]);
      assert RowBit(m, n, b);
      var p := 8 * n + b;
      assert Highest(m, |lists|) == p;
      forall q | 0 <= q < p ensures lists[q] == [] {
        assert q == 8 * (q / 8) + q % 8;
        assert RowBit(m, q / 8, q % 8) <==> Filled(lists, 8 * (q / 8) + q % 8);
        if q / 8 < n {
          assert !Bit(m.group, q / 8);
          ByteZero(m.table[q / 8]);
        }
        assert !Bit(m.table[q / 8], q % 8);
      }
    } else {
      assert Filled(lists, Lowest(m.group));
      forall q | 0 <= q < Lowest(m.group) ensures lists[q] == [] { assert !Bit(m.group, q); }
    }
  }

  lemma EmptyAgrees(levels: nat)
    requires levels <= 256
    ensures Agrees(EMPTY, seq(levels, _ => []))
  {
    hide Bit;
    forall p: nat ensures !Bit(0, p) { ZeroBit(p); }
  }
}
