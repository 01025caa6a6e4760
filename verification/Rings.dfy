/**
  Circular doubly linked lists (rtservice.h), which all queues of the kernel and the block and free
  lists of the memory heap are built on.

  Nodes are addresses; `next` and `prev` hold their links. A ring is the sequence of its nodes.
*/
module Rings {

  import opened Basics

  type Addr = int
  type Links = map<Addr, Addr>

  function After(c: seq<Addr>, i: nat): Addr
    requires i < |c|
  {
    if i + 1 < |c| then c[i + 1] else c[0]
  }

  function Before(c: seq<Addr>, i: nat): Addr
    requires i < |c|
  {
    if i == 0 then c[|c| - 1] else c[i - 1]
  }

  /** The links of the nodes `c` lead around them, forwards and backwards. */
  ghost predicate Ring(next: Links, prev: Links, c: seq<Addr>) {
    && c != [] && Distinct(c)
    && (forall i | 0 <= i < |c| :: c[i] in next && next[c[i]] == After(c, i))
    && (forall i | 0 <= i < |c| :: c[i] in prev && prev[c[i]] == Before(c, i))
  }

  function InsertBehind(c: seq<Addr>, k: nat, n: Addr): seq<Addr>
    requires k < |c|
  {
    c[..k + 1] + [n] + c[k + 1..]
  }

  function RemoveAt(c: seq<Addr>, k: nat): seq<Addr>
    requires k < |c|
  {
    c[..k] + c[k + 1..]
  }

  // ---- The writes --------------------------------------------------------------------------

  /** rt_list_insert_after. */
  function InsertNext(next: Links, l: Addr, n: Addr): Links
    requires l in next
  {
    next[n := next[l]][l := n]
  }

  function InsertPrev(next: Links, prev: Links, l: Addr, n: Addr): Links
    requires l in next
  {
    prev[next[l] := n][n := l]
  }

  /** A new node behind node `k` of a ring. */
  lemma RingInsert(next: Links, prev: Links, c: seq<Addr>, k: nat, n: Addr)
    requires Ring(next, prev, c) && k < |c| && n !in c
    ensures Ring(InsertNext(next, c[k], n), InsertPrev(next, prev, c[k], n), InsertBehind(c, k, n))
  {
    hide InsertNext, InsertPrev, InsertBehind, After, Before, Distinct;
    var r, next', prev' := InsertBehind(c, k, n), InsertNext(next, c[k], n), InsertPrev(next, prev, c[k], n);
    InsertDistinct(c, k, n);
    forall i | 0 <= i < |r| ensures r[i] in next' && next'[r[i]] == After(r, i) {
      InsertedForward(next, prev, c, k, n, i);
    }
    forall i | 0 <= i < |r| ensures r[i] in prev' && prev'[r[i]] == Before(r, i) {
      InsertedBack(next, prev, c, k, n, i);
    }
  }

  lemma InsertDistinct(c: seq<Addr>, k: nat, n: Addr)
    requires Distinct(c) && k < |c| && n !in c
    ensures Distinct(InsertBehind(c, k, n)) && |InsertBehind(c, k, n)| == |c| + 1
  {
    var r := InsertBehind(c, k, n);
    assert forall i | 0 <= i < |r| :: r[i] == if i <= k then c[i] else if i == k + 1 then n else c[i - 1];
  }

  lemma InsertIndex(c: seq<Addr>, k: nat, n: Addr, i: nat)
    requires k < |c| && i <= |c|
    ensures |InsertBehind(c, k, n)| == |c| + 1
    ensures InsertBehind(c, k, n)[i] == if i <= k then c[i] else if i == k + 1 then n else c[i - 1]
  {
  }

  /** Who follows whom, after an insertion. */
  lemma AfterInserted(c: seq<Addr>, k: nat, n: Addr, i: nat)
    requires k < |c| && i <= |c|
    ensures |InsertBehind(c, k, n)| == |c| + 1
    ensures After(InsertBehind(c, k, n), i)
         == if i == k then n else if i == k + 1 then After(c, k) else After(c, if i < k then i else i - 1)
    ensures Before(InsertBehind(c, k, n), i)
         == if i == k + 1 then c[k] else if (if i <= k then i else i - 1) == Wrap(c, k) then n
            else Before(c, if i <= k then i else i - 1)
  {
    hide InsertBehind;
    InsertIndex(c, k, n, i);
    InsertIndex(c, k, n, 0);
    InsertIndex(c, k, n, |c|);
    if i < |c| { InsertIndex(c, k, n, i + 1); }
    if i > 0 { InsertIndex(c, k, n, i - 1); }
  }

  /** The index behind `k`, around the ring. */
  function Wrap(c: seq<Addr>, k: nat): (j: nat)
    requires k < |c|
    ensures j < |c| && After(c, k) == c[j]
  {
    if k + 1 < |c| then k + 1 else 0
  }

  lemma DistinctAt(c: seq<Addr>, i: nat, j: nat)
    requires Distinct(c) && i < |c| && j < |c|
    ensures c[i] == c[j] <==> i == j
  {
  }

  lemma InsertedForward(next: Links, prev: Links, c: seq<Addr>, k: nat, n: Addr, i: nat)
    requires Ring(next, prev, c) && k < |c| && n !in c && i <= |c|
    ensures |InsertBehind(c, k, n)| == |c| + 1
    ensures var r, next' := InsertBehind(c, k, n), InsertNext(next, c[k], n);
            r[i] in next' && next'[r[i]] == After(r, i)
  {
    hide InsertBehind, After, Before, Distinct, Wrap;
    var y := if i <= k then i else i - 1;
    InsertIndex(c, k, n, i);
    AfterInserted(c, k, n, i);
    DistinctAt(c, y, k);
    assert c[y] in c;
  }

  lemma InsertedBack(next: Links, prev: Links, c: seq<Addr>, k: nat, n: Addr, i: nat)
    requires Ring(next, prev, c) && k < |c| && n !in c && i <= |c|
    ensures |InsertBehind(c, k, n)| == |c| + 1
    ensures var r, prev' := InsertBehind(c, k, n), InsertPrev(next, prev, c[k], n);
            r[i] in prev' && prev'[r[i]] == Before(r, i)
  {
    hide InsertBehind, After, Before, Distinct, Wrap;
    var y := if i <= k then i else i - 1;
    InsertIndex(c, k, n, i);
    AfterInserted(c, k, n, i);
    DistinctAt(c, y, Wrap(c, k));
    assert c[y] in c && next[c[k]] == After(c, k) && prev[c[y]] == Before(c, y);
  }

  /** rt_list_remove, and the same writes in the memory heap: the neighbours of `n` are linked. */
  function RemoveNext(next: Links, prev: Links, n: Addr): Links
    requires n in next && n in prev
  {
    next[prev[n] := next[n]]
  }

  function RemovePrev(next: Links, prev: Links, n: Addr): Links
    requires n in next && n in prev
  {
    prev[next[n] := prev[n]]
  }

  lemma RingRemove(next: Links, prev: Links, c: seq<Addr>, k: nat)
    requires Ring(next, prev, c) && k < |c| && |c| > 1
    ensures c[k] in next && c[k] in prev
    ensures Ring(RemoveNext(next, prev, c[k]), RemovePrev(next, prev, c[k]), RemoveAt(c, k))
  {
    hide RemoveNext, RemovePrev, RemoveAt, After, Before, Distinct;
    var r, next', prev' := RemoveAt(c, k), RemoveNext(next, prev, c[k]), RemovePrev(next, prev, c[k]);
    RemoveDistinct(c, k);
    forall i | 0 <= i < |r| ensures r[i] in next' && next'[r[i]] == After(r, i) {
      RemovedForward(next, prev, c, k, i);
    }
    forall i | 0 <= i < |r| ensures r[i] in prev' && prev'[r[i]] == Before(r, i) {
      RemovedBack(next, prev, c, k, i);
    }
  }

  lemma RemoveDistinct(c: seq<Addr>, k: nat)
    requires Distinct(c) && k < |c|
    ensures Distinct(RemoveAt(c, k)) && |RemoveAt(c, k)| == |c| - 1
  {
    var r := RemoveAt(c, k);
    assert forall i | 0 <= i < |r| :: r[i] == if i < k then c[i] else c[i + 1];
  }

  lemma RemoveIndex(c: seq<Addr>, k: nat, i: nat)
    requires k < |c| && i < |c| - 1
    ensures |RemoveAt(c, k)| == |c| - 1
    ensures RemoveAt(c, k)[i] == c[if i < k then i else i + 1]
  {
  }

  /** Who follows whom, after a removal. */
  lemma AfterRemoved(c: seq<Addr>, k: nat, i: nat)
    requires k < |c| && i < |c| - 1
    ensures |RemoveAt(c, k)| == |c| - 1
    ensures var y := if i < k then i else i + 1;
            && After(RemoveAt(c, k), i) == (if Wrap(c, y) == k then After(c, k) else After(c, y))
            && Before(RemoveAt(c, k), i) == (if Wrap(c, k) == y then Before(c, k) else Before(c, y))
  {
    hide RemoveAt;
    RemoveIndex(c, k, i);
    RemoveIndex(c, k, 0);
    RemoveIndex(c, k, |c| - 2);
    if i + 1 < |c| - 1 { RemoveIndex(c, k, i + 1); }
    if i > 0 { RemoveIndex(c, k, i - 1); }
  }

  lemma BeforeIsWrap(c: seq<Addr>, k: nat, y: nat)
    requires Distinct(c) && k < |c| && y < |c|
    ensures c[y] == Before(c, k) <==> Wrap(c, y) == k
  {
    DistinctAt(c, y, if k == 0 then |c| - 1 else k - 1);
  }

  lemma RemovedForward(next: Links, prev: Links, c: seq<Addr>, k: nat, i: nat)
    requires Ring(next, prev, c) && k < |c| && i < |c| - 1
    ensures |RemoveAt(c, k)| == |c| - 1
    ensures var r, next' := RemoveAt(c, k), RemoveNext(next, prev, c[k]);
            r[i] in next' && next'[r[i]] == After(r, i)
  {
    hide RemoveAt, After, Before, Distinct, Wrap;
    var y := if i < k then i else i + 1;
    RemoveIndex(c, k, i);
    AfterRemoved(c, k, i);
    BeforeIsWrap(c, k, y);
    assert next[c[y]] == After(c, y) && next[c[k]] == After(c, k);
  }

  lemma RemovedBack(next: Links, prev: Links, c: seq<Addr>, k: nat, i: nat)
    requires Ring(next, prev, c) && k < |c| && i < |c| - 1
    ensures |RemoveAt(c, k)| == |c| - 1
    ensures var r, prev' := RemoveAt(c, k), RemovePrev(next, prev, c[k]);
            r[i] in prev' && prev'[r[i]] == Before(r, i)
  {
    hide RemoveAt, After, Before, Distinct, Wrap;
    var y := if i < k then i else i + 1;
    RemoveIndex(c, k, i);
    AfterRemoved(c, k, i);
    DistinctAt(c, y, Wrap(c, k));
    assert prev[c[y]] == Before(c, y) && prev[c[k]] == Before(c, k);
  }

  /** Writes elsewhere leave a ring as it is. */
  lemma RingKept(next: Links, prev: Links, next': Links, prev': Links, c: seq<Addr>)
    requires Ring(next, prev, c)
    requires forall a | a in c :: a in next' && a in prev' && next'[a] == next[a] && prev'[a] == prev[a]
    ensures Ring(next', prev', c)
  {
  }

  /** The writes of an insertion or a removal stay inside the ring they work on. */
  lemma OtherInsert(next: Links, prev: Links, c: seq<Addr>, d: seq<Addr>, k: nat, n: Addr)
    requires Ring(next, prev, c) && Ring(next, prev, d) && k < |c|
    requires (forall a | a in d :: a !in c) && n !in d
    ensures Ring(InsertNext(next, c[k], n), InsertPrev(next, prev, c[k], n), d)
  {
    assert c[k] in c && After(c, k) in c;
    RingKept(next, prev, InsertNext(next, c[k], n), InsertPrev(next, prev, c[k], n), d);
  }

  lemma OtherRemove(next: Links, prev: Links, c: seq<Addr>, d: seq<Addr>, k: nat)
    requires Ring(next, prev, c) && Ring(next, prev, d) && k < |c|
    requires forall a | a in d :: a !in c
    ensures c[k] in next && c[k] in prev && c[k] !in d
    ensures Ring(RemoveNext(next, prev, c[k]), RemovePrev(next, prev, c[k]), d)
  {
    assert c[k] in c && After(c, k) in c && Before(c, k) in c;
    RingKept(next, prev, RemoveNext(next, prev, c[k]), RemovePrev(next, prev, c[k]), d);
  }
}
