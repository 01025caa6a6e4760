/** The list operations of rtservice.h, each proved to do to the ring of nodes what its name says. */
module RtList {
  import opened Rings

  /** The links of all list nodes in memory. */
  class Nodes {
    var next: Links
    var prev: Links

    constructor ()
      ensures next == map[] && prev == map[]
    {
      next, prev := map[], map[];
    }

    /** rt_list_init. */
    method Init(l: Addr)
      modifies this
      ensures Ring(next, prev, [l])
      ensures forall d | Ring(old(next), old(prev), d) && l !in d :: Ring(next, prev, d)
    {
      next, prev := next[l := l], prev[l := l];
      forall d | Ring(old(next), old(prev), d) && l !in d ensures Ring(next, prev, d) {
        RingKept(old(next), old(prev), next, prev, d);
      }
    }

    /** rt_list_insert_after. */
    method InsertAfter(ghost c: seq<Addr>, ghost k: nat, l: Addr, n: Addr)
      requires Ring(next, prev, c) && k < |c| && c[k] == l && n !in c
      modifies this
      ensures Ring(next, prev, InsertBehind(c, k, n))
      ensures forall d | Ring(old(next), old(prev), d) && n !in d && (forall a | a in d :: a !in c) :: Ring(next, prev, d)
    {
      hide Ring;
      LinksOf(next, prev, c, k);
      RingInsert(next, prev, c, k, n);
      forall d | Ring(next, prev, d) && n !in d && (forall a | a in d :: a !in c)
        ensures Ring(InsertNext(next, l, n), InsertPrev(next, prev, l, n), d)
      {
        OtherInsert(next, prev, c, d, k, n);
      }
      prev := prev[next[l] := n];
      next := next[n := next[l]];
      next := next[l := n];
      prev := prev[n := l];
      assert next == InsertNext(old(next), l, n) && prev == InsertPrev(old(next), old(prev), l, n);
    }

    /** rt_list_insert_before. For the head of a list this is the end of the list. */
    method InsertBefore(ghost c: seq<Addr>, ghost k: nat, l: Addr, n: Addr)
      requires Ring(next, prev, c) && k < |c| && c[k] == l && n !in c
      modifies this
      ensures Ring(next, prev, if k == 0 then c + [n] else InsertBehind(c, k - 1, n))
      ensures forall d | Ring(old(next), old(prev), d) && n !in d && (forall a | a in d :: a !in c) :: Ring(next, prev, d)
    {
      hide Ring;
      ghost var p: nat := if k == 0 then |c| - 1 else k - 1;
      LinksOf(next, prev, c, k);
      LinksOf(next, prev, c, p);
      RingInsert(next, prev, c, p, n);
      assert InsertBehind(c, |c| - 1, n) == c + [n];
      forall d | Ring(next, prev, d) && n !in d && (forall a | a in d :: a !in c)
        ensures Ring(InsertNext(next, c[p], n), InsertPrev(next, prev, c[p], n), d)
      {
        OtherInsert(next, prev, c, d, p, n);
      }
      next := next[prev[l] := n];
      prev := prev[n := prev[l]];
      prev := prev[l := n];
      next := next[n := l];
      assert next == InsertNext(old(next), c[p], n);
      assert prev == InsertPrev(old(next), old(prev), c[p], n);
    }

    /** rt_list_remove: the node is a list of its own afterwards, and stays so if it was before. */
    method Remove(ghost c: seq<Addr>, ghost k: nat, n: Addr)
      requires Ring(next, prev, c) && k < |c| && c[k] == n
      modifies this
      ensures Ring(next, prev, [n])
      ensures |c| > 1 ==> Ring(next, prev, RemoveAt(c, k))
      ensures forall d | Ring(old(next), old(prev), d) && (forall a | a in d :: a !in c) :: Ring(next, prev, d)
    {
      hide Ring, RemoveNext, RemovePrev;
      LinksOf(next, prev, c, k);
      ghost var next', prev' := RemoveNext(next, prev, n), RemovePrev(next, prev, n);
      if |c| > 1 {
        RingRemove(next, prev, c, k);
        NotInRemoved(next, prev, c, k);
        Detached(next', prev', n, RemoveAt(c, k));
      }
      forall d | Ring(next, prev, d) && (forall a | a in d :: a !in c) ensures Ring(next'[n := n], prev'[n := n], d) {
        OtherRemove(next, prev, c, d, k);
        Detached(next', prev', n, d);
      }
      Alone(next', prev', n);
      Unlink(next, prev, n);
      prev := prev[next[n] := prev[n]];
      next := next[prev[n] := next[n]];
      next, prev := next[n := n], prev[n := n];
    }

    /** rt_list_isempty. */
    method IsEmpty(ghost c: seq<Addr>, l: Addr) returns (r: bool)
      requires Ring(next, prev, c) && c[0] == l
      ensures r <==> |c| == 1
    {
      LinksOf(next, prev, c, 0);
      r := next[l] == l;
    }

    /** rt_list_len: the number of nodes, the head not counted. */
    method Len(ghost c: seq<Addr>, l: Addr) returns (len: nat)
      requires Ring(next, prev, c) && c[0] == l
      ensures len == |c| - 1
    {
      len := 0;
      var p := l;
      while next[p] != l
        invariant len < |c| && p == c[len]
        decreases |c| - len
      {
        p := next[p];
        len := len + 1;
      }
    }
  }

  lemma LinksOf(next: Links, prev: Links, c: seq<Addr>, k: nat)
    requires Ring(next, prev, c) && k < |c|
    ensures c[k] in next && next[c[k]] == After(c, k) && c[k] in prev && prev[c[k]] == Before(c, k)
    ensures c[k] in c && After(c, k) in c && Before(c, k) in c
    ensures After(c, k) == c[k] <==> |c| == 1
    ensures Before(c, k) == c[k] <==> |c| == 1
  {
  }

  lemma NotInRemoved(next: Links, prev: Links, c: seq<Addr>, k: nat)
    requires Ring(next, prev, c) && k < |c|
    ensures c[k] !in RemoveAt(c, k)
  {
  }

  lemma Detached(next: Links, prev: Links, n: Addr, d: seq<Addr>)
    requires Ring(next, prev, d) && n !in d
    ensures Ring(next[n := n], prev[n := n], d)
  {
    RingKept(next, prev, next[n := n], prev[n := n], d);
  }

  lemma Alone(next: Links, prev: Links, n: Addr)
    ensures Ring(next[n := n], prev[n := n], [n])
  {
  }

  /** The two writes of a removal may read each other's result only when the node is alone. */
  lemma Unlink(next: Links, prev: Links, n: Addr)
    requires n in next && n in prev && (next[n] == n <==> prev[n] == n)
    ensures var prev' := prev[next[n] := prev[n]];
            prev' == RemovePrev(next, prev, n) && prev'[n] == prev[n]
            && next[prev'[n] := next[n]] == RemoveNext(next, prev, n)
  {
  }

  /** Removing a node that was just inserted restores the list. */
  lemma RemoveUndoesInsert(c: seq<Addr>, k: nat, n: Addr)
    requires k < |c|
    ensures RemoveAt(InsertBehind(c, k, n), k + 1) == c
  {
  }
}
