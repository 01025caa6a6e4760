/** Singly linked lists of nodes from one pool, as the message queue and the memory pool keep them. */
module NodeChain {
  import opened Basics
  import opened WaitQueue

  type Node = nat

  const NULL: int := -1

  /** The nodes `q` are linked through `next` from `first` on; the last one links to nothing. */
  ghost predicate Chain(next: seq<int>, first: int, q: seq<Node>)
    decreases |q|
  {
    if q == [] then first == NULL
    else first == q[0] && q[0] < |next| && Chain(next, next[q[0]], q[1..])
  }

  lemma ChainFirst(next: seq<int>, first: int, q: seq<Node>)
    requires Chain(next, first, q)
    ensures first == NULL <==> q == []
    ensures q != [] ==> first == q[0] && q[0] < |next| && Chain(next, next[q[0]], q[1..])
  {
  }

  /** Rewriting the link of a node that is not on a list leaves the list. */
  lemma {:induction false} ChainKept(next: seq<int>, first: int, q: seq<Node>, n: Node, to: int)
    requires Chain(next, first, q) && n !in q && n < |next|
    ensures Chain(next[n := to], first, q)
    decreases |q|
  {
    if q != [] { ChainKept(next, next[q[0]], q[1..], n, to); }
  }

  /** A node goes in front of a list. */
  lemma ChainPush(next: seq<int>, first: int, q: seq<Node>, n: Node)
    requires Chain(next, first, q) && n !in q && n < |next|
    ensures Chain(next[n := first], n, [n] + q)
  {
    ChainKept(next, first, q, n, first);
    assert ([n] + q)[1..] == q;
  }

  /** A node whose link is empty goes behind the last of a list. */
  lemma {:induction false} ChainAppend(next: seq<int>, first: int, q: seq<Node>, n: Node)
    requires Chain(next, first, q) && Distinct(q) && n !in q && n < |next| && next[n] == NULL
    ensures q == [] ==> Chain(next, n, [n])
    ensures q != [] ==> q[|q| - 1] < |next| && Chain(next[q[|q| - 1] := n], first, q + [n])
    decreases |q|
  {
    if q == [] {
      assert [n][1..] == [];
    } else {
      var t := q[1..];
      ChainAppend(next, next[q[0]], t, n);
      assert (q + [n])[1..] == t + [n];
      if t == [] {
        assert next[q[0] := n][n] == NULL;
        assert Chain(next[q[0] := n], n, [n]) by { assert [n][1..] == []; }
      }
    }
  }

  function Pool(max: nat): (all: set<Node>)
    ensures forall n :: n in all <==> 0 <= n < max
  {
    if max == 0 then {} else Pool(max - 1) + {max - 1}
  }

  lemma {:induction false} PoolSize(max: nat)
    ensures |Pool(max)| == max && |multiset(Pool(max))| == max
  {
    if max > 0 {
      PoolSize(max - 1);
      var last: Node := max - 1;
      var less := Pool(max - 1);
      assert last !in less && Pool(max) == less + {last};
      assert multiset(less + {last}) == multiset(less) + multiset{last};
    }
  }

  lemma NotYetFree(free: seq<Node>, n: Node)
    requires multiset(free) == multiset(Pool(n))
    ensures n !in free && multiset([n] + free) == multiset(Pool(n + 1))
  {
    assert n in free ==> multiset(free)[n] > 0;
    assert multiset(Pool(n + 1)) == multiset(Pool(n)) + multiset{n};
  }

  lemma ListDistinct(s: seq<Node>, all: multiset<Node>)
    requires multiset(s) <= all && forall n :: all[n] <= 1
    ensures Distinct(s)
  {
    forall i, j | 0 <= i < j < |s| ensures s[i] != s[j] {
      assert s == s[..j] + s[j..];
      assert s[i] in s[..j] && s[j] in s[j..];
      assert multiset(s)[s[i]] == multiset(s[..j])[s[i]] + multiset(s[j..])[s[i]];
    }
  }
}
