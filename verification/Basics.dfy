/** What more than one component uses. */
module Basics {

  datatype Option<+T> = None | Some(value: T)

  const UINT16_MAX: nat := 65535
  const WRAP: nat := 0x1_0000_0000   // what unsigned 32-bit numbers wrap around at

  function MinOf(a: int, b: int): int {
    if a < b then a else b
  }

  function MaxOf(a: int, b: int): (r: int)
    ensures r == a || r == b
    ensures r >= a && r >= b
  {
    if a > b then a else b
  }

  ghost predicate Distinct<T>(q: seq<T>) {
    forall i, j | 0 <= i < j < |q| :: q[i] != q[j]
  }

  /** A number of one thread or timer is set; `f` gives that number of all of them. */
  function Update(f: nat -> nat, k: nat, v: nat): (r: nat -> nat)
    ensures forall x :: r(x) == if x == k then v else f(x)
  {
    x => if x == k then v else f(x)
  }

  /** What went into a queue is what came out of it and what is still inside, one step further. */
  lemma Conserve<T>(accepted: seq<T>, delivered: seq<T>, held: seq<T>, enters: seq<T>, leaves: seq<T>, left: seq<T>)
    requires multiset(accepted) == multiset(delivered) + multiset(held)
    requires multiset(held) + multiset(enters) == multiset(leaves) + multiset(left)
    ensures multiset(accepted + enters) == multiset(delivered + leaves) + multiset(left)
  {
    assert multiset(accepted + enters) == multiset(delivered) + (multiset(held) + multiset(enters));
    assert multiset(delivered + leaves) == multiset(delivered) + multiset(leaves);
  }

  lemma ConserveOrder<T>(accepted: seq<T>, delivered: seq<T>, held: seq<T>, enters: seq<T>, leaves: seq<T>, left: seq<T>)
    requires accepted == delivered + held && held + enters == leaves + left
    ensures accepted + enters == (delivered + leaves) + left
  {
    assert (delivered + held) + enters == delivered + (held + enters);
  }

  lemma MixedOrder<T>(held: seq<T>, enters: seq<T>, leaves: seq<T>, left: seq<T>)
    requires held + enters == leaves + left || (leaves == [] && left == enters + held)
    ensures multiset(held) + multiset(enters) == multiset(leaves) + multiset(left)
  {
    assert multiset(held + enters) == multiset(held) + multiset(enters);
    assert multiset(leaves + left) == multiset(leaves) + multiset(left);
  }
}
