/** Bit operations and division on natural numbers. */
module Numbers {

  function Or(a: nat, b: nat): (r: nat)
    ensures a <= r && b <= r
  {
    if a == 0 && b == 0 then 0
    else (if a % 2 == 1 || b % 2 == 1 then 1 else 0) + 2 * Or(a / 2, b / 2)
  }

  function And(a: nat, b: nat): nat {
    if a == 0 || b == 0 then 0
    else (if a % 2 == 1 && b % 2 == 1 then 1 else 0) + 2 * And(a / 2, b / 2)
  }

  function Xor(a: nat, b: nat): nat {
    if a == 0 && b == 0 then 0
    else (if a % 2 != b % 2 then 1 else 0) + 2 * Xor(a / 2, b / 2)
  }

  /** a & ~b. */
  function AndNot(a: nat, b: nat): (r: nat)
    ensures r <= a
  {
    if a == 0 then 0
    else (if a % 2 == 1 && b % 2 == 0 then 1 else 0) + 2 * AndNot(a / 2, b / 2)
  }

  predicate Bit(n: nat, k: nat) {
    if k == 0 then n % 2 == 1 else Bit(n / 2, k - 1)
  }

  function Pow2(k: nat): (r: nat)
    ensures r > 0
  {
    if k == 0 then 1 else 2 * Pow2(k - 1)
  }

  lemma {:induction false} PowBit(k: nat, j: nat)
    ensures Bit(Pow2(k), j) <==> j == k
  {
    if k == 0 {
      if j > 0 { ZeroBit(j - 1); }
    } else if j > 0 {
      assert Pow2(k) / 2 == Pow2(k - 1);
      PowBit(k - 1, j - 1);
    }
  }

  lemma {:induction false} ZeroBit(k: nat)
    ensures !Bit(0, k)
  {
    if k > 0 { ZeroBit(k - 1); }
  }

  lemma {:induction false} OrBit(a: nat, b: nat, k: nat)
    ensures Bit(Or(a, b), k) <==> Bit(a, k) || Bit(b, k)
  {
    if k == 0 {
    } else if a == 0 && b == 0 {
      ZeroBit(k);
    } else {
      assert Or(a, b) / 2 == Or(a / 2, b / 2);
      OrBit(a / 2, b / 2, k - 1);
    }
  }

  lemma {:induction false} AndNotBit(a: nat, b: nat, k: nat)
    ensures Bit(AndNot(a, b), k) <==> Bit(a, k) && !Bit(b, k)
  {
    if a == 0 {
      ZeroBit(k);
    } else if k > 0 {
      assert AndNot(a, b) / 2 == AndNot(a / 2, b / 2);
      AndNotBit(a / 2, b / 2, k - 1);
    }
  }

  lemma {:induction false} OrBelow(a: nat, b: nat, k: nat)
    requires a < Pow2(k) && b < Pow2(k)
    ensures Or(a, b) < Pow2(k)
  {
    if k > 0 && !(a == 0 && b == 0) { OrBelow(a / 2, b / 2, k - 1); }
  }

  lemma {:induction false} PowGrows(j: nat, k: nat)
    requires j < k
    ensures Pow2(j) < Pow2(k)
    decreases k
  {
    if j < k - 1 { PowGrows(j, k - 1); }
  }

  lemma {:induction false} HighBits(n: nat, k: nat, j: nat)
    requires n < Pow2(k) && k <= j
    ensures !Bit(n, j)
  {
    if k == 0 { ZeroBit(j); }
    else { HighBits(n / 2, k - 1, j - 1); }
  }

  predicate PowerOfTwo(n: nat) {
    n == 1 || (n > 0 && n % 2 == 0 && PowerOfTwo(n / 2))
  }

  lemma {:induction false} OrSelf(a: nat)
    ensures Or(a, a) == a
  {
    if a > 0 { OrSelf(a / 2); }
  }

  /** The test for powers of two that the slab allocator uses. */
  lemma {:induction false} OrTest(n: nat)
    requires n > 0
    ensures Or(n, n - 1) + 1 == 2 * n <==> PowerOfTwo(n)
  {
    if n % 2 == 0 {
      OrTest(n / 2);
      assert (n - 1) / 2 == n / 2 - 1 && (n - 1) % 2 == 1;
    } else {
      OrSelf(n / 2);
      assert (n - 1) / 2 == n / 2;
      assert Or(n, n - 1) == 1 + 2 * Or(n / 2, n / 2);
    }
  }

  /** A power of two divides every larger one. */
  lemma {:induction false} PowerDivides(a: nat, b: nat)
    requires PowerOfTwo(a) && PowerOfTwo(b) && a <= b
    ensures b % a == 0
  {
    if a > 1 {
      PowerDivides(a / 2, b / 2);
      var k := (b / 2) / (a / 2);
      assert b / 2 == k * (a / 2);
      assert b == k * a;
      Multiple(k, a);
    }
  }

  lemma Multiple(k: nat, a: nat)
    requires a > 0
    ensures (k * a) % a == 0 && (k * a) / a == k
  {
    Unique(k * a, a, k, 0);
  }

  lemma Unique(n: nat, a: nat, q: int, r: int)
    requires a > 0 && n == q * a + r && 0 <= r < a
    ensures n / a == q && n % a == r
  {
    var q', r' := n / a, n % a;
    assert n == q' * a + r';
    assert (q - q') * a == r' - r;
    Scale(1, q - q', a);
    Scale(q - q', -1, a);
  }

  lemma Quotient(n: nat, a: nat)
    requires a > 0
    ensures n / a * a <= n < n / a * a + a
  {
    assert n == n / a * a + n % a;
  }

  lemma Scale(x: int, y: int, a: nat)
    ensures x <= y ==> x * a <= y * a
  {
  }
}
