/** __rt_ffs (kservice.c): the first set bit of a 32-bit word, by table look-up, in both variants. */
module FirstBit {
  import opened Numbers

  /** __lowest_bit_bitmap of the first variant. Its 16 rows differ in their first entry only. */
  function LowestBitmap(b: nat): nat {
    if b % 16 == 0 then RowHead(b / 16) else RowEntry(b % 16)
  }

  function RowHead(r: nat): nat {
    match r
    case 0 => 0 case 1 => 4 case 2 => 5 case 3 => 4 case 4 => 6 case 5 => 4 case 6 => 5 case 7 => 4
    case 8 => 7 case 9 => 4 case 10 => 5 case 11 => 4 case 12 => 6 case 13 => 4 case 14 => 5 case _ => 4
  }

  function RowEntry(c: nat): nat {
    match c
    case 0 => 0 case 1 => 0 case 2 => 1 case 3 => 0 case 4 => 2 case 5 => 0 case 6 => 1 case 7 => 0
    case 8 => 3 case 9 => 0 case 10 => 1 case 11 => 0 case 12 => 2 case 13 => 0 case 14 => 1 case _ => 0
  }

  /** __lowest_bit_bitmap of RT_USING_TINY_FFS. */
  function TinyBitmap(r: nat): nat {
    match r
    case 0 => 0 case 1 => 1 case 2 => 2 case 3 => 27 case 4 => 3 case 5 => 24 case 6 => 28 case 7 => 32
    case 8 => 4 case 9 => 17 case 10 => 25 case 11 => 31 case 12 => 29 case 13 => 12 case 14 => 32 case 15 => 14
    case 16 => 5 case 17 => 8 case 18 => 18 case 19 => 32 case 20 => 26 case 21 => 23 case 22 => 32 case 23 => 16
    case 24 => 30 case 25 => 11 case 26 => 13 case 27 => 7 case 28 => 32 case 29 => 22 case 30 => 15 case 31 => 10
    case 32 => 6 case 33 => 21 case 34 => 9 case 35 => 20 case _ => 19
  }

  /** The index of the lowest set bit. */
  function Lowest(n: nat): (k: nat)
    requires n > 0
    ensures Bit(n, k) && forall j: nat | j < k :: !Bit(n, j)
  {
    if n % 2 == 1 then 0
    else
      var k := Lowest(n / 2);
      assert forall j: nat | 0 < j < k + 1 :: Bit(n, j) == Bit(n / 2, j - 1);
      k + 1
  }

  /** __rt_ffs on an unsigned 32-bit word. */
  function Ffs(value: nat): nat
    requires value < 0x1_0000_0000
  {
    if value == 0 then 0
    else if value % 256 != 0 then LowestBitmap(value % 256) + 1
    else if value / 0x100 % 256 != 0 then LowestBitmap(value / 0x100 % 256) + 9
    else if value / 0x1_0000 % 256 != 0 then LowestBitmap(value / 0x1_0000 % 256) + 17
    else LowestBitmap(value / 0x100_0000 % 256) + 25
  }

  /** __rt_ffs of RT_USING_TINY_FFS. */
  function TinyFfs(value: nat): nat {
    TinyBitmap(Xor(if value == 0 then 0 else And(value, value - 1), value) % 37)
  }

  lemma HalfOfMod(n: nat, h: nat)
    requires h > 0
    ensures (n % (2 * h)) / 2 == (n / 2) % h && (n % (2 * h)) % 2 == n % 2
  {
    var q, r := n / (2 * h), n % (2 * h);
    assert n == q * (2 * h) + r;
    assert n == 2 * (q * h) + r;
    assert n / 2 == q * h + r / 2;
    Unique(n / 2, h, q, r / 2);
  }

  lemma DivTwice(n: nat, h: nat)
    requires h > 0
    ensures n / (2 * h) == n / 2 / h
  {
    var q, r := n / (2 * h), n % (2 * h);
    assert n == q * (2 * h) + r;
    assert n == 2 * (q * h) + r;
    assert n / 2 == q * h + r / 2;
    Unique(n / 2, h, q, r / 2);
  }

  /** When the low bits are clear, the lowest bit is among the others. */
  lemma {:induction false} LowestShift(n: nat, w: nat)
    requires n > 0 && n % Pow2(w) == 0
    ensures n / Pow2(w) > 0 && Lowest(n) == w + Lowest(n / Pow2(w))
  {
    if w > 0 {
      HalfOfMod(n, Pow2(w - 1));
      DivTwice(n, Pow2(w - 1));
      LowestShift(n / 2, w - 1);
    }
  }

  /** When they are not, it is among them. */
  lemma {:induction false} LowestLow(n: nat, w: nat)
    requires n % Pow2(w) > 0
    ensures n > 0 && Lowest(n) == Lowest(n % Pow2(w))
  {
    if w > 0 {
      HalfOfMod(n, Pow2(w - 1));
      if n % 2 == 0 { LowestLow(n / 2, w - 1); }
    }
  }

  /** The table holds the lowest bit of every byte. */
  lemma TableRight(b: nat)
    requires 0 < b < 256
    ensures LowestBitmap(b) == Lowest(b)
  {
    assert Pow2(4) == 16;
    if b % 16 == 0 {
      LowestShift(b, 4);
      LowRow(b / 16);
    } else {
      LowestLow(b, 4);
      LowRow(b % 16);
    }
  }

  lemma LowRow(c: nat)
    requires 0 < c < 16
    ensures Lowest(c) == RowEntry(c) && RowHead(c) == Lowest(c) + 4
  {
    assert Lowest(1) == 0 && Lowest(3) == 0 && Lowest(2) == 1;
    assert c % 4 == 0 ==> Lowest(c) == 2 + Lowest(c / 2 / 2);
  }

  /** A byte that is not zero decides, when all bits below it are clear. */
  lemma ByteDecides(value: nat, w: nat)
    requires value % Pow2(w) == 0 && value / Pow2(w) % 256 != 0
    ensures value > 0 && Lowest(value) == w + Lowest(value / Pow2(w) % 256)
  {
    PowEight();
    LowestShift(value, w);
    LowestLow(value / Pow2(w), 8);
  }

  lemma PowEight()
    ensures Pow2(0) == 1 && Pow2(8) == 0x100 && Pow2(16) == 0x1_0000 && Pow2(24) == 0x100_0000 && Pow2(32) == 0x1_0000_0000
  {
    assert Pow2(4) == 16;
    assert Pow2(8) == 0x100;
    assert Pow2(12) == 0x1000;
    assert Pow2(16) == 0x1_0000;
    assert Pow2(20) == 0x10_0000;
    assert Pow2(24) == 0x100_0000;
    assert Pow2(28) == 0x1000_0000;
  }

  lemma Bytes(value: nat)
    requires 0 < value < 0x1_0000_0000
    ensures value % 1 == 0 && value / 1 == value
    ensures value % 0x100 == 0 && value / 0x100 % 256 == 0 ==> value % 0x1_0000 == 0
    ensures value % 0x1_0000 == 0 && value / 0x1_0000 % 256 == 0 ==> value % 0x100_0000 == 0
    ensures value % 0x100_0000 == 0 ==> value / 0x100_0000 % 256 != 0
  {
  }

  /** __rt_ffs finds the first set bit, counted from one; zero has none. */
  lemma FfsMeaning(value: nat)
    requires value < 0x1_0000_0000
    ensures Ffs(value) == if value == 0 then 0 else Lowest(value) + 1
  {
    hide LowestBitmap, Lowest, Pow2;
    if value > 0 {
      PowEight();
      Bytes(value);
      if value % 256 != 0 {
        ByteDecides(value, 0);
        TableRight(value % 256);
      } else if value / 0x100 % 256 != 0 {
        ByteDecides(value, 8);
        TableRight(value / 0x100 % 256);
      } else if value / 0x1_0000 % 256 != 0 {
        ByteDecides(value, 16);
        TableRight(value / 0x1_0000 % 256);
      } else {
        ByteDecides(value, 24);
        TableRight(value / 0x100_0000 % 256);
      }
    }
  }

  lemma {:induction false} AndSelf(a: nat)
    ensures And(a, a) == a && Xor(a, a) == 0
  {
    if a > 0 { AndSelf(a / 2); }
  }

  /** The lowest set bit alone. */
  lemma {:induction false} LowestAlone(n: nat)
    requires n > 0
    ensures Xor(And(n, n - 1), n) == Pow2(Lowest(n))
  {
    if n % 2 == 1 {
      var k := n / 2;
      AndSelf(k);
      assert (n - 1) / 2 == k && (n - 1) % 2 == 0;
      assert And(n, n - 1) == 2 * k;
      assert (2 * k) / 2 == k;
    } else {
      var k := n / 2;
      LowestAlone(k);
      assert (n - 1) / 2 == k - 1 && (n - 1) % 2 == 1;
      var a := And(k, k - 1);
      assert And(n, n - 1) == 2 * a;
      assert (2 * a) / 2 == a;
    }
  }

  lemma {:induction false} LowestBound(n: nat, w: nat)
    requires 0 < n < Pow2(w)
    ensures Lowest(n) < w
  {
    if Lowest(n) >= w { HighBits(n, w, Lowest(n)); }
  }

  /** Both variants agree on every word. */
  lemma VariantsAgree(value: nat)
    requires value < 0x1_0000_0000
    ensures TinyFfs(value) == Ffs(value)
  {
    hide Lowest;
    FfsMeaning(value);
    if value > 0 {
      PowEight();
      LowestBound(value, 32);
      LowestAlone(value);
      TinyRight(Lowest(value));
    } else {
      assert Xor(0, 0) == 0;
    }
  }

  lemma TinyRight(k: nat)
    requires k < 32
    ensures TinyBitmap(Pow2(k) % 37) == k + 1
  {
    hide Pow2, TinyBitmap;
    Residues(k);
    TinyInverts(k);
  }

  function Residue(k: nat): nat {
    match k
    case 0 => 1 case 1 => 2 case 2 => 4 case 3 => 8 case 4 => 16 case 5 => 32 case 6 => 27 case 7 => 17
    case 8 => 34 case 9 => 31 case 10 => 25 case 11 => 13 case 12 => 26 case 13 => 15 case 14 => 30 case 15 => 23
    case 16 => 9 case 17 => 18 case 18 => 36 case 19 => 35 case 20 => 33 case 21 => 29 case 22 => 21 case 23 => 5
    case 24 => 10 case 25 => 20 case 26 => 3 case 27 => 6 case 28 => 12 case 29 => 24 case 30 => 11 case _ => 22
  }

  /** The table undoes the residues of the powers of two modulo 37, which are all different. */
  lemma TinyInverts(k: nat)
    requires k < 32
    ensures TinyBitmap(Residue(k)) == k + 1
  {
  }

  lemma {:induction false} Residues(k: nat)
    requires k < 32
    ensures Pow2(k) % 37 == Residue(k)
  {
    hide Residue;
    if k == 0 {
      assert Residue(0) == 1 by { FirstResidue(); }
    } else {
      Residues(k - 1);
      NextResidue(k);
      DoubleMod(Pow2(k - 1));
    }
  }

  lemma DoubleMod(a: nat)
    ensures (2 * a) % 37 == (2 * (a % 37)) % 37
  {
  }

  lemma FirstResidue()
    ensures Residue(0) == 1
  {
  }

  lemma NextResidue(k: nat)
    requires 0 < k < 32
    ensures Residue(k) == 2 * Residue(k - 1) % 37
  {
  }
}
