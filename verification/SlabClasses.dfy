/** The size classes of the slab allocator (slab.c): which zone serves a request, and with what chunks. */
module SlabClasses {
  import opened Numbers

  const NZONES: nat := 72
  const PAGE: nat := 4096
  const ZONE_HDR: nat := 36
  const MIN_CHUNK: nat := 8
  const ZONE_LIMIT: nat := 16384

  function RoundUp(n: nat, to: nat): nat
    requires to > 0
  {
    (n + to - 1) / to * to
  }

  /** zoneindex: the class of a request and the size of its chunks. */
  function ZoneIndex(n: nat): (nat, nat) {
    if n < 128 then var c := RoundUp(n, 8); (if c == 0 then 0 else c / 8 - 1, c)
    else if n < 256 then var c := RoundUp(n, 16); (c / 16 + 7, c)
    else if n < 512 then var c := RoundUp(n, 32); (c / 32 + 15, c)
    else if n < 1024 then var c := RoundUp(n, 64); (c / 64 + 23, c)
    else if n < 2048 then var c := RoundUp(n, 128); (c / 128 + 31, c)
    else if n < 4096 then var c := RoundUp(n, 256); (c / 256 + 39, c)
    else if n < 8192 then var c := RoundUp(n, 512); (c / 512 + 47, c)
    else if n < 16384 then var c := RoundUp(n, 1024); (c / 1024 + 55, c)
    else (0, n)
  }

  /** The chunk size of a class. */
  function ClassSize(i: nat): nat {
    if i < 16 then (i + 1) * 8
    else if i < 24 then (i - 7) * 16
    else if i < 32 then (i - 15) * 32
    else if i < 40 then (i - 23) * 64
    else if i < 48 then (i - 31) * 128
    else if i < 56 then (i - 39) * 256
    else if i < 64 then (i - 47) * 512
    else (i - 55) * 1024
  }

  /** The rounded request, as a number of grains of `8 * h` bytes. */
  lemma Grains(n: nat, h: nat, q: nat)
    requires h > 0 && n > 0 && q == (n + 8 * h - 1) / (8 * h)
    ensures RoundUp(n, 8 * h) == q * (8 * h) && RoundUp(n, 8 * h) / (8 * h) == q
    ensures n <= q * (8 * h) < n + 8 * h && q >= 1
    ensures RoundUp(n, 8 * h) % 8 == 0
  {
    assert n + 8 * h - 1 == q * (8 * h) + (n + 8 * h - 1) % (8 * h);
    Multiple(q, 8 * h);
    Scale(q, 0, 8 * h);
    assert q * (8 * h) == (q * h) * 8;
  }

  /** A request gets the smallest class that holds it, and wastes less than 8 bytes or an eighth. */
  lemma ClassMeaning(n: nat)
    requires 0 < n < ZONE_LIMIT
    ensures var (i, size) := ZoneIndex(n);
            && i < NZONES && size == ClassSize(i) && n <= size && size % MIN_CHUNK == 0
            && (i > 0 ==> ClassSize(i - 1) < n)
            && (size - n < 8 || 8 * (size - n) < n)
  {
    if n < 128 { ClassesTo128(n); }
    else if n < 512 { ClassesTo512(n); }
    else if n < 2048 { ClassesTo2048(n); }
    else { ClassesAbove(n); }
  }

  /** What is claimed of the class of `n`. */
  predicate Classed(n: nat) {
    var (i, size) := ZoneIndex(n);
    && i < NZONES && size == ClassSize(i) && n <= size && size % MIN_CHUNK == 0
    && (i > 0 ==> ClassSize(i - 1) < n)
    && (size - n < 8 || 8 * (size - n) < n)
  }

  lemma ClassesTo128(n: nat)
    requires 0 < n < 128
    ensures Classed(n)
  {
    hide RoundUp;
    Grains(n, 1, (n + 7) / 8);
  }

  lemma ClassesTo512(n: nat)
    requires 128 <= n < 512
    ensures Classed(n)
  {
    hide RoundUp;
    if n < 256 { Grains(n, 2, (n + 15) / 16); } else { Grains(n, 4, (n + 31) / 32); }
  }

  lemma ClassesTo2048(n: nat)
    requires 512 <= n < 2048
    ensures Classed(n)
  {
    hide RoundUp;
    if n < 1024 { Grains(n, 8, (n + 63) / 64); } else { Grains(n, 16, (n + 127) / 128); }
  }

  lemma ClassesAbove(n: nat)
    requires 2048 <= n < ZONE_LIMIT
    ensures Classed(n)
  {
    hide RoundUp;
    if n < 4096 { Grains(n, 32, (n + 255) / 256); }
    else if n < 8192 { Grains(n, 64, (n + 511) / 512); }
    else { Grains(n, 128, (n + 1023) / 1024); }
  }

  lemma ClassesGrow(i: nat, j: nat)
    requires i < j < NZONES
    ensures ClassSize(i) < ClassSize(j)
    decreases j
  {
    if i < j - 1 { ClassesGrow(i, j - 1); }
  }

  /** Asking for a whole chunk stays in its class: rt_slab_realloc may round before it allocates. */
  lemma ClassOfChunk(i: nat)
    requires i < NZONES && ClassSize(i) < ZONE_LIMIT
    ensures ZoneIndex(ClassSize(i)) == (i, ClassSize(i))
  {
    hide ZoneIndex, ClassSize;
    PositiveClass(i);
    ClassMeaning(ClassSize(i));
    var (j, size) := ZoneIndex(ClassSize(i));
    if i < j { ClassesGrowUp(i, j - 1); }
    if j < i { ClassesGrow(j, i); }
  }

  lemma PositiveClass(i: nat)
    ensures i < NZONES ==> ClassSize(i) > 0
  {
  }

  lemma ClassesGrowUp(i: nat, j: nat)
    requires i <= j < NZONES
    ensures ClassSize(i) <= ClassSize(j)
  {
    if i < j { ClassesGrow(i, j); }
  }

  /** The offset of the first chunk in a zone. */
  function Offset(size: nat): nat
    requires size > 0
  {
    if Or(size, size - 1) + 1 == 2 * size then RoundUp(ZONE_HDR, size) else RoundUp(ZONE_HDR, MIN_CHUNK)
  }

  lemma RoundUpMeaning(n: nat, to: nat)
    requires to > 0
    ensures n <= RoundUp(n, to) < n + to && RoundUp(n, to) % to == 0
  {
    var q := (n + to - 1) / to;
    assert n + to - 1 == q * to + (n + to - 1) % to;
    Multiple(q, to);
  }

  lemma OffsetMeaning(size: nat)
    requires size > 0
    ensures ZONE_HDR <= Offset(size)
    ensures Offset(size) < ZONE_HDR + (if PowerOfTwo(size) then size else MIN_CHUNK)
    ensures PowerOfTwo(size) ==> Offset(size) % size == 0
  {
    hide RoundUp, Or, PowerOfTwo;
    OrTest(size);
    RoundUpMeaning(ZONE_HDR, size);
    RoundUpMeaning(ZONE_HDR, MIN_CHUNK);
  }

  lemma Distribute(x: int, y: int, a: int)
    ensures (x + y) * a == x * a + y * a
  {
  }

  lemma AddMultiple(n: nat, k: nat, a: nat)
    requires a > 0
    ensures (n + k * a) % a == n % a
  {
    var q, r := n / a, n % a;
    assert n == q * a + r;
    assert n + k * a == (q + k) * a + r;
    Unique(n + k * a, a, q + k, r);
  }

  lemma Associate(x: int, y: int, z: int)
    ensures x * (y * z) == (x * y) * z
  {
  }

  lemma PositivePower(n: nat)
    requires PowerOfTwo(n)
    ensures n > 0
  {
  }

  lemma PageIsPower()
    ensures PowerOfTwo(4096) && PowerOfTwo(8192)
  {
    assert PowerOfTwo(4) && PowerOfTwo(32) && PowerOfTwo(256) && PowerOfTwo(2048);
  }
}
