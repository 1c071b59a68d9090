/**
 The offset arithmetic of the metadata layout, in the integer widths of the source: sizes rounded up
 to a power of two by smearing bits, and int8 offsets that wrap at 128.
 */
module Offsets {
  import opened Bits

  const TOTAL_SIZE: int := 128
  const MAX_SIZE: int := 32
  const NO_WRITE: int := -1
  const NO_READ: int := -2
  const NO_SPACE: int := -3
  const U32: int := 0x1_0000_0000
  const U64: int := 0x1_0000_0000_0000_0000

  // ----- Rounding a size up to a power of two -----

  /** One line of the bit-smearing in align_ceil_pow2. */
  function Smear(x: nat, t: nat): (r: nat) {
    Or(x, Shr(x, t))
  }

  function SmearAll(x: nat): (r: nat) {
    Smear(Smear(Smear(Smear(Smear(Smear(x, 1), 2), 4), 8), 16), 32)
  }

  function AlignCeilPow2(v: nat): (r: nat)
    requires v >= 1
  {
    SmearAll(v - 1) + 1
  }

  /** The t highest of w bits are ones. */
  ghost predicate Ones(x: nat, w: nat, t: nat) {
    x < Pow2(w) && x + Pow2(if t <= w then w - t else 0) >= Pow2(w)
  }

  /** Smearing by t doubles the number of leading ones. */
  lemma SmearStep(x: nat, w: nat, t: nat)
    requires Ones(x, w, t)
    ensures Ones(Smear(x, t), w, 2 * t)
  {
    var c := if t <= w then w - t else 0;
    var u := if 2 * t <= w then w - 2 * t else 0;
    Pow2Monotone(w, c + t);
    Pow2Monotone(c, u + t);
    ShrBounds(x, t, u, c);
    OrFills(x, Shr(x, t), w, c, u);
    Pow2Monotone(c, w);
    OrBound(x, Shr(x, t), w);
  }

  lemma {:induction false} BitLength(x: nat, w: nat) returns (b: nat)
    requires x < Pow2(w)
    ensures b <= w && Ones(x, b, 1)
  {
    if w == 0 || x >= Pow2(w - 1) {
      b := w;
    } else {
      b := BitLength(x, w - 1);
    }
  }

  lemma SmearAllOnes(x: nat, w: nat)
    requires Ones(x, w, 1)
    ensures Ones(SmearAll(x), w, 64)
  {
    var a1 := Smear(x, 1);
    var a2 := Smear(a1, 2);
    var a3 := Smear(a2, 4);
    var a4 := Smear(a3, 8);
    var a5 := Smear(a4, 16);
    SmearStep(x, w, 1);
    SmearStep(a1, w, 2);
    SmearStep(a2, w, 4);
    SmearStep(a3, w, 8);
    SmearStep(a4, w, 16);
    SmearStep(a5, w, 32);
  }

  /** The rounded size is the only power of two from v up to, and not including, 2 v. */
  lemma AlignCeilPow2IsNextPower(v: nat, n: nat) returns (w: nat)
    requires n <= 63 && 1 <= v <= Pow2(n)
    ensures AlignCeilPow2(v) == Pow2(w) && v <= Pow2(w) < 2 * v
  {
    w := BitLength(v - 1, n);
    SmearAllOnes(v - 1, w);
  }

  // ----- The next offset, in the widths of the source -----

  function Int8(x: int): (r: int)
    ensures -128 <= r < 128
  {
    (x + 128) % 256 - 128
  }

  function AlignCeil(v: int, align: int): (r: int)
    requires align > 0
  {
    var s := (v + align - 1) % U64;
    s - s % align
  }

  function RoundedSize(size: int): (r: int)
    requires 1 <= size <= MAX_SIZE
  {
    Int8(AlignCeilPow2(size))
  }

  lemma RoundedSizes(size: int)
    requires 1 <= size <= MAX_SIZE
    ensures RoundedSize(size) in {1, 2, 4, 8, 16, 32} && size <= RoundedSize(size) < 2 * size
  {
    assert Pow2(5) == 32;
    var w := AlignCeilPow2IsNextPower(size, 5);
    if w >= 6 {
      Pow2Monotone(6, w);
    } else {
      assert w == 0 || w == 1 || w == 2 || w == 3 || w == 4 || w == 5;
    }
  }

  /** An offset rounded up to a multiple, as the source stores it. */
  function Aligned(curr: int, rounded: int): (r: int)
    requires rounded > 0
  {
    if curr % rounded != 0 then Int8(AlignCeil(curr % U64, rounded)) else curr
  }

  /** The offset, unless the unsigned 32-bit sum is past the area. */
  function Fitted(offset: int, size: int): (r: int) {
    var overflow := (offset % U32 + size) % U32;
    if overflow > TOTAL_SIZE then NO_SPACE else offset
  }

  function ComputeNextOffset(curr: int, size: int): (r: int)
    requires -128 <= curr < 128 && 1 <= size <= MAX_SIZE
  {
    RoundedSizes(size);
    Fitted(Aligned(curr, RoundedSize(size)), size)
  }

  /** The first multiple of m from x on. */
  function CeilTo(x: int, m: int): (r: int)
    requires m > 0
  {
    x + -x % m
  }

  /** The first multiple of m from x on, if the size fits there. */
  function FirstAligned(x: int, size: int, m: int): (r: int)
    requires m > 0
  {
    if CeilTo(x, m) + size <= TOTAL_SIZE then CeilTo(x, m) else NO_SPACE
  }

  /** c is the first multiple of m from x on. */
  ghost predicate IsCeil(x: int, m: int, c: int) {
    m > 0 && c % m == 0 && x <= c < x + m
  }

  lemma CeilToIs(x: int, m: int, c: int)
    requires IsCeil(x, m, c)
    ensures CeilTo(x, m) == c
  {
    assert c == (c / m) * m;
    assert -x == -(c / m) * m + (c - x);
    DivModUnique(-x, m, -(c / m), c - x);
  }

  lemma CeilToIsCeil(x: int, m: int)
    requires m > 0
    ensures IsCeil(x, m, CeilTo(x, m)) && (x % m == 0 ==> CeilTo(x, m) == x)
  {
    var q := -x / m;
    assert -x == q * m + -x % m;
    assert CeilTo(x, m) == -q * m;
    DivModUnique(CeilTo(x, m), m, -q, 0);
    if x % m == 0 {
      CeilToIs(x, m, x);
    }
  }

  lemma AlignCeilIs(v: int, m: int, c: int)
    requires IsCeil(v, m, c) && 0 <= v && v + m <= U64
    ensures AlignCeil(v, m) == c
  {
    DivModUnique(v + m - 1, m, c / m, v + m - 1 - c);
  }

  lemma MultiplesAdd(a: int, b: int, m: int)
    requires m > 0 && a % m == 0
    ensures (a + b) % m == b % m
  {
    assert a == (a / m) * m && b == (b / m) * m + b % m;
    assert a + b == (a / m + b / m) * m + b % m;
    DivModUnique(a + b, m, a / m + b / m, b % m);
  }

  lemma NextMultipleBelow(x: int, m: int, c: int, k: int)
    requires IsCeil(x, m, c) && k % m == 0 && x <= k
    ensures c <= k
  {
    var d := c / m - k / m;
    assert c - k == d * m by {
      assert c == (c / m) * m && k == (k / m) * m;
    }
    MultipleSize(d, m);
  }

  lemma AlignedIs(curr: int, m: int, v: int, c: int)
    requires m > 0 && v == curr % U64 && AlignCeil(v, m) == c
    ensures Aligned(curr, m) == if curr % m != 0 then Int8(c) else curr
  {
  }

  /** What the source has in hand for offset c: c itself, or something negative from 128 on. */
  ghost predicate Stores(offset: int, c: int) {
    (c < 128 && offset == c) || (c >= 128 && -128 <= offset < -64)
  }

  /** An offset below the wrap at 128 is stored as it is, and one that the rounding takes there wraps. */
  lemma AlignedBelowWrap(x: int, m: int, c: int)
    requires 0 <= x < 128 && m <= 32 && IsCeil(x, m, c) && 128 % m == 0 && (x % m == 0 ==> c == x)
    ensures Stores(Aligned(x, m), c)
  {
    AlignCeilIs(x, m, c);
    AlignedIs(x, m, x, c);
    NextMultipleBelow(x, m, c, 128);
  }

  lemma AlignedPastWrap(x: int, m: int, c: int)
    requires 128 <= x < 160 && m <= 32 && IsCeil(x, m, c) && 256 % m == 0 && U64 % m == 0
    ensures Stores(Aligned(x - 256, m), c)
  {
    var y, d := x - 256, c - 256;
    MultiplesAdd(256, d, m);
    MultiplesAdd(256, y, m);
    MultiplesAdd(U64, d, m);
    AlignCeilIs(U64 + y, m, U64 + d);
    AlignedIs(y, m, U64 + y, U64 + d);
    assert Int8(U64 + d) == d;
  }

  lemma Divisors(m: int)
    requires m in {1, 2, 4, 8, 16, 32}
    ensures 0 < m <= 32 && 128 % m == 0 && 256 % m == 0 && U64 % m == 0
  {
  }

  lemma StoredOffset(x: int, m: int, c: int)
    requires 0 <= x < TOTAL_SIZE + MAX_SIZE && m in {1, 2, 4, 8, 16, 32}
    requires IsCeil(x, m, c) && (x % m == 0 ==> c == x)
    ensures Stores(Aligned(Int8(x), m), c)
  {
    Divisors(m);
    if x < 128 {
      AlignedBelowWrap(x, m, c);
    } else {
      AlignedPastWrap(x, m, c);
    }
  }

  lemma NarrowFit(offset: int, c: int, size: int)
    requires Stores(offset, c) && 0 <= c && 1 <= size <= MAX_SIZE
    ensures Fitted(offset, size) == if c + size <= TOTAL_SIZE then c else NO_SPACE
  {
  }

  /** The narrow arithmetic gives the exact result for every end of a placed component and past it. */
  lemma ComputeNextOffsetIsFirstAligned(x: int, size: int)
    requires 0 <= x < TOTAL_SIZE + MAX_SIZE && 1 <= size <= MAX_SIZE
    ensures RoundedSize(size) > 0
    ensures ComputeNextOffset(Int8(x), size) == FirstAligned(x, size, RoundedSize(size))
  {
    RoundedSizes(size);
    var m := RoundedSize(size);
    CeilToIsCeil(x, m);
    StoredOffset(x, m, CeilTo(x, m));
    NarrowFit(Aligned(Int8(x), m), CeilTo(x, m), size);
  }

  /**
   In numbers: the first multiple, from x on, of the power of two from size up to below twice the size, if
   size bytes there end within the first 128; -3 if not.
   */
  lemma NextOffsetInNumbers(x: int, size: int) returns (m: int, c: int)
    requires 0 <= x < 160 && 1 <= size <= 32
    ensures m in {1, 2, 4, 8, 16, 32} && size <= m < 2 * size && c % m == 0 && x <= c < x + m
    ensures ComputeNextOffset(Int8(x), size) == if c + size <= 128 then c else -3
  {
    RoundedSizes(size);
    m := RoundedSize(size);
    c := CeilTo(x, m);
    CeilToIsCeil(x, m);
    ComputeNextOffsetIsFirstAligned(x, size);
  }
}
