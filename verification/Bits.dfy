/** Powers of two and the bitwise operations of the source, on natural numbers. */
module Bits {

  function Pow2(n: nat): (r: nat)
    ensures r > 0
  {
    if n == 0 then 1 else 2 * Pow2(n - 1)
  }

  lemma Pow2Values()
    ensures Pow2(4) == 16 && Pow2(8) == 256 && Pow2(15) == 32768 && Pow2(16) == 65536
  {
    assert Pow2(4) == 16;
    assert Pow2(8) == 256;
    assert Pow2(12) == 4096;
    assert Pow2(15) == 32768;
  }

  lemma {:induction false} Pow2Monotone(a: nat, b: nat)
    requires a <= b
    ensures Pow2(a) <= Pow2(b)
  {
    if a < b {
      Pow2Monotone(a, b - 1);
    }
  }

  lemma {:induction false} Pow2Adds(a: nat, b: nat)
    ensures Pow2(a + b) == Pow2(a) * Pow2(b)
  {
    if a > 0 {
      Pow2Adds(a - 1, b);
      assert Pow2(a + b) == 2 * (Pow2(a - 1) * Pow2(b));
    }
  }

  /** The bitwise conjunction of two numbers. */
  function And(a: nat, b: nat): (r: nat)
    ensures r <= a && r <= b
    decreases a
  {
    if a == 0 || b == 0 then 0 else 2 * And(a / 2, b / 2) + (if a % 2 == 1 && b % 2 == 1 then 1 else 0)
  }

  lemma {:induction false} AndAllOnes(x: nat, n: nat)
    requires x < Pow2(n)
    ensures And(x, Pow2(n) - 1) == x
  {
    if x != 0 {
      var m := Pow2(n) - 1;
      assert m / 2 == Pow2(n - 1) - 1 && m % 2 == 1;
      AndAllOnes(x / 2, n - 1);
    }
  }

  /** The multiples of a power of two, by halving. */
  lemma ModDouble(x: nat, m: nat)
    requires m > 0
    ensures x % (2 * m) == 2 * ((x / 2) % m) + x % 2
  {
    var q, r := (x / 2) / m, (x / 2) % m;
    assert x == 2 * (q * m + r) + x % 2;
    assert x == q * (2 * m) + (2 * r + x % 2);
    DivModUnique(x, 2 * m, q, 2 * r + x % 2);
  }

  lemma DivModUnique(x: int, m: int, q: int, r: int)
    requires m > 0 && 0 <= r < m
    requires x == q * m + r
    ensures x / m == q && x % m == r
  {
    var d := x / m - q;
    assert x == (x / m) * m + x % m;
    assert d * m == r - x % m by {
      assert (x / m - q) * m == (x / m) * m - q * m;
    }
    MultipleSize(d, m);
  }

  lemma MultipleSize(d: int, m: int)
    requires m > 0
    ensures d >= 1 ==> d * m >= m
    ensures d <= -1 ==> d * m <= -m
  {
    if d >= 1 {
      assert (d - 1) * m >= 0;
    } else if d <= -1 {
      assert (-d - 1) * m >= 0;
    }
  }

  /** Masking with a prefix mask clears the low bits and keeps the others. */
  lemma AndPrefixMask(x: nat, j: nat, n: nat)
    requires j <= n && x < Pow2(n)
    ensures Pow2(j) <= Pow2(n)
    ensures And(x, Pow2(n) - Pow2(j)) == x - x % Pow2(j)
  {
    Pow2Monotone(j, n);
    AndHighBits(x, j, n, Pow2(j), Pow2(n) - Pow2(j));
  }

  lemma {:induction false} AndHighBits(x: nat, j: nat, n: nat, m: nat, mask: nat)
    requires j <= n && x < Pow2(n) && m == Pow2(j) && m + mask == Pow2(n)
    ensures And(x, mask) == x - x % m
  {
    if j == 0 {
      AndAllOnes(x, n);
    } else {
      Pow2Monotone(j - 1, n - 1);
      var h := Pow2(j - 1);
      var mask' := Pow2(n - 1) - h;
      AndHighBits(x / 2, j - 1, n - 1, h, mask');
      AndDouble(x, mask');
      RoundDouble(x, h);
    }
  }

  lemma RoundDouble(x: nat, m: nat)
    requires m > 0
    ensures x - x % (2 * m) == 2 * (x / 2 - (x / 2) % m)
  {
    ModDouble(x, m);
  }

  lemma AndDouble(x: nat, m: nat)
    ensures And(x, 2 * m) == 2 * And(x / 2, m)
  {
    if x != 0 && m != 0 {
      assert (2 * m) / 2 == m && (2 * m) % 2 == 0;
    }
  }

  /** A multiple of a power of two is a multiple of every smaller one. */
  lemma {:induction false} MultipleOfSmaller(x: nat, a: nat, b: nat)
    requires a <= b && x % Pow2(b) == 0
    ensures x % Pow2(a) == 0
  {
    if a < b {
      var h := Pow2(b - 1);
      assert x == (x / (2 * h)) * (2 * h);
      DivModUnique(x, h, 2 * (x / (2 * h)), 0);
      MultipleOfSmaller(x, a, b - 1);
    }
  }

  /** An odd multiple of m, moved up by m, is an even multiple of m. */
  lemma OddMultipleStep(x: nat, m: nat)
    requires m > 0 && x % m == 0 && x % (2 * m) != 0
    ensures (x + m) % (2 * m) == 0
  {
    var q := x / m;
    assert x == q * m;
    if q % 2 == 0 {
      assert q == 2 * (q / 2);
      assert x == (q / 2) * (2 * m);
      DivModUnique(x, 2 * m, q / 2, 0);
    } else {
      assert q + 1 == 2 * ((q + 1) / 2);
      assert x + m == (q + 1) * m;
      assert x + m == ((q + 1) / 2) * (2 * m);
      DivModUnique(x + m, 2 * m, (q + 1) / 2, 0);
    }
  }

  /** Adding one more m to a multiple of m. */
  lemma MultipleStep(x: nat, m: nat)
    requires m > 0 && x % m == 0
    ensures (x + m) % m == 0
  {
    assert x + m == (x / m + 1) * m;
    DivModUnique(x + m, m, x / m + 1, 0);
  }

  /** Inside the aligned block at base, rounding down gives base; outside it does not. */
  lemma AlignedBlock(base: nat, m: nat, p: nat)
    requires m > 0 && base % m == 0
    ensures p - p % m == base <==> base <= p < base + m
  {
    var q := base / m;
    assert base == q * m;
    if base <= p < base + m {
      DivModUnique(p, m, q, p - base);
    }
  }

  /** The gap between two multiples of m is at least m. */
  lemma MultipleBelow(x: nat, n: nat, m: nat)
    requires m > 0 && x % m == 0 && n % m == 0 && x < n
    ensures x + m <= n
  {
    var d := n / m - x / m;
    assert n - x == d * m by {
      assert n == (n / m) * m && x == (x / m) * m;
    }
    MultipleSize(d, m);
  }

  /** Rounding down past a multiple of m. */
  lemma RoundSum(a: nat, x: nat, m: nat)
    requires m > 0 && a % m == 0
    ensures (a + x) - (a + x) % m == a + (x - x % m)
  {
    assert a == (a / m) * m && x == (x / m) * m + x % m;
    assert a + x == (a / m + x / m) * m + x % m;
    DivModUnique(a + x, m, a / m + x / m, x % m);
  }

  /** Rounding down a number in a larger base. */
  lemma RoundScaled(v: nat, x: nat, c: nat, m: nat)
    requires c > 0 && m > 0 && x < c
    ensures (c * v + x) - (c * v + x) % (c * m) == c * (v - v % m)
  {
    var q, r := v / m, v % m;
    assert v == q * m + r;
    assert c * v + x == q * (c * m) + (c * r + x);
    assert c * r + x < c * m by {
      assert r + 1 <= m;
      assert c * (r + 1) <= c * m;
    }
    DivModUnique(c * v + x, c * m, q, c * r + x);
  }

  /** A number with its h low bits cleared. */
  function Rounded(v: nat, h: nat): (r: nat) {
    if h == 0 then v else 2 * Rounded(v / 2, h - 1)
  }

  lemma {:induction false} RoundedIs(v: nat, h: nat)
    ensures Rounded(v, h) == v - v % Pow2(h)
  {
    if h > 0 {
      RoundedIs(v / 2, h - 1);
      RoundDouble(v, Pow2(h - 1));
    }
  }

  lemma {:induction false} RoundedIsMultiple(v: nat, h: nat)
    ensures Rounded(v, h) % Pow2(h) == 0
  {
    if h > 0 {
      RoundedIsMultiple(v / 2, h - 1);
      DoubleMultiple(Rounded(v / 2, h - 1), Pow2(h - 1));
    }
  }

  lemma DoubleMultiple(x: nat, m: nat)
    requires m > 0 && x % m == 0
    ensures (2 * x) % (2 * m) == 0
  {
    assert x == (x / m) * m;
    assert 2 * x == (x / m) * (2 * m);
    DivModUnique(2 * x, 2 * m, x / m, 0);
  }

  /** The bitwise disjunction of two numbers. */
  function Or(a: nat, b: nat): (r: nat)
    ensures r >= a && r >= b
    decreases a + b
  {
    if a == 0 then b else if b == 0 then a
    else 2 * Or(a / 2, b / 2) + (if a % 2 == 1 || b % 2 == 1 then 1 else 0)
  }

  lemma {:induction false} OrBound(a: nat, b: nat, w: nat)
    requires a < Pow2(w) && b < Pow2(w)
    ensures Or(a, b) < Pow2(w)
  {
    if a != 0 && b != 0 {
      OrBound(a / 2, b / 2, w - 1);
    }
  }

  /**
   If the bits of a from c up to w are ones, and those of b from u up to c, then those of their
   disjunction from u up to w are ones.
   */
  lemma {:induction false} OrFills(a: nat, b: nat, w: nat, c: nat, u: nat)
    requires u <= c <= w && a < Pow2(w) && b < Pow2(c)
    requires a + Pow2(c) >= Pow2(w) && b + Pow2(u) >= Pow2(c)
    ensures Or(a, b) + Pow2(u) >= Pow2(w)
  {
    if c > 0 {
      OrFills(a / 2, b / 2, w - 1, c - 1, if u == 0 then 0 else u - 1);
    }
  }

  /** A number shifted right by t bits. */
  function Shr(x: nat, t: nat): (r: nat) {
    if t == 0 then x else Shr(x / 2, t - 1)
  }

  lemma {:induction false} ShrBounds(x: nat, t: nat, u: nat, c: nat)
    requires x < Pow2(c + t) && x + Pow2(u + t) >= Pow2(c + t)
    ensures Shr(x, t) < Pow2(c) && Shr(x, t) + Pow2(u) >= Pow2(c)
  {
    if t > 0 {
      ShrBounds(x / 2, t - 1, u, c);
    }
  }
}
