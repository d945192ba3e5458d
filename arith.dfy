/** Small facts about multiplication, division and remainder used by the alignment and
  * address-translation proofs. */
module Arith {

  lemma MulNonNegative(x: int, y: int)
    requires x >= 0 && y >= 0
    ensures x * y >= 0
  {
  }

  lemma MulLeRight(x: int, y: int, a: int)
    requires x <= y && a >= 0
    ensures x * a <= y * a
  {
    MulNonNegative(y - x, a);
    assert y * a - x * a == (y - x) * a;
  }

  /** Quotient and remainder are the unique pair with `x == q * a + r` and `0 <= r < a`. */
  lemma DivModUnique(x: int, a: int, q: int, r: int)
    requires a > 0 && 0 <= r < a && x == q * a + r
    ensures q == x / a && r == x % a
  {
    var q0, r0 := x / a, x % a;
    assert x == q0 * a + r0;
    assert (q - q0) * a == r0 - r;
    if q > q0 {
      MulLeRight(1, q - q0, a);
      assert false;
    } else if q < q0 {
      MulLeRight(1, q0 - q, a);
      assert false;
    }
  }

  lemma MultipleMod(k: int, a: int)
    requires a > 0
    ensures (k * a) % a == 0 && (k * a) / a == k
  {
    DivModUnique(k * a, a, k, 0);
  }

  /** Adding a multiple of `a` keeps the remainder and shifts the quotient. */
  lemma AddMultipleMod(x: int, k: int, a: int)
    requires a > 0
    ensures (x + k * a) % a == x % a && (x + k * a) / a == x / a + k
  {
    assert x + k * a == (x / a + k) * a + x % a;
    DivModUnique(x + k * a, a, x / a + k, x % a);
  }

  /** `x - x % a` is the multiple `(x / a) * a`. */
  lemma RoundDown(x: int, a: int)
    requires a > 0
    ensures x - x % a == (x / a) * a && (x - x % a) % a == 0
  {
    MultipleMod(x / a, a);
  }

  /** A multiple of `a` not above `x` is not above `x - x % a`. */
  lemma MultipleBelow(x: int, a: int, m: int)
    requires a > 0 && m % a == 0 && m <= x
    ensures m <= x - x % a
  {
    var q := m / a;
    assert m == q * a;
    RoundDown(x, a);
    if q > x / a {
      MulLeRight(x / a + 1, q, a);
      assert false;
    }
    MulLeRight(q, x / a, a);
  }

  /** A natural number divided by a positive one is a natural number not above it. */
  lemma DivNonNegative(x: int, a: int)
    requires x >= 0 && a > 0
    ensures 0 <= x / a <= x
  {
    if x / a < 0 {
      MulLeRight(x / a, -1, a);
      assert false;
    }
    MulLeRight(1, a, x / a);
  }

  /** Division rounds down: `x / a` is the `q` with `q * a <= x < (q + 1) * a`. */
  lemma DivIsFloor(x: int, a: int, q: int)
    requires a > 0 && q * a <= x < (q + 1) * a
    ensures q == x / a
  {
    DivModUnique(x, a, q, x - q * a);
  }

  /** Division by a positive number is monotone. */
  lemma DivMonotone(x: int, y: int, a: int)
    requires a > 0 && x <= y
    ensures x / a <= y / a
  {
    if x / a > y / a {
      MulLeRight(y / a + 1, x / a, a);
      assert false;
    }
  }

  /** Division by a product is division twice. */
  lemma DivDiv(x: int, a: int, b: int)
    requires x >= 0 && a > 0 && b > 0
    ensures x / (a * b) == (x / a) / b
    ensures x % (a * b) == (x / a) % b * a + x % a
  {
    var q1, r1 := x / a, x % a;
    var q2, r2 := q1 / b, q1 % b;
    assert x == q1 * a + r1;
    assert q1 == q2 * b + r2;
    assert x == q2 * (a * b) + (r2 * a + r1);
    MulLeRight(r2, b - 1, a);
    assert r2 * a + r1 < a * b;
    MulNonNegative(r2, a);
    DivModUnique(x, a * b, q2, r2 * a + r1);
  }

  /** Remainders by a multiple `a * b` determine remainders by `a`. */
  lemma ModOfModMultiple(x: int, a: int, b: int)
    requires x >= 0 && a > 0 && b > 0
    ensures (x % (a * b)) % a == x % a
  {
    DivDiv(x, a, b);
    var r2 := (x / a) % b;
    AddMultipleMod(x % a, r2, a);
    assert x % a % a == x % a by { DivModUnique(x % a, a, 0, x % a); }
  }

  /** `(x + a - 1) - (x + a - 1) % a` is the least multiple of `a` not below `x`. */
  lemma RoundUp(x: int, a: int)
    requires x >= 0 && a > 0
    ensures var r := (x + a - 1) - (x + a - 1) % a;
      r % a == 0 && x <= r < x + a && (x % a == 0 ==> r == x)
  {
    RoundDown(x + a - 1, a);
    if x % a == 0 {
      var k := x / a;
      assert x == k * a;
      DivModUnique(x + a - 1, a, k, a - 1);
    }
  }

  function Pow2(n: nat): (r: nat)
    ensures r >= 1
  {
    if n == 0 then 1 else 2 * Pow2(n - 1)
  }

  /** The value of a little-endian bit sequence. */
  function FromBits(s: seq<bool>): nat {
    if s == [] then 0 else (if s[0] then 1 else 0) + 2 * FromBits(s[1..])
  }

  /** The lowest `n` bits of `x`, least significant first. */
  function ToBits(x: nat, n: nat): (s: seq<bool>)
    ensures |s| == n
  {
    if n == 0 then [] else [x % 2 == 1] + ToBits(x / 2, n - 1)
  }

  /** Reading back the lowest `n` bits gives the number modulo 2^n. */
  lemma {:induction false} FromToBits(x: nat, n: nat)
    ensures FromBits(ToBits(x, n)) == x % Pow2(n)
  {
    if n > 0 {
      FromToBits(x / 2, n - 1);
      assert ToBits(x, n)[1..] == ToBits(x / 2, n - 1);
      DivDiv(x, 2, Pow2(n - 1));
    }
  }

  /** A multiple of 2^m has its bits below `m` clear. */
  lemma {:induction false} ToBitsLowZero(x: nat, n: nat, m: nat, k: nat)
    requires x % Pow2(m) == 0 && k < m && k < n
    ensures !ToBits(x, n)[k]
    decreases k
  {
    DivDiv(x, 2, Pow2(m - 1));
    if k > 0 {
      assert ToBits(x, n)[k] == ToBits(x / 2, n - 1)[k - 1];
      ToBitsLowZero(x / 2, n - 1, m - 1, k - 1);
    }
  }

  /** A number below 2^m has its bits from `m` on clear. */
  lemma {:induction false} ToBitsHighZero(x: nat, n: nat, m: nat, k: nat)
    requires x < Pow2(m) && m <= k < n
    ensures !ToBits(x, n)[k]
    decreases k
  {
    assert ToBits(x, n)[0] == (x % 2 == 1);
    if k > 0 {
      assert ToBits(x, n)[k] == ToBits(x / 2, n - 1)[k - 1];
      ToBitsHighZero(x / 2, n - 1, if m == 0 then 0 else m - 1, k - 1);
    }
  }

  /** A bit sequence clear below `m` holds a multiple of 2^m. */
  lemma {:induction false} FromBitsLowZero(s: seq<bool>, m: nat)
    requires forall k :: 0 <= k < m && k < |s| ==> !s[k]
    ensures FromBits(s) % Pow2(m) == 0
  {
    if m > 0 && s != [] {
      FromBitsLowZero(s[1..], m - 1);
      var q := FromBits(s[1..]) / Pow2(m - 1);
      assert FromBits(s[1..]) == q * Pow2(m - 1) by { RoundDown(FromBits(s[1..]), Pow2(m - 1)); }
      assert FromBits(s) == q * Pow2(m);
      MultipleMod(q, Pow2(m));
    }
  }

  /** A bit sequence clear from `m` on holds a number below 2^m. */
  lemma {:induction false} FromBitsHighZero(s: seq<bool>, m: nat)
    requires forall k :: m <= k < |s| ==> !s[k]
    ensures FromBits(s) < Pow2(m)
  {
    if s != [] {
      FromBitsHighZero(s[1..], if m == 0 then 0 else m - 1);
    }
  }

  /** 2^(a + b) == 2^a * 2^b. */
  lemma {:induction false} Pow2Add(a: nat, b: nat)
    ensures Pow2(a + b) == Pow2(a) * Pow2(b)
  {
    if a > 0 {
      Pow2Add(a - 1, b);
    }
  }

  lemma Pow2Values()
    ensures Pow2(12) == 4096 && Pow2(16) == 0x1_0000
    ensures Pow2(48) == 0x1_0000_0000_0000 && Pow2(64) == 0x1_0000_0000_0000_0000
  {
    assert Pow2(4) == 16;
    assert Pow2(8) == 256;
    assert Pow2(12) == 4096;
    assert Pow2(16) == 0x1_0000;
    Pow2Add(16, 16);
    Pow2Add(32, 16);
    Pow2Add(32, 32);
  }
}
