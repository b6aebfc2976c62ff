/**
  Share amounts are decoded as 64-bit binary floats and printed with no decimals, so an
  amount reaches the ledger rounded to 53 significant bits, ties to even
  (section 4.3.1 of IEEE 754-2019). A uint256 never overflows that format.
*/
module Rounding {

  const P52: nat := 0x10_0000_0000_0000
  const P53: nat := 0x20_0000_0000_0000

  function Pow2(e: nat): (p: nat)
    ensures p >= 1
  {
    if e == 0 then 1 else 2 * Pow2(e - 1)
  }

  /** How many low bits do not fit in a 53-bit significand. */
  function Exponent(n: nat): nat {
    if n < P53 then 0 else 1 + Exponent(n / 2)
  }

  function Unit(n: nat): (u: nat)
    ensures u >= 1
  {
    Pow2(Exponent(n))
  }

  /** The integer a decoder keeps of n. */
  function RoundToFloat64(n: nat): nat {
    var u := Unit(n);
    var q, r := n / u, n % u;
    if 2 * r < u || (2 * r == u && q % 2 == 0) then q * u else (q + 1) * u
  }

  function Distance(a: int, b: int): (d: nat)
    ensures d == a - b || d == b - a
  {
    if a <= b then b - a else a - b
  }

  /** The integers a 64-bit binary float can hold: at most 53 significant bits. */
  ghost predicate Representable(x: nat) {
    exists q: nat, e: nat :: q < P53 && IsScaled(x, q, e)
  }

  ghost predicate IsScaled(x: nat, q: nat, e: nat) {
    x == q * Pow2(e)
  }

  lemma {:induction false} ExponentBounds(n: nat)
    ensures n < P53 * Unit(n)
    ensures Exponent(n) > 0 ==> P52 * Unit(n) <= n
  {
    if n >= P53 {
      ExponentBounds(n / 2);
    }
  }

  lemma MulLe(a: int, b: int, u: nat)
    requires a <= b
    ensures a * u <= b * u
  {
  }

  lemma {:induction false} Pow2Monotone(a: nat, b: nat)
    requires a <= b
    ensures Pow2(a) <= Pow2(b)
    ensures exists k: nat :: Pow2(b) == k * Pow2(a)
  {
    if a == b {
      assert Pow2(b) == 1 * Pow2(a);
    } else {
      Pow2Monotone(a, b - 1);
      var k: nat :| Pow2(b - 1) == k * Pow2(a);
      assert Pow2(b) == (2 * k) * Pow2(a);
    }
  }

  /** n lies between two neighbouring multiples of its unit and the result is one of them. */
  lemma Neighbours(n: nat) returns (q: nat)
    ensures q == n / Unit(n)
    ensures q * Unit(n) <= n < (q + 1) * Unit(n)
    ensures RoundToFloat64(n) in {q * Unit(n), (q + 1) * Unit(n)}
    ensures 2 * Distance(RoundToFloat64(n), n) <= Unit(n)
    ensures Distance(RoundToFloat64(n), n) <= n - q * Unit(n)
    ensures Distance(RoundToFloat64(n), n) <= (q + 1) * Unit(n) - n
    ensures q <= P53 - 1
    ensures Exponent(n) > 0 ==> q >= P52
  {
    var u := Unit(n);
    q := n / u;
    assert n == q * u + n % u;
    assert (q + 1) * u == q * u + u;
    ExponentBounds(n);
    if q >= P53 { MulLe(P53, q, u); assert false; }
    if Exponent(n) > 0 && q + 1 <= P52 { MulLe(q + 1, P52, u); assert false; }
  }

  /** Amounts up to 2^53 go through unchanged. */
  lemma RoundIsIdentity(n: nat)
    requires n <= P53
    ensures RoundToFloat64(n) == n
  {
    if n == P53 {
      assert Exponent(P53) == 1 by { assert Exponent(P52) == 0; }
      assert Pow2(1) == 2;
    }
  }

  /** The relative error of one rounding is at most 2^-53. */
  lemma RoundError(n: nat)
    ensures Distance(RoundToFloat64(n), n) * P53 <= n
  {
    var q := Neighbours(n);
    ExponentBounds(n);
  }

  /** A multiple of the unit is never between the two neighbours of n. */
  lemma MultipleIsOutside(n: nat, m: int)
    ensures Distance(RoundToFloat64(n), n) <= Distance(m * Unit(n), n)
  {
    var q := Neighbours(n);
    if m <= q { MulLe(m, q, Unit(n)); } else { MulLe(q + 1, m, Unit(n)); }
  }

  /** A representable number with a smaller exponent lies below the whole binade of n. */
  lemma SmallerBinade(n: nat, p: nat, f: nat)
    requires p < P53 && f < Exponent(n)
    ensures Distance(RoundToFloat64(n), n) <= Distance(p * Pow2(f), n)
  {
    var q := Neighbours(n);
    var low := Pow2(Exponent(n) - 1);
    Pow2Monotone(f, Exponent(n) - 1);
    MulLe(p, P53, Pow2(f));
    assert p * Pow2(f) <= P53 * Pow2(f) <= P53 * low == P52 * Unit(n);
    MulLe(P52, q, Unit(n));
  }

  lemma Associates(a: int, b: int, c: int)
    ensures a * (b * c) == (a * b) * c
  {
  }

  /** No representable integer is closer to n than the result. */
  lemma RoundIsNearest(n: nat, x: nat)
    requires Representable(x)
    ensures Distance(RoundToFloat64(n), n) <= Distance(x, n)
  {
    var p: nat, f: nat :| p < P53 && IsScaled(x, p, f);
    if f < Exponent(n) {
      SmallerBinade(n, p, f);
    } else {
      Pow2Monotone(Exponent(n), f);
      var k: nat :| Pow2(f) == k * Pow2(Exponent(n));
      Associates(p, k, Unit(n));
      MultipleIsOutside(n, p * k);
    }
  }

  /** An exact tie goes to the even significand. */
  lemma TiesGoToEven(n: nat)
    requires 2 * (n % Unit(n)) == Unit(n)
    ensures exists m: nat :: RoundToFloat64(n) == 2 * m * Unit(n)
  {
    var q := n / Unit(n);
    var half := if q % 2 == 0 then q / 2 else (q + 1) / 2;
    assert RoundToFloat64(n) == 2 * half * Unit(n);
  }

  lemma RoundIsRepresentable(n: nat)
    ensures Representable(RoundToFloat64(n))
  {
    var q := Neighbours(n);
    if RoundToFloat64(n) == q * Unit(n) {
      assert IsScaled(RoundToFloat64(n), q, Exponent(n));
    } else if q + 1 < P53 {
      assert IsScaled(RoundToFloat64(n), q + 1, Exponent(n));
    } else {
      assert Pow2(Exponent(n) + 1) == 2 * Unit(n);
      assert IsScaled(RoundToFloat64(n), P52, Exponent(n) + 1);
    }
  }

  lemma {:induction false} ExponentMonotone(a: nat, b: nat)
    requires a <= b
    ensures Exponent(a) <= Exponent(b)
  {
    if a >= P53 {
      ExponentMonotone(a / 2, b / 2);
    }
  }

  /** Every number of a higher binade rounds to a larger result. */
  lemma HigherBinade(a: nat, b: nat)
    requires Exponent(a) < Exponent(b)
    ensures RoundToFloat64(a) <= RoundToFloat64(b)
  {
    hide Exponent, RoundToFloat64;
    var p := Neighbours(a);
    var q := Neighbours(b);
    var u, v := Unit(a), Unit(b);
    var low := Pow2(Exponent(b) - 1);
    Pow2Monotone(Exponent(a), Exponent(b) - 1);
    assert v == 2 * low;
    MulLe(p, p + 1, u);
    MulLe(p + 1, P53, u);
    MulLe(P52, q, v);
    MulLe(q, q + 1, v);
    assert P53 * u <= P53 * low == P52 * v;
  }

  lemma RoundIsMonotone(a: nat, b: nat)
    requires a <= b
    ensures RoundToFloat64(a) <= RoundToFloat64(b)
  {
    ExponentMonotone(a, b);
    if Exponent(a) < Exponent(b) {
      HigherBinade(a, b);
    } else {
      hide Exponent, Pow2;
      var p := Neighbours(a);
      var q := Neighbours(b);
      if p > q { MulLe(q + 1, p, Unit(a)); assert false; }
      if p < q { MulLe(p + 1, q, Unit(a)); }
    }
  }

  /** The first integer that a 64-bit binary float cannot hold is 2^53 + 1; it becomes 2^53. */
  lemma WhereRoundingStarts(n: nat)
    requires n <= 9007199254740993
    ensures RoundToFloat64(n) == if n == 9007199254740993 then 9007199254740992 else n
  {
    if n <= 9007199254740992 {
      RoundIsIdentity(n);
    } else {
      assert Exponent(n) == 1 by { assert Exponent(n / 2) == 0; }
      assert Pow2(1) == 2;
    }
  }
}
