/** The C integer semantics the arithmetic module relies on: the `int32_t`
    type of <stdint.h> as a range of mathematical integers, and the quotient
    of C's `/` operator, which truncates toward zero (section 6.5.5 of
    ISO/IEC 9899:2011) where Dafny's `/` is Euclidean.

    Signed overflow is undefined behaviour in C, so nothing here wraps:
    an operation whose exact result leaves the range is excluded by its
    caller's precondition or reported as an error. */
module CInt {

  /** `int32_t`: two's-complement 32-bit signed integers, as exact values. */
  newtype int32 = x: int | -0x8000_0000 <= x < 0x8000_0000

  /** INT32_MIN and INT32_MAX of <stdint.h>. */
  const MinInt32: int32 := -0x8000_0000
  const MaxInt32: int32 := 0x7fff_ffff

  /** True iff the exact value `x` is representable as an `int32_t`. */
  predicate InRange(x: int) {
    MinInt32 as int <= x <= MaxInt32 as int
  }

  function Abs(x: int): (r: nat)
    ensures r == x || r == -x
  {
    if x < 0 then -x else x
  }

  /** The quotient of C's `a / b`: the algebraic quotient with any
      fractional part discarded. Computed from Dafny's `/` on the
      magnitudes, where Euclidean and truncating division agree. */
  function TruncDiv(a: int, b: int): int
    requires b != 0
  {
    var q := Abs(a) / Abs(b);
    if (a < 0) == (b < 0) then q else -q
  }

  /** The reference definition of C's quotient (section 6.5.5 of
      ISO/IEC 9899:2011): `q * b + r == a` where the remainder `r` is smaller
      than the divisor in magnitude and is zero or has the dividend's sign. */
  predicate IsTruncQuotient(a: int, b: int, q: int)
    requires b != 0
  {
    var r := a - q * b;
    Abs(r) < Abs(b) && (r == 0 || (r < 0) == (a < 0))
  }

  /** Multiplying by a non-zero integer never shrinks a magnitude. */
  lemma {:induction false} MulAbsAtLeast(k: int, b: int)
    requires k != 0
    ensures Abs(k * b) >= Abs(b)
  {
    var j: int := Abs(k);
    assert j >= 1;
    assert Abs(k * b) == j * Abs(b) by {
      if k < 0 { assert k * b == -(j * b); } else { assert k * b == j * b; }
      if b < 0 { assert j * b == -(j * Abs(b)); } else { assert j * b == j * Abs(b); }
    }
    assert j * Abs(b) == (j - 1) * Abs(b) + Abs(b);
    assert (j - 1) * Abs(b) >= 0;
  }

  /** The only multiple of `b` smaller than `b` in magnitude is zero. */
  lemma SmallMultipleIsZero(e: int, b: int, x: int)
    requires x == e * b && Abs(x) < Abs(b)
    ensures e == 0
  {
    if e != 0 {
      MulAbsAtLeast(e, b);
    }
  }

  /** Sign rules of multiplication. */
  lemma MulNeg(x: int, y: int)
    ensures (-x) * y == -(x * y) && x * (-y) == -(x * y) && (-x) * (-y) == x * y
  {
  }

  /** Euclidean division of a natural number by a positive one. */
  lemma DivModNat(n: nat, d: int)
    requires d > 0
    ensures n == (n / d) * d + n % d && 0 <= n % d < d && n / d >= 0
  {
  }

  /** TruncDiv meets the reference definition, and the magnitude of the
      quotient times that of the divisor never exceeds the dividend's. */
  lemma {:induction false} TruncDivIsTruncQuotient(a: int, b: int)
    requires b != 0
    ensures IsTruncQuotient(a, b, TruncDiv(a, b))
    ensures Abs(TruncDiv(a, b)) * Abs(b) <= Abs(a)
  {
    var n: int, d: int := Abs(a), Abs(b);
    var m: int, s: int := n / d, n % d;
    DivModNat(n, d);
    var q := TruncDiv(a, b);
    MulNeg(m, d);
    if a >= 0 && b > 0 {
      assert q == m && b == d;
      assert a - q * b == s;
    } else if a >= 0 {
      assert q == -m && b == -d;
      assert a - q * b == s;
    } else if b > 0 {
      assert q == -m && b == d;
      assert a - q * b == -s;
    } else {
      assert q == m && b == -d;
      assert a - q * b == -s;
    }
    assert Abs(q) == m;
  }

  /** C's quotient is unique: any quotient meeting the reference
      definition is TruncDiv, and TruncDiv meets it. */
  lemma {:induction false} TruncQuotientUnique(a: int, b: int, q: int)
    requires b != 0
    ensures IsTruncQuotient(a, b, q) <==> q == TruncDiv(a, b)
  {
    var q0 := TruncDiv(a, b);
    TruncDivIsTruncQuotient(a, b);
    if IsTruncQuotient(a, b, q) {
      var r: int, r0: int := a - q * b, a - q0 * b;
      MulSub(q, q0, b);
      SmallMultipleIsZero(q - q0, b, r0 - r);
    }
  }

  /** Multiplication distributes over subtraction. */
  lemma MulSub(x: int, y: int, z: int)
    ensures x * z - y * z == (x - y) * z
  {
  }

  /** Multiplying by a natural number is monotonic. */
  lemma MulMonotone(x: nat, y: int, z: int)
    requires y <= z
    ensures x * y <= x * z
  {
  }

  /** The exact quotient of two `int32_t` values is representable in every
      case but one: INT32_MIN / -1, whose exact value is 2^31. */
  lemma {:induction false} TruncDivInRange(a: int32, b: int32)
    requires b != 0
    ensures InRange(TruncDiv(a as int, b as int)) <==> !(a == MinInt32 && b == -1)
  {
    var q := TruncDiv(a as int, b as int);
    var n: int, d: int := Abs(a as int), Abs(b as int);
    if a == MinInt32 && b == -1 {
      assert q == 0x8000_0000;
    } else if d == 1 {
      assert Abs(q) == n;
    } else {
      TruncDivIsTruncQuotient(a as int, b as int);
      MulMonotone(Abs(q), 2, d);
      assert Abs(q) * 2 <= n;
    }
  }
}
