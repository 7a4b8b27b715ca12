/** C/Arduino integer semantics that the stepper code relies on: 32-bit
    `unsigned long` arithmetic for timestamps and delays, and integer
    division that truncates toward zero. */
module Arith {

  const TwoPow32: int := 0x1_0000_0000

  /** Arduino `unsigned long`: 32 bits, arithmetic modulo 2^32. */
  type ULong = x: int | 0 <= x < 0x1_0000_0000

  /** C `abs` on an `int`. */
  function Abs(x: int): (r: nat)
    ensures r == x || r == -x
  {
    if x < 0 then -x else x
  }

  /** The unsigned difference `now - last` of two `unsigned long` values:
      the true difference when the clock has not wrapped, and the
      difference plus 2^32 when it has. */
  function Elapsed(now: ULong, last: ULong): ULong
  {
    if now >= last then now - last else now - last + TwoPow32
  }

  /** `Elapsed` is subtraction modulo 2^32, as C computes it on
      `unsigned long`; in particular a reading 2^32 - 1 before `last`
      counts as one microsecond later, not a negative delay. */
  lemma ElapsedModulo(now: ULong, last: ULong)
    ensures Elapsed(now, last) == (now - last) % TwoPow32
    ensures Elapsed(now, last) == 0 <==> now == last
  {
    if now >= last {
      DivUnique(now - last, TwoPow32, 0);
    } else {
      DivUnique(now - last, TwoPow32, -1);
    }
  }

  /** Reduction of a signed value to `unsigned long`, as C does on
      assignment: the unique representative modulo 2^32. */
  function ToULong(x: int): (r: ULong)
    ensures 0 <= x < TwoPow32 ==> r == x
    ensures -TwoPow32 <= x < 0 ==> r == x + TwoPow32
  {
    x % TwoPow32
  }

  /** C division `a / b`: the quotient truncated toward zero, so that the
      remainder `a - q * b` is smaller than `b` in magnitude and has the
      sign of `a` (ISO C, section 6.5.5). */
  function TruncDiv(a: int, b: int): (q: int)
    requires b != 0
    ensures Abs(a - q * b) < Abs(b)
    ensures a - q * b == 0 || (a - q * b > 0 <==> a > 0)
  {
    var q := if a >= 0 && b > 0 then a / b
             else if a >= 0 then -(a / -b)
             else if b > 0 then -(-a / b)
             else -a / -b;
    TruncatedRemainder(a, b, q);
    q
  }

  /** The truncating quotient, case by case on the signs, leaves a
      remainder smaller than the divisor with the sign of the dividend. */
  lemma TruncatedRemainder(a: int, b: int, q: int)
    requires b != 0
    requires q == if a >= 0 && b > 0 then a / b
                 else if a >= 0 then -(a / -b)
                 else if b > 0 then -(-a / b)
                 else -a / -b
    ensures Abs(a - q * b) < Abs(b)
    ensures a - q * b == 0 || (a - q * b > 0 <==> a > 0)
  {
    var n: int := if a >= 0 then a else -a;
    var d: int := if b > 0 then b else -b;
    var p: int := n / d;
    DivBounds(n, d);
    var r := n - p * d;
    if a == 0 {
      DivUnique(0, d, 0);
      assert r == 0;
    }
    // q is p or -p and a, b are n, d up to sign, so a - q * b is r with the sign of a.
    if a >= 0 && b > 0 {
      assert a - q * b == r;
    } else if a >= 0 {
      assert q * b == p * d;
      assert a - q * b == r;
    } else if b > 0 {
      assert q * b == -(p * d);
      assert a - q * b == -r;
    } else {
      assert q * b == -(p * d);
      assert a - q * b == -r;
    }
  }

  /** Euclidean division by a positive divisor brackets the dividend
      between two consecutive multiples of the divisor. */
  lemma DivBounds(a: int, d: int)
    requires d > 0
    ensures (a / d) * d <= a < (a / d) * d + d
    ensures a < (a / d + 1) * d
  {
    assert a == (a / d) * d + a % d;
    assert (a / d + 1) * d == (a / d) * d + d;
  }

  /** On non-negative operands C division agrees with Dafny's. */
  lemma TruncDivNonNegative(a: int, b: int)
    requires a >= 0 && b > 0
    ensures TruncDiv(a, b) == a / b
  {
  }

  /** A product of a factor of at least one and a positive factor is at
      least the positive factor. */
  lemma MulAtLeast(x: int, d: int)
    requires x >= 1 && d > 0
    ensures x * d >= d
  {
    assert x * d == (x - 1) * d + d;
  }

  /** A quotient is unique: any q with remainder in [0, d) is a / d, and
      that remainder is a % d. */
  lemma DivUnique(a: int, d: int, q: int)
    requires d > 0
    requires q * d <= a < q * d + d
    ensures a / d == q
    ensures a % d == a - q * d
  {
    var q0, r0 := a / d, a % d;
    var r := a - q * d;
    assert (q0 - q) * d == r - r0 by {
      assert a == q0 * d + r0;
      assert (q0 - q) * d == q0 * d - q * d;
    }
    if q0 > q {
      MulAtLeast(q0 - q, d);
    } else if q0 < q {
      MulAtLeast(q - q0, d);
    }
  }

  /** A multiple of a non-zero divisor, positive or negative, divides
      back exactly under Euclidean division. */
  lemma MultipleDiv(q: int, m: int)
    requires m != 0
    ensures (q * m) / m == q && (q * m) % m == 0
  {
    if m > 0 {
      DivUnique(q * m, m, q);
    } else {
      var p, r := (q * m) / m, (q * m) % m;
      assert q * m == p * m + r && 0 <= r < -m;
      assert (q - p) * (-m) == -r by {
        assert (q - p) * m == r;
      }
      if q - p >= 1 {
        MulAtLeast(q - p, -m);
      } else if q - p <= -1 {
        MulAtLeast(p - q, -m);
      }
    }
  }

  /** Writing a with the inner quotient expanded: the two-step remainder
      is r2 * b + r1. */
  lemma DivDivExpand(a: int, b: int, c: int, q1: int, r1: int, q2: int, r2: int)
    requires a == q1 * b + r1 && q1 == q2 * c + r2
    ensures a == q2 * (b * c) + (r2 * b + r1)
  {
    assert q1 * b == (q2 * c + r2) * b;
    assert (q2 * c + r2) * b == q2 * c * b + r2 * b;
    assert q2 * c * b == q2 * (b * c);
  }

  /** The two-step remainder stays below b * c. */
  lemma DivDivBound(b: int, c: int, r1: int, r2: int)
    requires b > 0 && c > 0 && 0 <= r1 < b && 0 <= r2 < c
    ensures 0 <= r2 * b + r1 < b * c
  {
    assert (c - 1 - r2) * b >= 0;
    assert (c - 1 - r2) * b == b * c - b - r2 * b;
    assert r2 * b >= 0;
  }

  /** Dividing twice in a row equals dividing once by the product. */
  lemma DivDiv(a: int, b: int, c: int)
    requires a >= 0 && b > 0 && c > 0
    ensures a / b / c == a / (b * c)
  {
    var q1, r1 := a / b, a % b;
    var q2, r2 := q1 / c, q1 % c;
    DivDivExpand(a, b, c, q1, r1, q2, r2);
    DivDivBound(b, c, r1, r2);
    DivUnique(a, b * c, q2);
  }
}
