/** Java `long` arithmetic over Dafny's unbounded integers: the 64-bit range,
    two's-complement wrap-around, and division that rounds toward zero
    (section 15.17.2 of the Java Language Specification), which differs from
    Dafny's Euclidean `/` whenever an operand is negative. */
module JavaLong {

  const LONG_MIN: int := -0x8000_0000_0000_0000
  const LONG_MAX: int := 0x7fff_ffff_ffff_ffff
  /** 2^64, the number of distinct `long` values. */
  const LONG_MODULUS: int := 0x1_0000_0000_0000_0000

  predicate InLong(x: int) {
    LONG_MIN <= x <= LONG_MAX
  }

  function Abs(x: int): nat {
    if x < 0 then -x else x
  }

  /** The `long` that a mathematical integer wraps to: its residue modulo 2^64
      taken in the signed range. */
  function Wrap(x: int): (r: int)
    ensures InLong(r)
    ensures (r - x) % LONG_MODULUS == 0
    ensures InLong(x) ==> r == x
  {
    (x - LONG_MIN) % LONG_MODULUS + LONG_MIN
  }

  /** Integer division rounding toward zero, before any overflow: the
      magnitude of the quotient is the largest that fits in the dividend's,
      and a non-zero quotient is positive exactly when the operands have the
      same sign. */
  function TruncDiv(a: int, b: int): (q: int)
    requires b != 0
    ensures Abs(q) * Abs(b) <= Abs(a) < (Abs(q) + 1) * Abs(b)
    ensures q != 0 ==> ((q > 0) <==> ((a > 0) == (b > 0)))
  {
    var m := NatDiv(Abs(a), Abs(b));
    var q: int := if (a < 0) == (b < 0) then m else -(m as int);
    SignedQuotient(a, b, m, q);
    q
  }

  /** Giving the quotient magnitude m the operands' combined sign yields the
      truncated quotient. */
  lemma SignedQuotient(a: int, b: int, m: nat, q: int)
    requires b != 0 && m * Abs(b) <= Abs(a) < (m + 1) * Abs(b)
    requires q == if (a < 0) == (b < 0) then m else -(m as int)
    ensures Abs(q) * Abs(b) <= Abs(a) < (Abs(q) + 1) * Abs(b)
    ensures q != 0 ==> ((q > 0) <==> ((a > 0) == (b > 0)))
  {
    assert Abs(q) == m;
    if m != 0 {
      MulMonotone(1, m, Abs(b));
    }
  }

  /** Euclidean division of naturals, with the bounds that characterise it. */
  function NatDiv(x: nat, d: nat): (m: nat)
    requires d > 0
    ensures m * d <= x < (m + 1) * d
  {
    x / d
  }

  /** Schoolbook division: how many whole times d fits into x, counted by
      repeated subtraction. An independent definition of the magnitude of a
      Java quotient. */
  function FitCount(x: nat, d: nat): (m: nat)
    requires d > 0
    ensures m * d <= x < (m + 1) * d
    decreases x
  {
    if x < d then 0 else 1 + FitCount(x - d, d)
  }

  /** The quotient magnitude TruncDiv uses is the schoolbook count. */
  lemma NatDivIsFitCount(x: nat, d: nat)
    requires d > 0
    ensures NatDiv(x, d) == FitCount(x, d)
  {
    QuotientUnique(x, d, FitCount(x, d));
  }

  /** For non-negative x and positive d, the only n with n*d <= x < (n+1)*d
      is x / d. */
  lemma QuotientUnique(x: nat, d: nat, n: nat)
    requires d > 0
    requires n * d <= x < (n + 1) * d
    ensures n == x / d
  {
    var m := NatDiv(x, d);
    if n < m {
      MulMonotone(n + 1, m, d);
    } else if m < n {
      MulMonotone(m + 1, n, d);
    }
  }

  lemma MulMonotone(i: nat, j: nat, d: nat)
    requires i <= j
    ensures i * d <= j * d
  {
  }

  /** The two properties in TruncDiv's contract determine the quotient. */
  lemma {:induction false} TruncDivUnique(a: int, b: int, q: int)
    requires b != 0
    requires Abs(q) * Abs(b) <= Abs(a) < (Abs(q) + 1) * Abs(b)
    requires q != 0 ==> ((q > 0) <==> ((a > 0) == (b > 0)))
    ensures q == TruncDiv(a, b)
  {
    QuotientUnique(Abs(a), Abs(b), Abs(q));
  }

  /** Java's `long / long` for a non-zero divisor: the truncated quotient,
      except that LONG_MIN / -1 overflows and yields the dividend. */
  function LongDiv(a: int, b: int): (q: int)
    requires InLong(a) && InLong(b) && b != 0
    ensures InLong(q)
    ensures a == LONG_MIN && b == -1 ==> q == LONG_MIN
    ensures !(a == LONG_MIN && b == -1) ==> q == TruncDiv(a, b)
  {
    var t := TruncDiv(a, b);
    QuotientBound(a, b, t);
    Wrap(t)
  }

  /** A truncated quotient of longs is a long, unless it is LONG_MIN / -1. */
  lemma QuotientBound(a: int, b: int, t: int)
    requires InLong(a) && InLong(b) && b != 0
    requires t == TruncDiv(a, b)
    ensures a == LONG_MIN && b == -1 ==> t == -LONG_MIN
    ensures !(a == LONG_MIN && b == -1) ==> InLong(t)
  {
    MulMonotone(1, Abs(b), Abs(t));
    assert Abs(t) <= Abs(a);
    if Abs(t) == -LONG_MIN {
      assert Abs(a) == -LONG_MIN && a == LONG_MIN;
    }
  }

  /** The quotient of the `-1` sentinel: zero for every divisor of magnitude
      above one, and the sign flip of the divisor otherwise. */
  lemma {:induction false} MinusOneQuotient(b: int)
    requires InLong(b) && b != 0
    ensures LongDiv(-1, b) == (if b == 1 then -1 else if b == -1 then 1 else 0)
  {
    var q := LongDiv(-1, b);
    if Abs(q) != 0 {
      MulMonotone(1, Abs(q), Abs(b));
    }
  }
}
