/** Rust's `i32` and the saturating arithmetic the calculator uses on it.
    Integers are unbounded in Dafny, so the 32-bit range and every clamp
    at its ends are written out here. */
module Saturating {

  const MIN: int := -0x8000_0000
  const MAX: int := 0x7fff_ffff

  /** A value of Rust's `i32`. */
  type Int32 = x: int | MIN <= x <= MAX

  /** A value of Rust's `u8`. */
  type U8 = x: int | 0 <= x < 0x100

  predicate InRange(x: int) {
    MIN <= x <= MAX
  }

  function Abs(x: int): nat {
    if x < 0 then -x else x
  }

  /** How far apart two mathematical integers are. */
  function Dist(x: int, y: int): nat {
    Abs(x - y)
  }

  /** The `i32` nearest to the mathematical integer `x`: what every
      saturating operation returns in place of an overflowing result. */
  function Clamp(x: int): (r: Int32)
    ensures r == x <==> InRange(x)
    ensures x > MAX ==> r == MAX
    ensures x < MIN ==> r == MIN
  {
    if x < MIN then MIN else if x > MAX then MAX else x
  }

  /** No `i32` is closer to `x` than its clamp. */
  lemma ClampNearest(x: int, y: int)
    requires InRange(y)
    ensures Dist(Clamp(x), x) <= Dist(y, x)
  {
  }

  /** Division truncating toward zero, as Rust's `/` on integers.
      (Dafny's own `/` is Euclidean and differs for negative operands.) */
  function TruncDiv(a: int, b: int): (q: int)
    requires b != 0
    ensures Abs(a - q * b) < Abs(b)
    ensures a - q * b == 0 || (a - q * b < 0 <==> a < 0)
    ensures Abs(q) <= Abs(a)
  {
    var m := Abs(a) / Abs(b);
    var q: int := if (a < 0) == (b < 0) then m else -(m as int);
    TruncDivParts(a, b, m, q);
    q
  }

  /** The remainder of the truncated quotient is that of `|a| / |b|`,
      carrying the sign of `a`. */
  lemma TruncDivParts(a: int, b: int, m: nat, q: int)
    requires b != 0 && m == Abs(a) / Abs(b)
    requires q == if (a < 0) == (b < 0) then m else -(m as int)
    ensures 0 <= Abs(a) - m * Abs(b) < Abs(b)
    ensures a - q * b == if a < 0 then -(Abs(a) - m * Abs(b)) else Abs(a) - m * Abs(b)
    ensures Abs(q) <= Abs(a)
  {
    NatDivision(Abs(a), Abs(b));
    var p := m * Abs(b);
    if b < 0 {
      assert m * b == -p;
    } else {
      assert m * b == p;
    }
    assert q * b == if q == m then m * b else -(m * b);
  }

  /** Euclidean division on naturals, as Dafny defines it. */
  lemma NatDivision(n: nat, d: nat)
    requires d > 0
    ensures 0 <= n - (n / d) * d < d
    ensures n / d <= n
  {
    var m := n / d;
    assert m * d <= n;
    assert m <= m * d by { assert m * d == m + m * (d - 1); }
  }

  /** Dividing by at least two at least halves. */
  lemma HalvedQuotient(n: nat, d: nat)
    requires d >= 2
    ensures (n / d) * 2 <= n
  {
    var m := n / d;
    NatDivision(n, d);
    assert m * d == m * 2 + m * (d - 2);
  }

  /** `i32::saturating_add`. */
  function SatAdd(a: Int32, b: Int32): (r: Int32)
    ensures InRange(a + b) ==> r == a + b
    ensures a + b > MAX ==> r == MAX
    ensures a + b < MIN ==> r == MIN
  {
    Clamp(a + b)
  }

  /** `i32::saturating_sub`. */
  function SatSub(a: Int32, b: Int32): (r: Int32)
    ensures InRange(a - b) ==> r == a - b
    ensures a - b > MAX ==> r == MAX
    ensures a - b < MIN ==> r == MIN
  {
    Clamp(a - b)
  }

  /** `i32::saturating_mul`. */
  function SatMul(a: Int32, b: Int32): (r: Int32)
    ensures InRange(a * b) ==> r == a * b
    ensures a * b > MAX ==> r == MAX
    ensures a * b < MIN ==> r == MIN
  {
    Clamp(a * b)
  }

  /** `i32::saturating_div` for a non-zero divisor: the truncated quotient,
      which leaves the `i32` range only for `i32::MIN / -1`. */
  function SatDiv(a: Int32, b: Int32): (r: Int32)
    requires b != 0
    ensures a == MIN && b == -1 ==> r == MAX
    ensures !(a == MIN && b == -1) ==> r == TruncDiv(a, b)
  {
    QuotientInRange(a, b);
    Clamp(TruncDiv(a, b))
  }

  /** The only `i32` quotient that overflows is `i32::MIN / -1`. */
  lemma QuotientInRange(a: Int32, b: Int32)
    requires b != 0
    ensures InRange(TruncDiv(a, b)) <==> !(a == MIN && b == -1)
    ensures a == MIN && b == -1 ==> TruncDiv(a, b) == MAX + 1
  {
    var q := TruncDiv(a, b);
    var m := Abs(a) / Abs(b);
    if b == 1 {
      assert m == Abs(a) / 1 == Abs(a);
      assert q == a;
    } else if b == -1 {
      assert m == Abs(a) / 1 == Abs(a);
      assert q == -(a as int);
    } else {
      HalvedQuotient(Abs(a), Abs(b));
      assert m <= 0x4000_0000;
      assert q == m || q == -m;
    }
  }
}
