/** Signed long-long quotient and remainder on top of the unsigned division, in two's complement of `4*h` bits for any
    half-word width `h`. */
module LongSigned {
  import opened Bits
  import opened Digits
  import opened LongDivide

  /** Two's complement reading of a bit pattern below `m`. */
  function Signed(m: nat, x: nat): int { if x < m / 2 then x else x - m }

  predicate InRange(m: nat, a: int) { -(m / 2) <= a < m - m / 2 }

  function Abs(a: int): nat { if a < 0 then -a else a }

  /** Section 6.5.5 of ISO C99: the quotient is truncated, so the remainder takes the dividend's sign. */
  predicate Truncated(a: int, b: int, q: int, r: int) {
    a == q * b + r && Abs(r) < Abs(b) && (r == 0 || (r < 0 <==> a < 0))
  }

  lemma TruncatedUnique(a: int, b: int, q: int, r: int, q2: int, r2: int)
    requires b != 0 && Truncated(a, b, q, r) && Truncated(a, b, q2, r2)
    ensures q == q2 && r == r2
  {
    assert (q - q2) * b == r2 - r;
    var k, d := q - q2, Abs(b);
    assert Abs(r2 - r) < d;
    if k != 0 { AbsProduct(k, b); }
  }

  lemma AbsProduct(k: int, b: int)
    requires k != 0 && b != 0
    ensures Abs(k * b) >= Abs(b)
  {
    MulGap(Abs(b), k);
    if b < 0 { assert k * b == -(Abs(b) * k); } else { assert k * b == Abs(b) * k; }
  }

  /** Negating an unsigned long long. */
  function Negate(m: nat, x: nat): nat
    requires m > 0
  {
    (0 - x) % m
  }

  lemma NegateIs(m: nat, x: nat)
    requires 0 < m && x < m
    ensures Negate(m, x) == if x == 0 then 0 else m - x
  {
    if x == 0 { DivModUnique(0, m, 0, 0); } else { DivModUnique(0 - x, m, -1, m - x); }
  }

  lemma PatternIs(m: nat, a: int)
    requires m > 0 && m % 2 == 0 && InRange(m, a)
    ensures a % m == if a < 0 then m + a else a
    ensures Signed(m, a % m) == a
  {
    if a < 0 { DivModUnique(a, m, -1, m + a); } else { DivModUnique(a, m, 0, a); }
  }

  /** The magnitude taken by `if (a < 0) ua = -ua` is |a|, also for the most negative value. */
  lemma Magnitude(m: nat, a: int)
    requires m > 0 && m % 2 == 0 && InRange(m, a)
    ensures a % m < m && (if a < 0 then Negate(m, a % m) else a % m) == Abs(a)
  {
    PatternIs(m, a);
    NegateIs(m, a % m);
  }

  /** The sign given to a quotient of magnitudes. */
  function Quotient(a: int, b: int, q: int): int { if (a < 0) != (b < 0) then 0 - q else q }

  function WithSignOf(a: int, r: int): int { if a < 0 then 0 - r else r }

  lemma SignedQuotient(a: int, b: int, q: int)
    requires b != 0 && q * Abs(b) <= Abs(a) < (q + 1) * Abs(b)
    ensures Truncated(a, b, Quotient(a, b, q), WithSignOf(a, Abs(a) - q * Abs(b)))
    ensures 0 <= Abs(a) - q * Abs(b) < Abs(b)
  {
    Distrib(q, 1, Abs(b));
    assert (0 - q) * b == 0 - q * b && q * (0 - b) == 0 - q * b;
  }

  lemma QuotientFits(a: int, b: int, q: nat)
    requires b != 0 && q * Abs(b) <= Abs(a) < (q + 1) * Abs(b)
    ensures q <= Abs(a) && (Abs(b) >= 2 ==> 2 * q <= Abs(a)) && (Abs(b) == 1 ==> q == Abs(a))
  {
    MulMono(1, Abs(b), q);
    if Abs(b) >= 2 { MulMono(2, Abs(b), q); }
  }

  lemma ModulusIsEven(h: nat)
    requires h >= 1
    ensures Pow2(4 * h) > 0 && Pow2(4 * h) % 2 == 0 && Pow2(4 * h) >= 2
  {
  }

  datatype Result = DivideFault | Value(value: int)

  lemma SignedPattern(m: nat, a: int, x: nat)
    requires m > 0 && m % 2 == 0 && x < m && InRange(m, WithSignOf(a, x))
    ensures Signed(m, if a < 0 then Negate(m, x) else x) == WithSignOf(a, x)
  {
    NegateIs(m, x);
  }

  /** __divdi3. The quotient wraps only for the most negative value divided by -1. */
  method Divide(h: nat, a: int, b: int) returns (r: Result)
    requires h >= 1 && InRange(Pow2(4 * h), a) && InRange(Pow2(4 * h), b)
    ensures b == 0 <==> r.DivideFault?
    ensures b != 0 && !(a == -(Pow2(4 * h) / 2) && b == -1) ==> exists rem :: Truncated(a, b, r.value, rem)
    ensures a == -(Pow2(4 * h) / 2) && b == -1 ==> r.value == a
  {
    var m := Pow2(4 * h);
    ModulusIsEven(h);
    var ua, ub, neg := a % m, b % m, false;
    Magnitude(m, a);
    Magnitude(m, b);
    hide Pow2, Truncated;
    if a < 0 { ua, neg := Negate(m, ua), !neg; }
    if b < 0 { ub, neg := Negate(m, ub), !neg; }
    var o := QDivRem(h, ua, ub, false);
    if o.Trap? {
      return DivideFault;
    }
    var uq := o.quotient;
    SignedQuotient(a, b, o.quotient);
    QuotientFits(a, b, o.quotient);
    hide *;
    if neg {
      uq := Negate(m, uq);
    }
    r := Value(Signed(m, uq));
    QuotientPattern(m, a, b, o.quotient);
  }

  lemma QuotientPattern(m: nat, a: int, b: int, q: nat)
    requires m > 0 && m % 2 == 0 && InRange(m, a) && InRange(m, b) && b != 0
    requires q <= Abs(a) && (Abs(b) >= 2 ==> 2 * q <= Abs(a)) && (Abs(b) == 1 ==> q == Abs(a))
    ensures var p := Signed(m, if (a < 0) != (b < 0) then Negate(m, q) else q);
            if a == -(m / 2) && b == -1 then p == a else p == Quotient(a, b, q)
  {
    NegateIs(m, q);
  }

  /** __moddi3. */
  method Modulo(h: nat, a: int, b: int) returns (r: Result)
    requires h >= 1 && InRange(Pow2(4 * h), a) && InRange(Pow2(4 * h), b)
    ensures b == 0 <==> r.DivideFault?
    ensures b != 0 ==> exists q :: Truncated(a, b, q, r.value)
  {
    var m := Pow2(4 * h);
    ModulusIsEven(h);
    var ua, ub := a % m, b % m;
    Magnitude(m, a);
    Magnitude(m, b);
    hide Pow2, Truncated;
    if a < 0 { ua := Negate(m, ua); }
    if b < 0 { ub := Negate(m, ub); }
    var o := QDivRem(h, ua, ub, true);
    if o.Trap? {
      return DivideFault;
    }
    var ur := o.arq.value;
    SignedQuotient(a, b, o.quotient);
    SignedPattern(m, a, ur);
    hide *;
    if a < 0 {
      ur := Negate(m, ur);
    }
    r := Value(Signed(m, ur));
  }
}
