/** Base-`b` digit strings, most significant digit first, and half-word operations
    on machine words below `b*b` (HHALF, LHALF, LHUP and COMBINE of the millicode). */
module Digits {
  import opened Bits

  function Val(b: nat, s: seq<nat>): nat {
    if s == [] then 0 else s[0] * Pow(b, |s| - 1) + Val(b, s[1..])
  }

  predicate Small(b: nat, s: seq<nat>) {
    forall i :: 0 <= i < |s| ==> s[i] < b
  }

  // Plain arithmetic used below, kept apart from the recursive definitions.

  lemma Distrib(x: int, y: int, q: int)
    ensures (x + y) * q == x * q + y * q
    ensures (x - y) * q == x * q - y * q
  {
  }

  lemma MulMono(x: int, y: int, q: int)
    requires x <= y && q >= 0
    ensures x * q <= y * q
  {
  }

  lemma MulLess(x: int, y: int, q: int)
    requires x * q < y * q && q > 0
    ensures x < y
  {
  }

  lemma TwoDigitBound(b: int, hi: int, lo: int)
    requires 0 <= hi < b && 0 <= lo < b
    ensures 0 <= hi * b + lo < b * b
  {
    MulMono(0, hi, b);
    MulMono(hi, b - 1, b);
    Distrib(b, 1, b);
  }

  lemma ValOne(b: nat, x: nat)
    ensures Val(b, [x]) == x
  {
    assert [x][1..] == [];
    assert Pow(b, 0) == 1;
  }

  lemma ValCons(b: nat, x: nat, s: seq<nat>)
    ensures Val(b, [x] + s) == x * Pow(b, |s|) + Val(b, s)
  {
    assert ([x] + s)[1..] == s;
  }

  lemma {:induction false} ValConcat(b: nat, s: seq<nat>, t: seq<nat>)
    ensures Val(b, s + t) == Val(b, s) * Pow(b, |t|) + Val(b, t)
  {
    if s == [] {
      assert s + t == t;
    } else {
      assert (s + t)[1..] == s[1..] + t;
      ValConcat(b, s[1..], t);
      var x, p, q := s[0], Pow(b, |s| - 1), Pow(b, |t|);
      assert Pow(b, |s + t| - 1) == p * q by { PowAdd(b, |s| - 1, |t|); }
      MulAssoc(x, p, q);
      Distrib(x * p, Val(b, s[1..]), q);
    }
  }

  lemma ValAppend(b: nat, s: seq<nat>, x: nat)
    ensures Val(b, s + [x]) == Val(b, s) * b + x
  {
    ValConcat(b, s, [x]);
    ValOne(b, x);
    assert Pow(b, 1) == b * Pow(b, 0) == b;
  }

  lemma {:induction false} ValBound(b: nat, s: seq<nat>)
    requires b >= 1 && Small(b, s)
    ensures Val(b, s) < Pow(b, |s|)
  {
    if s != [] {
      ValBound(b, s[1..]);
      var p := Pow(b, |s| - 1);
      MulMono(s[0], b - 1, p);
      Distrib(b, 1, p);
    }
  }

  lemma {:induction false} ValZeros(b: nat, s: seq<nat>)
    requires forall i :: 0 <= i < |s| ==> s[i] == 0
    ensures Val(b, s) == 0
  {
    if s != [] { ValZeros(b, s[1..]); }
  }

  lemma ValTop(b: nat, s: seq<nat>)
    requires b >= 1 && s != [] && s[0] != 0
    ensures Val(b, s) >= Pow(b, |s| - 1)
  {
    MulMono(1, s[0], Pow(b, |s| - 1));
  }

  lemma ValHeadZero(b: nat, s: seq<nat>)
    requires b >= 1 && s != [] && Val(b, s) < Pow(b, |s| - 1)
    ensures s[0] == 0 && Val(b, s) == Val(b, s[1..])
  {
    if s[0] != 0 { ValTop(b, s); }
  }

  function HHalf(b: nat, x: nat): nat
    requires b > 0
  {
    x / b
  }

  function LHalf(b: nat, x: nat): nat
    requires b > 0
  {
    x % b
  }

  function Wrap(b: nat, x: int): nat
    requires b > 0
  {
    x % (b * b)
  }

  function LHup(b: nat, x: nat): nat
    requires b > 0
  {
    Wrap(b, x * b)
  }

  function Combine(b: nat, hi: nat, lo: nat): nat
    requires b > 0
  {
    Wrap(b, hi * b) + lo
  }

  /** The arithmetic forms above are the shifts, masks and ors of the C macros. */
  lemma HalfWordOps(h: nat, x: nat, hi: nat, lo: nat)
    requires lo < Pow2(h)
    ensures Shr(x, h) == HHalf(Pow2(h), x) && Wrap(Pow2(h), Shl(x, h)) == LHup(Pow2(h), x)
    ensures And(x, Pow2(h) - 1) == LHalf(Pow2(h), x)
    ensures Or(Wrap(Pow2(h), Shl(hi, h)), lo) == Combine(Pow2(h), hi, lo)
  {
    ShrIsDiv(x, h);
    ShlIsTimes(x, h);
    ShlIsTimes(hi, h);
    HalfWordMasks(h, x, hi, lo);
  }

  lemma HalfWordMasks(h: nat, x: nat, hi: nat, lo: nat)
    requires lo < Pow2(h)
    ensures And(x, Pow2(h) - 1) == LHalf(Pow2(h), x)
    ensures Or(Wrap(Pow2(h), hi * Pow2(h)), lo) == Combine(Pow2(h), hi, lo)
  {
    hide Pow2, And, Or;
    AndMask(x, h);
    WrapShift(Pow2(h), hi);
    OrIsSum(hi % Pow2(h), lo, h);
  }

  lemma WrapShift(b: nat, hi: nat)
    requires b > 0
    ensures Wrap(b, hi * b) == (hi % b) * b
  {
    var q, r := hi / b, hi % b;
    MulSplit(b, hi, q, r);
    TwoDigitBound(b, r, 0);
    DivModUnique(hi * b, b * b, q, r * b);
  }

  lemma MulSplit(b: int, x: int, q: int, r: int)
    requires x == b * q + r
    ensures x * b == b * b * q + r * b
  {
  }

  lemma WrapSmall(b: nat, x: nat)
    requires x < b * b
    ensures b > 0 && Wrap(b, x) == x
  {
  }

  lemma CombineVal(b: nat, hi: nat, lo: nat)
    requires hi < b && lo < b
    ensures Combine(b, hi, lo) == hi * b + lo < b * b
  {
    TwoDigitBound(b, hi, lo);
    WrapSmall(b, hi * b);
  }

  lemma HHalfBound(b: nat, x: nat)
    requires b > 0 && x < b * b
    ensures HHalf(b, x) < b
  {
    var q := x / b;
    assert q * b <= x;
    MulLess(q, b, b);
  }
}
