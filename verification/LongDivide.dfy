/** Unsigned long-long division on half-word digits: Knuth's Algorithm D
    (The Art of Computer Programming, volume 2, section 4.3.1), for any half-word width `h`. */
module LongDivide {
  import opened Bits
  import opened Digits
  import opened Options

  function Two(b: nat, x: nat, y: nat): nat { x * b + y }

  function Three(b: nat, x: nat, y: nat, z: nat): nat { (x * b + y) * b + z }

  /** `qhat` is floor(u3 / v2), capped at the largest digit. */
  ghost predicate LeadingQuotient(b: nat, qhat: nat, u3: nat, v2: nat) {
    qhat * v2 <= u3 && (qhat == b - 1 || (qhat + 1) * v2 > u3)
  }

  ghost predicate IsQuotient(u: nat, v: nat, q: nat) {
    q * v <= u < (q + 1) * v
  }

  /** `r` is what remains of `w` after taking `q` times `vs`, and is less than `vs`. */
  ghost predicate Remainder(b: nat, r: seq<nat>, w: seq<nat>, vs: seq<nat>, q: nat) {
    Val(b, r) == Val(b, w) - q * Val(b, vs) && Val(b, r) < Val(b, vs)
  }

  // ---------- D3: the quotient-digit estimate ----------

  /** An estimate that is the two-digit quotient, capped at b-1, is the true digit or one more.
      `u3` and `v2` are the leading three and two digits of `u` and `v`, above `r`. */
  lemma EstimateIsClose(b: int, u3: int, v2: int, r: int, u: int, v: int, qhat: int, q: int)
    requires r > 0 && 0 <= qhat < b && v2 >= b && v > 0 && q >= 0
    requires u3 * r <= u < (u3 + 1) * r
    requires v2 * r <= v < (v2 + 1) * r
    requires q * v <= u < (q + 1) * v && u < b * v
    requires qhat * v2 <= u3
    requires qhat == b - 1 || (qhat + 1) * v2 > u3
    ensures q <= qhat <= q + 1
  {
    if qhat < q && qhat < b - 1 {
      EstimateNotBelow(u3, v2, r, u, v, qhat, q);
    }
    if qhat < q && qhat == b - 1 {
      MulMono(b, q, v);
    }
    if qhat > q + 1 {
      EstimateNotTwoAbove(u3, v2, r, u, v, qhat, q);
    }
  }

  lemma EstimateNotBelow(u3: int, v2: int, r: int, u: int, v: int, qhat: int, q: int)
    requires r > 0 && 0 <= qhat < q
    requires u < (u3 + 1) * r && v2 * r <= v && v > 0 && q * v <= u
    ensures (qhat + 1) * v2 <= u3
  {
    MulMono(qhat + 1, q, v);
    MulMono(v2 * r, v, qhat + 1);
    MulAssoc(qhat + 1, v2, r);
    MulLess((qhat + 1) * v2, u3 + 1, r);
  }

  lemma EstimateNotTwoAbove(u3: int, v2: int, r: int, u: int, v: int, qhat: int, q: int)
    requires r > 0 && qhat > q + 1 && q >= 0
    requires u3 * r <= u && v < (v2 + 1) * r && v > 0
    requires u < (q + 1) * v && qhat * v2 <= u3
    ensures v2 < qhat - 1
  {
    MulMono(q + 1, qhat - 1, v);
    MulMono(v, (v2 + 1) * r, qhat - 1);
    MulMono(qhat * v2, u3, r);
    assert u < (qhat - 1) * v <= (qhat - 1) * ((v2 + 1) * r);
    MulAssoc(qhat - 1, v2 + 1, r);
    MulLess(qhat * v2, (qhat - 1) * (v2 + 1), r);
    assert (qhat - 1) * (v2 + 1) == qhat * v2 - v2 + qhat - 1;
  }

  lemma DivBounds(u: int, v: int)
    requires v > 0
    ensures (u / v) * v <= u < (u / v + 1) * v
  {
    Distrib(u / v, 1, v);
  }

  method EstimateDigit(b: nat, uj0: nat, uj1: nat, uj2: nat, v1: nat, v2: nat) returns (qhat: nat)
    requires b >= 2
    requires uj0 < b && uj1 < b && uj2 < b && v1 < b && v2 < b
    requires 0 < v1 && uj0 <= v1
    ensures qhat < b && LeadingQuotient(b, qhat, Three(b, uj0, uj1, uj2), Two(b, v1, v2))
  {
    var rhat: nat, tooBig: bool;
    ghost var nn := uj0 * b + uj1;
    if uj0 == v1 {
      qhat, rhat, tooBig := b, uj1, true;
      assert qhat * v1 + rhat == nn;
    } else {
      CombineVal(b, uj0, uj1);
      var w := Combine(b, uj0, uj1);
      qhat, rhat := QuoRem(w, v1);
      MulMono(uj0 + 1, v1, b);
      Distrib(uj0, 1, b);
      MulLess(qhat, b, v1);
      ProductFits(b, v2, qhat);
      CombineVal(b, rhat, uj2);
      tooBig := Wrap(b, v2 * qhat) > Combine(b, rhat, uj2);
      FirstGuessIsHigh(b, nn, uj2, v1, v2, qhat, rhat);
      if tooBig { PositiveFactor(v2, qhat); } else { GuessIsLow(b, nn, uj2, v1, v2, qhat, rhat); }
    }
    while tooBig
      invariant qhat <= b && rhat < b && qhat * v1 + rhat == nn
      invariant tooBig ==> qhat >= 1 && (qhat == b || v2 * qhat > rhat * b + uj2)
      invariant !tooBig ==> qhat < b && qhat * (v1 * b + v2) <= nn * b + uj2
      invariant !tooBig ==> qhat == b - 1 || (qhat + 1) * (v1 * b + v2) > nn * b + uj2
      decreases qhat, tooBig
    {
      ghost var q0, r0 := qhat, rhat;
      if q0 < b { GuessIsHigh(b, nn, uj2, v1, v2, q0, r0); }
      qhat := qhat - 1;
      rhat := rhat + v1;
      assert qhat * v1 + rhat == nn by { Distrib(q0, 1, v1); }
      ProductFits(b, v2, qhat);
      if rhat >= b {
        MulMono(b, rhat, b);
        GuessIsLow(b, nn, uj2, v1, v2, qhat, rhat);
        break;
      }
      CombineVal(b, rhat, uj2);
      tooBig := Wrap(b, v2 * qhat) > Combine(b, rhat, uj2);
      if tooBig { PositiveFactor(v2, qhat); } else { GuessIsLow(b, nn, uj2, v1, v2, qhat, rhat); }
    }
  }

  method QuoRem(w: nat, v: nat) returns (q: nat, r: nat)
    requires v > 0
    ensures q * v + r == w && r < v
  {
    q, r := w / v, w % v;
  }

  lemma PositiveFactor(x: nat, y: nat)
    requires x * y > 0
    ensures y > 0
  {
  }

  lemma ProductFits(b: nat, x: nat, y: nat)
    requires x < b && y < b
    ensures 0 <= x * y < b * b && Wrap(b, x * y) == x * y
  {
    MulMono(0, x, y);
    MulMono(x, b - 1, y);
    MulMono(y, b, b - 1);
    Distrib(b, 1, b);
    WrapSmall(b, x * y);
  }

  lemma GuessIsLow(b: int, nn: int, u2: int, v1: int, v2: int, qhat: int, rhat: int)
    requires qhat * v1 + rhat == nn && v2 * qhat <= rhat * b + u2
    ensures qhat * (v1 * b + v2) <= nn * b + u2
  {
    assert qhat * (v1 * b + v2) == (qhat * v1) * b + v2 * qhat;
    Distrib(qhat * v1, rhat, b);
  }

  lemma GuessIsHigh(b: int, nn: int, u2: int, v1: int, v2: int, qhat: int, rhat: int)
    requires qhat * v1 + rhat == nn && v2 * qhat > rhat * b + u2
    ensures qhat * (v1 * b + v2) > nn * b + u2
  {
    assert qhat * (v1 * b + v2) == (qhat * v1) * b + v2 * qhat;
    Distrib(qhat * v1, rhat, b);
  }

  /** Dividing only by the leading digit never gives too small a digit. */
  lemma FirstGuessIsHigh(b: int, nn: int, u2: int, v1: int, v2: int, qhat: int, rhat: int)
    requires qhat * v1 + rhat == nn && 0 <= rhat < v1 && 0 <= u2 < b && v2 >= 0 && qhat >= 0
    ensures (qhat + 1) * (v1 * b + v2) > nn * b + u2
  {
    assert (qhat + 1) * v1 >= nn + 1 by { Distrib(qhat, 1, v1); }
    MulMono(nn + 1, (qhat + 1) * v1, b);
    Distrib(nn, 1, b);
    assert (qhat + 1) * (v1 * b + v2) == ((qhat + 1) * v1) * b + (qhat + 1) * v2;
    MulMono(0, v2, qhat + 1);
  }

  // ---------- D4-D6: multiply and subtract, add back ----------

  /** The digit and borrow read off the halves of a wrapped word are the true ones. */
  lemma BorrowWord(b: nat, x: int)
    requires b > 0 && -((b - 1) * b) <= x < b
    ensures var w := Wrap(b, x);
            && HHalf(b, w) <= b && LHalf(b, w) < b && LHalf(b, b - HHalf(b, w)) < b
            && LHalf(b, w) - LHalf(b, b - HHalf(b, w)) * b == x
            && (HHalf(b, w) == 0 <==> x >= 0)
  {
    var r, k := x % b, -(x / b);
    assert x == r - k * b;
    if x >= 0 {
      BorrowNone(b, x);
    } else {
      assert 1 <= k by { if k <= 0 { MulMono(k, 0, b); } }
      assert k < b by { if k >= b { MulMono(b, k, b); Distrib(b, 1, b); } }
      BorrowSome(b, x, r, k);
    }
  }

  lemma BorrowNone(b: nat, x: nat)
    requires x < b
    ensures Wrap(b, x) == x && LHalf(b, x) == x && HHalf(b, x) == 0 && x / b == 0
    ensures LHalf(b, b) == 0
  {
    MulMono(1, b, b);
    WrapSmall(b, x);
    DivModUnique(x, b, 0, x);
    DivModUnique(b, b, 1, 0);
  }

  lemma BorrowSome(b: nat, x: int, r: nat, k: nat)
    requires r < b && 1 <= k < b && x == r - k * b
    ensures LHalf(b, Wrap(b, x)) == r && HHalf(b, Wrap(b, x)) == b - k
    ensures LHalf(b, b - (b - k)) == k
  {
    var t := (b - k) * b + r;
    assert x == (b * b) * -1 + t by { Distrib(b, k, b); }
    TwoDigitBound(b, b - k, r);
    DivModUnique(x, b * b, -1, t);
    DivModUnique(t, b, b - k, r);
    DivModUnique(k, b, 0, k);
  }

  lemma SubtractArith(p: int, b: int, d: int, k: int, qhat: int, u: int, v: int, t: int, uval: int, vval: int,
                      wval: int)
    requires d - k * b == u - v * qhat - t
    requires wval == uval - qhat * vval + t * p
    ensures d * p + wval == (u * p + uval) - qhat * (v * p + vval) + k * (b * p)
  {
    assert d * p == (u - v * qhat - t + k * b) * p;
    assert (u - v * qhat - t + k * b) * p == u * p - (v * qhat) * p - t * p + (k * b) * p;
    MulAssoc(k, b, p);
    assert qhat * (v * p + vval) == (v * qhat) * p + qhat * vval;
  }

  /** `w` is us - qhat*vs on |w| digits, with `t` borrowed from the next digit. */
  ghost predicate Subtracted(b: nat, w: seq<nat>, us: seq<nat>, vs: seq<nat>, qhat: nat, t: nat) {
    Val(b, w) == Val(b, us) - qhat * Val(b, vs) + t * Pow(b, |w|)
  }

  /** Digit `d` with borrow `k` is u - v*qhat - t. */
  ghost predicate DigitStep(b: nat, d: nat, k: nat, u: nat, v: nat, qhat: nat, t: nat) {
    d - k * b == u - v * qhat - t
  }

  lemma SubtractNothing(b: nat, qhat: nat)
    ensures Subtracted(b, [], [], [], qhat, 0)
  {
  }

  lemma SubtractMore(b: nat, w: seq<nat>, us: seq<nat>, vs: seq<nat>, qhat: nat, d: nat, k: nat, u: nat, v: nat, t: nat)
    requires |w| == |us| == |vs|
    requires Subtracted(b, w, us, vs, qhat, t)
    requires DigitStep(b, d, k, u, v, qhat, t)
    ensures Subtracted(b, [d] + w, [u] + us, [v] + vs, qhat, k)
  {
    var p := Pow(b, |w|);
    ValCons(b, d, w);
    ValCons(b, u, us);
    ValCons(b, v, vs);
    assert Pow(b, |w| + 1) == b * p;
    SubtractArith(p, b, d, k, qhat, u, v, t, Val(b, us), Val(b, vs), Val(b, w));
  }

  method SubtractDigit(b: nat, u: nat, v: nat, qhat: nat, t: nat) returns (d: nat, k: nat)
    requires u < b && v < b && qhat < b && t < b
    ensures d < b && k < b && DigitStep(b, d, k, u, v, qhat, t)
  {
    SubtractRange(b, u, v, qhat, t);
    BorrowWord(b, u - v * qhat - t);
    hide Wrap, LHalf, HHalf;
    var w := Wrap(b, u - v * qhat - t);
    d := LHalf(b, w);
    k := LHalf(b, b - HHalf(b, w));
  }

  lemma BorrowIsOne(b: int, x: int, d: int, k: int)
    requires 0 <= d < b && 0 <= k < b && d - k * b == x && -b < x < b
    ensures k == if x < 0 then 1 else 0
  {
    if k >= 2 { MulMono(2, k, b); }
    if k == 0 { assert k * b == 0; }
  }

  /** The leading digit: only the borrow bit is kept. */
  method SubtractLast(b: nat, u: nat, ghost qhat: nat, t: nat) returns (d: nat, borrowed: bool)
    requires u < b && t < b
    ensures d < b && DigitStep(b, d, if borrowed then 1 else 0, u, 0, qhat, t)
  {
    SubtractRange(b, u, 0, 0, t);
    BorrowWord(b, u - t);
    hide Wrap, LHalf, HHalf;
    var w := Wrap(b, u - t);
    d := LHalf(b, w);
    borrowed := HHalf(b, w) != 0;
    BorrowIsOne(b, u - t, d, LHalf(b, b - HHalf(b, w)));
  }

  lemma SubtractRange(b: int, u: int, v: int, qhat: int, t: int)
    requires 0 <= u < b && 0 <= v < b && 0 <= qhat < b && 0 <= t < b
    ensures -((b - 1) * b) <= u - v * qhat - t < b
  {
    DigitTimesDigit(b, v, qhat);
    PredTimes(b);
  }

  lemma DigitTimesDigit(b: int, v: int, qhat: int)
    requires 0 <= v < b && 0 <= qhat < b
    ensures 0 <= v * qhat <= (b - 1) * (b - 1)
  {
    MulMono(0, v, qhat);
    MulMono(v, b - 1, qhat);
    MulMono(qhat, b - 1, b - 1);
  }

  lemma PredTimes(b: int)
    ensures (b - 1) * b == (b - 1) * (b - 1) + (b - 1)
  {
  }

  /** Subtracts qhat * v[vo+1..vo+n] from u[o..o+n], in place. */
  method MultiplySubtract(b: nat, u: array<nat>, o: nat, v: array<nat>, vo: nat, n: nat, qhat: nat)
    returns (borrowed: bool)
    requires b > 0 && u != v
    requires o + n < u.Length && vo + n < v.Length && qhat < b
    requires forall k :: 0 <= k < u.Length ==> u[k] < b
    requires forall k :: 0 <= k < v.Length ==> v[k] < b
    modifies u
    ensures forall k :: 0 <= k < u.Length ==> u[k] < b
    ensures forall k :: 0 <= k < u.Length && !(o <= k <= o + n) ==> u[k] == old(u[k])
    ensures Subtracted(b, u[o..o + n + 1], old(u[o..o + n + 1]), [0] + v[vo + 1..vo + n + 1], qhat,
                       if borrowed then 1 else 0)
  {
    hide *;
    ghost var w, us, vs := [], [], [];
    SubtractNothing(b, qhat);
    var t: nat, i: nat := 0, n;
    while i > 0
      invariant 0 <= i <= n && t < b
      invariant forall k :: 0 <= k < u.Length ==> u[k] < b
      invariant forall k :: 0 <= k < u.Length && !(o + i < k <= o + n) ==> u[k] == old(u[k])
      invariant w == u[o + i + 1..o + n + 1] && us == old(u[o + i + 1..o + n + 1]) && vs == v[vo + i + 1..vo + n + 1]
      invariant Subtracted(b, w, us, vs, qhat, t)
    {
      var d, k := SubtractDigit(b, u[o + i], v[vo + i], qhat, t);
      SubtractMore(b, w, us, vs, qhat, d, k, u[o + i], v[vo + i], t);
      assert old(u[o + i..o + n + 1]) == [u[o + i]] + us;
      w, us, vs := [d] + w, [u[o + i]] + us, [v[vo + i]] + vs;
      u[o + i], t := d, k;
      assert u[o + i..o + n + 1] == w && vs == v[vo + i..vo + n + 1];
      i := i - 1;
    }
    var d;
    d, borrowed := SubtractLast(b, u[o], qhat, t);
    SubtractMore(b, w, us, vs, qhat, d, if borrowed then 1 else 0, u[o], 0, t);
    assert old(u[o..o + n + 1]) == [u[o]] + us;
    u[o] := d;
    assert u[o..o + n + 1] == [d] + w;
  }

  /** `w` is us + vs on |w| digits, with `t` carried into the next digit. */
  ghost predicate Added(b: nat, w: seq<nat>, us: seq<nat>, vs: seq<nat>, t: nat) {
    Val(b, w) + t * Pow(b, |w|) == Val(b, us) + Val(b, vs)
  }

  lemma AddNothing(b: nat)
    ensures Added(b, [], [], [], 0)
  {
  }

  lemma AddArith(p: int, b: int, d: int, k: int, u: int, v: int, t: int)
    requires d + k * b == u + v + t
    ensures d * p + k * (b * p) == u * p + v * p + t * p
  {
    MulAssoc(k, b, p);
    assert (d + k * b) * p == d * p + (k * b) * p;
    assert (u + v + t) * p == u * p + v * p + t * p;
  }

  lemma AddMore(b: nat, w: seq<nat>, us: seq<nat>, vs: seq<nat>, d: nat, k: nat, u: nat, v: nat, t: nat)
    requires |w| == |us| == |vs| && Added(b, w, us, vs, t)
    requires CarryStep(b, d, k, u + v + t)
    ensures Added(b, [d] + w, [u] + us, [v] + vs, k)
  {
    ValCons(b, d, w);
    ValCons(b, u, us);
    ValCons(b, v, vs);
    assert Pow(b, |w| + 1) == b * Pow(b, |w|);
    AddArith(Pow(b, |w|), b, d, k, u, v, t);
  }

  ghost predicate CarryStep(b: nat, d: nat, k: nat, x: nat) {
    d + k * b == x
  }

  lemma CarryWord(b: nat, x: nat)
    requires b >= 2 && x < 2 * b
    ensures LHalf(b, x) < b && HHalf(b, x) <= 1 && CarryStep(b, LHalf(b, x), HHalf(b, x), x)
  {
    if x < b { DivModUnique(x, b, 0, x); } else { DivModUnique(x, b, 1, x - b); }
  }

  /** Adds v[vo+1..vo+n] to u[o..o+n], in place, dropping the final carry `c`. */
  method AddBack(b: nat, u: array<nat>, o: nat, v: array<nat>, vo: nat, n: nat) returns (ghost c: nat)
    requires b >= 2 && u != v
    requires o + n < u.Length && vo + n < v.Length
    requires forall k :: 0 <= k < u.Length ==> u[k] < b
    requires forall k :: 0 <= k < v.Length ==> v[k] < b
    modifies u
    ensures forall k :: 0 <= k < u.Length ==> u[k] < b
    ensures forall k :: 0 <= k < u.Length && !(o <= k <= o + n) ==> u[k] == old(u[k])
    ensures Added(b, u[o..o + n + 1], old(u[o..o + n + 1]), [0] + v[vo + 1..vo + n + 1], c)
  {
    hide *;
    ghost var w, us, vs := [], [], [];
    AddNothing(b);
    var t: nat, i: nat := 0, n;
    while i > 0
      invariant 0 <= i <= n && t <= 1
      invariant forall k :: 0 <= k < u.Length ==> u[k] < b
      invariant forall k :: 0 <= k < u.Length && !(o + i < k <= o + n) ==> u[k] == old(u[k])
      invariant w == u[o + i + 1..o + n + 1] && us == old(u[o + i + 1..o + n + 1]) && vs == v[vo + i + 1..vo + n + 1]
      invariant Added(b, w, us, vs, t)
    {
      ghost var t0 := t;
      t := t + u[o + i] + v[vo + i];
      CarryWord(b, t);
      var d := LHalf(b, t);
      t := HHalf(b, t);
      AddMore(b, w, us, vs, d, t, u[o + i], v[vo + i], t0);
      assert old(u[o + i..o + n + 1]) == [u[o + i]] + us;
      w, us, vs := [d] + w, [u[o + i]] + us, [v[vo + i]] + vs;
      u[o + i] := d;
      assert u[o + i..o + n + 1] == w && vs == v[vo + i..vo + n + 1];
      i := i - 1;
    }
    CarryWord(b, u[o] + t);
    var d := LHalf(b, u[o] + t);
    c := HHalf(b, u[o] + t);
    AddMore(b, w, us, vs, d, c, u[o], 0, t);
    assert old(u[o..o + n + 1]) == [u[o]] + us;
    u[o] := d;
    assert u[o..o + n + 1] == [d] + w;
  }

  // ---------- one quotient digit ----------

  /** The leading digits bound the whole: |hi| leading digits at weight b^|lo|. */
  lemma LeadingDigits(b: nat, hi: seq<nat>, lo: seq<nat>)
    requires b >= 1 && Small(b, lo)
    ensures Val(b, hi) * Pow(b, |lo|) <= Val(b, hi + lo) < (Val(b, hi) + 1) * Pow(b, |lo|)
  {
    ValConcat(b, hi, lo);
    ValBound(b, lo);
    Distrib(Val(b, hi), 1, Pow(b, |lo|));
  }

  lemma ValTwo(b: nat, x: nat, y: nat)
    ensures Val(b, [x, y]) == x * b + y
  {
    ValAppend(b, [x], y);
    ValOne(b, x);
    assert [x] + [y] == [x, y];
  }

  lemma ValThree(b: nat, x: nat, y: nat, z: nat)
    ensures Val(b, [x, y, z]) == (x * b + y) * b + z
  {
    ValAppend(b, [x, y], z);
    ValTwo(b, x, y);
    assert [x, y] + [z] == [x, y, z];
  }

  /** u[0..n] < v[1..n] makes the top digit of u no larger than that of v. */
  lemma TopDigitOrder(b: nat, us: seq<nat>, vs: seq<nat>)
    requires b >= 1 && |us| == |vs| > 0 && Small(b, vs) && Val(b, us) < Val(b, vs)
    ensures us[0] <= vs[0]
  {
    var p := Pow(b, |us| - 1);
    assert vs == [vs[0]] + vs[1..];
    LeadingDigits(b, [vs[0]], vs[1..]);
    ValOne(b, vs[0]);
    assert us[0] * p <= Val(b, us);
    MulLess(us[0], vs[0] + 1, p);
  }

  lemma WindowLead(b: nat, w: seq<nat>)
    requires b >= 1 && |w| >= 3 && Small(b, w)
    ensures Three(b, w[0], w[1], w[2]) * Pow(b, |w| - 3) <= Val(b, w)
    ensures Val(b, w) < (Three(b, w[0], w[1], w[2]) + 1) * Pow(b, |w| - 3)
  {
    assert w == [w[0], w[1], w[2]] + w[3..];
    LeadingDigits(b, [w[0], w[1], w[2]], w[3..]);
    ValThree(b, w[0], w[1], w[2]);
  }

  lemma DivisorLead(b: nat, vs: seq<nat>)
    requires b >= 1 && |vs| >= 2 && Small(b, vs) && vs[0] > 0
    ensures Two(b, vs[0], vs[1]) * Pow(b, |vs| - 2) <= Val(b, vs) < (Two(b, vs[0], vs[1]) + 1) * Pow(b, |vs| - 2)
    ensures Two(b, vs[0], vs[1]) >= b
  {
    assert vs == [vs[0], vs[1]] + vs[2..];
    LeadingDigits(b, [vs[0], vs[1]], vs[2..]);
    ValTwo(b, vs[0], vs[1]);
    MulMono(1, vs[0], b);
  }

  /** What the estimate contract means for the whole window `w` and divisor `vs`. */
  lemma EstimateOfWindow(b: nat, w: seq<nat>, vs: seq<nat>, qhat: nat, q: nat)
    requires b >= 2 && |vs| >= 2 && |w| == |vs| + 1 && Small(b, w) && Small(b, vs)
    requires vs[0] > 0 && Val(b, w[..|w| - 1]) < Val(b, vs) && qhat < b
    requires LeadingQuotient(b, qhat, Three(b, w[0], w[1], w[2]), Two(b, vs[0], vs[1]))
    requires IsQuotient(Val(b, w), Val(b, vs), q)
    ensures q <= qhat <= q + 1
  {
    hide Val, Pow, Two, Three;
    var u, v := Val(b, w), Val(b, vs);
    WindowBelow(b, w, v);
    WindowLead(b, w);
    DivisorLead(b, vs);
    EstimateIsClose(b, Three(b, w[0], w[1], w[2]), Two(b, vs[0], vs[1]), Pow(b, |vs| - 2), u, v, qhat, q);
  }

  lemma WindowBelow(b: nat, w: seq<nat>, v: nat)
    requires b >= 1 && |w| > 0 && Small(b, w) && Val(b, w[..|w| - 1]) < v
    ensures Val(b, w) < b * v
  {
    var x := w[..|w| - 1];
    assert w == x + [w[|w| - 1]];
    ValAppend(b, x, w[|w| - 1]);
    MulMono(Val(b, x) + 1, v, b);
    Distrib(Val(b, x), 1, b);
  }

  lemma OneBorrow(w: int, w2: int, u: int, v: int, q: int, p: int, k: int, c: int)
    requires 0 <= w2 < p && k == 1 && 0 <= c
    requires w == u - (q + 1) * v + k * p && w2 + c * p == w + v
    requires q * v <= u < (q + 1) * v && 0 <= v <= p
    ensures w2 == u - q * v
  {
    assert w2 + c * p == u - q * v + p by { Distrib(q, 1, v); }
    assert 0 <= u - q * v < p by { Distrib(q, 1, v); }
    assert c == 0 ==> c * p == 0;
    if c >= 2 { MulMono(2, c, p); }
  }

  lemma SettledAtOnce(b: nat, r: seq<nat>, w: seq<nat>, vs: seq<nat>, qhat: nat, q: nat)
    requires b >= 1 && |r| == |vs| + 1 && Small(b, r)
    requires Subtracted(b, r, w, [0] + vs, qhat, 0)
    requires IsQuotient(Val(b, w), Val(b, vs), q) && q <= qhat <= q + 1
    ensures qhat == q && Remainder(b, r, w, vs, q)
  {
    SubtractedMeans(b, r, w, vs, qhat, 0);
    assert 0 * Pow(b, |r|) == 0;
    hide Val, Pow, Subtracted;
    Distrib(q, 1, Val(b, vs));
  }

  /** A borrow means the estimate was one too large, and adding the divisor back repairs it. */
  lemma SettledByAddBack(b: nat, r: seq<nat>, r1: seq<nat>, w: seq<nat>, vs: seq<nat>, qhat: nat, q: nat, c: nat)
    requires b >= 1 && |r| == |r1| == |vs| + 1 && Small(b, r) && Small(b, r1) && Small(b, vs)
    requires Subtracted(b, r1, w, [0] + vs, qhat, 1) && Added(b, r, r1, [0] + vs, c)
    requires IsQuotient(Val(b, w), Val(b, vs), q) && q <= qhat <= q + 1
    ensures qhat == q + 1 && Remainder(b, r, w, vs, q)
  {
    SubtractedMeans(b, r1, w, vs, qhat, 1);
    AddedMeans(b, r, r1, vs, c);
    ValBound(b, r);
    ValBound(b, r1);
    DivisorBelow(b, vs);
    hide Val, Pow, Subtracted, Added;
    assert qhat * Val(b, vs) > Val(b, w);
    OneBorrow(Val(b, r1), Val(b, r), Val(b, w), Val(b, vs), q, Pow(b, |r|), 1, c);
    Distrib(q, 1, Val(b, vs));
  }

  lemma TrueDigit(b: nat, w: seq<nat>, vs: seq<nat>) returns (q: nat)
    requires b >= 1 && |w| == |vs| + 1 && |vs| > 0 && Small(b, w) && Small(b, vs)
    requires Val(b, w[..|vs|]) < Val(b, vs)
    ensures w[0] <= vs[0] && IsQuotient(Val(b, w), Val(b, vs), q)
  {
    TopDigitOrder(b, w[..|vs|], vs);
    q := Val(b, w) / Val(b, vs);
    DivBounds(Val(b, w), Val(b, vs));
  }

  /** D3 to D6: the true quotient digit of u[o..o+n] by v[vo+1..vo+n], leaving the remainder in u. */
  method QuotientDigit(b: nat, u: array<nat>, o: nat, v: array<nat>, vo: nat, n: nat) returns (qhat: nat)
    requires b >= 2 && u != v && n >= 2
    requires o + n < u.Length && vo + n < v.Length
    requires forall k :: 0 <= k < u.Length ==> u[k] < b
    requires forall k :: 0 <= k < v.Length ==> v[k] < b
    requires v[vo + 1] > 0
    requires Val(b, u[o..o + n]) < Val(b, v[vo + 1..vo + n + 1])
    modifies u
    ensures qhat < b
    ensures forall k :: 0 <= k < u.Length ==> u[k] < b
    ensures forall k :: 0 <= k < u.Length && !(o <= k <= o + n) ==> u[k] == old(u[k])
    ensures Remainder(b, u[o..o + n + 1], old(u[o..o + n + 1]), v[vo + 1..vo + n + 1], qhat)
  {
    hide *;
    ghost var w, vs := u[o..o + n + 1], v[vo + 1..vo + n + 1];
    AreSmall(b, w);
    AreSmall(b, vs);
    assert w[..n] == u[o..o + n] && w[0] == u[o] && w[1] == u[o + 1] && w[2] == u[o + 2];
    assert vs[0] == v[vo + 1] && vs[1] == v[vo + 2];
    ghost var q := TrueDigit(b, w, vs);
    qhat := EstimateDigit(b, u[o], u[o + 1], u[o + 2], v[vo + 1], v[vo + 2]);
    EstimateOfWindow(b, w, vs, qhat, q);
    var borrowed := MultiplySubtract(b, u, o, v, vo, n, qhat);
    ghost var w1 := u[o..o + n + 1];
    assert v[vo + 1..vo + n + 1] == vs;
    AreSmall(b, w1);
    if borrowed {
      ghost var c := AddBack(b, u, o, v, vo, n);
      AreSmall(b, u[o..o + n + 1]);
      SettledByAddBack(b, u[o..o + n + 1], w1, w, vs, qhat, q, c);
      qhat := qhat - 1;
    } else {
      SettledAtOnce(b, w1, w, vs, qhat, q);
    }
  }

  lemma AreSmall(b: nat, s: seq<nat>)
    requires forall k :: 0 <= k < |s| ==> s[k] < b
    ensures Small(b, s)
  {
  }

  lemma DivisorBelow(b: nat, vs: seq<nat>)
    requires b >= 1 && Small(b, vs)
    ensures Val(b, vs) <= Pow(b, |vs| + 1)
  {
    ValBound(b, vs);
    MulMono(1, b, Pow(b, |vs|));
  }

  lemma SubtractedMeans(b: nat, w: seq<nat>, us: seq<nat>, vs: seq<nat>, qhat: nat, t: nat)
    requires Subtracted(b, w, us, [0] + vs, qhat, t)
    ensures Val(b, w) == Val(b, us) - qhat * Val(b, vs) + t * Pow(b, |w|)
  {
    hide Val, Pow;
    ZeroFirst(b, vs);
  }

  lemma ZeroFirst(b: nat, vs: seq<nat>)
    ensures Val(b, [0] + vs) == Val(b, vs)
  {
    ValCons(b, 0, vs);
    hide Val, Pow;
    assert 0 * Pow(b, |vs|) == 0;
  }

  lemma AddedMeans(b: nat, w: seq<nat>, us: seq<nat>, vs: seq<nat>, c: nat)
    requires Added(b, w, us, [0] + vs, c)
    ensures Val(b, w) + c * Pow(b, |w|) == Val(b, us) + Val(b, vs)
  {
    ValCons(b, 0, vs);
    assert 0 * Pow(b, |vs|) == 0;
  }

  // ---------- shifting by part of a digit ----------

  /** With b == s*c, the digit x shifted left by the bits of `s` is HighBits*b + LowBits. */
  function HighBits(c: nat, x: nat): nat
    requires c > 0
  {
    x / c
  }

  function LowBits(s: nat, c: nat, x: nat): nat
    requires c > 0
  {
    (x % c) * s
  }

  lemma ShiftSplit(b: nat, s: nat, c: nat, x: nat)
    requires s > 0 && c > 0 && b == s * c && x < b
    ensures x * s == HighBits(c, x) * b + LowBits(s, c, x)
    ensures LHalf(b, x * s) == LowBits(s, c, x) && LowBits(s, c, x) + s <= b && HighBits(c, x) < s
  {
    var q, r := x / c, x % c;
    ShiftSum(b, s, c, x, q, r);
    ShiftRange(b, s, c, x, q, r);
    DivModUnique(x * s, b, q, r * s);
  }

  lemma ShiftSum(b: int, s: int, c: int, x: int, q: int, r: int)
    requires b == s * c && x == c * q + r
    ensures x * s == b * q + r * s
  {
    Distrib(c * q, r, s);
    MulAssoc(s, c, q);
    assert (c * q) * s == s * (c * q);
  }

  lemma ShiftRange(b: int, s: int, c: int, x: int, q: int, r: int)
    requires s > 0 && c > 0 && b == s * c && x == c * q + r && 0 <= r < c && 0 <= x < b && q >= 0
    ensures 0 <= r * s && r * s + s <= b && q < s
  {
    MulMono(r + 1, c, s);
    MulMono(0, r, s);
    Distrib(r, 1, s);
    assert q * c < s * c;
    MulLess(q, s, c);
  }

  /** Digit i of a left shift: low part of digit i, then the bits coming up from digit i+1. */
  ghost predicate ShiftedLeft(s: nat, c: nat, p: seq<nat>, r: seq<nat>)
    requires c > 0
  {
    && |r| == |p| > 0
    && (forall i :: 0 <= i < |p| - 1 ==> r[i] == LowBits(s, c, p[i]) + HighBits(c, p[i + 1]))
    && r[|p| - 1] == LowBits(s, c, p[|p| - 1])
  }

  lemma ShiftLeftFirst(b: nat, s: nat, c: nat, p: seq<nat>, r: seq<nat>, nxt: nat)
    requires s > 0 && c > 0 && b == s * c && |p| == |r| == 1 && p[0] < b
    requires r[0] == LowBits(s, c, p[0]) + nxt
    ensures Val(b, r) + HighBits(c, p[0]) * Pow(b, 1) == s * Val(b, p) + nxt
  {
    assert r == [r[0]] && p == [p[0]];
    ValOne(b, r[0]);
    ValOne(b, p[0]);
    ShiftSplit(b, s, c, p[0]);
    assert Pow(b, 1) == b * Pow(b, 0) == b;
  }

  lemma PowNext(b: nat, k: nat)
    ensures Pow(b, k + 1) == b * Pow(b, k)
  {
  }

  lemma ShiftLeftNext(b: nat, s: nat, c: nat, p: seq<nat>, r: seq<nat>, top: nat, x: nat, y: nat, nxt: nat)
    requires s > 0 && c > 0 && b == s * c && x < b && |p| == |r|
    requires Val(b, r) + top * Pow(b, |r|) == s * Val(b, p) + HighBits(c, x)
    requires y == LowBits(s, c, x) + nxt
    ensures Val(b, r + [y]) + top * Pow(b, |r| + 1) == s * Val(b, p + [x]) + nxt
  {
    hide *;
    ValAppend(b, r, y);
    ValAppend(b, p, x);
    ShiftSplit(b, s, c, x);
    PowNext(b, |r|);
    ShiftLeftArith(b, s, Val(b, r), Val(b, p), top, Pow(b, |r|), x, HighBits(c, x), LowBits(s, c, x), nxt);
  }

  lemma ShiftLeftArith(b: int, s: int, rv: int, pv: int, top: int, pw: int, x: int, q: int, m: int, nxt: int)
    requires rv + top * pw == s * pv + q && x * s == q * b + m
    ensures (rv * b + (m + nxt)) + top * (b * pw) == s * (pv * b + x) + nxt
  {
    assert (rv + top * pw) * b == rv * b + top * (b * pw);
    assert (s * pv + q) * b == s * (pv * b) + q * b;
    assert s * (pv * b + x) == s * (pv * b) + x * s;
  }

  lemma {:induction false} ShiftLeftPrefix(b: nat, s: nat, c: nat, p: seq<nat>, r: seq<nat>, i: nat)
    requires s > 0 && c > 0 && b == s * c && Small(b, p) && ShiftedLeft(s, c, p, r) && 0 < i <= |p|
    ensures Val(b, r[..i]) + HighBits(c, p[0]) * Pow(b, i) == s * Val(b, p[..i]) +
            (if i < |p| then HighBits(c, p[i]) else 0)
  {
    hide Val, Pow, HighBits, LowBits;
    var nxt := if i < |p| then HighBits(c, p[i]) else 0;
    if i == 1 {
      ShiftLeftFirst(b, s, c, p[..1], r[..1], nxt);
    } else {
      ShiftLeftPrefix(b, s, c, p, r, i - 1);
      assert r[..i] == r[..i - 1] + [r[i - 1]] && p[..i] == p[..i - 1] + [p[i - 1]];
      ShiftLeftNext(b, s, c, p[..i - 1], r[..i - 1], HighBits(c, p[0]), p[i - 1], r[i - 1], nxt);
    }
  }

  lemma ShiftDigit(b: nat, s: nat, c: nat, sh: nat, x: nat, y: nat)
    requires s == Pow2(sh) && c > 0 && b == s * c && x < b && y < b
    ensures LHalf(b, x * s) == LowBits(s, c, x) < b
    ensures Or(LHalf(b, x * s), y / c) == LowBits(s, c, x) + HighBits(c, y) < b
  {
    ShiftSplit(b, s, c, x);
    ShiftSplit(b, s, c, y);
    assert HighBits(c, y) < Pow2(sh);
    OrIsSum(x % c, HighBits(c, y), sh);
    assert (x % c) * Pow2(sh) == LowBits(s, c, x);
    hide *;
  }

  ghost predicate SplitBase(b: nat, s: nat, c: nat) {
    s > 0 && c > 0 && b == s * c
  }

  method ShiftedDigit(b: nat, s: nat, c: nat, sh: nat, x: nat, y: nat) returns (d: nat)
    requires s == Pow2(sh) && c > 0 && SplitBase(b, s, c) && x < b && y < b
    ensures d == LowBits(s, c, x) + HighBits(c, y) < b
  {
    ShiftDigit(b, s, c, sh, x, y);
    hide *;
    d := Or(LHalf(b, x * s), y / c);
  }

  method ShiftedLast(b: nat, s: nat, c: nat, x: nat) returns (d: nat)
    requires c > 0 && SplitBase(b, s, c) && x < b
    ensures d == LowBits(s, c, x) < b
  {
    ShiftSplit(b, s, c, x);
    hide *;
    d := LHalf(b, x * s);
  }

  lemma SplitPow2(h: nat, d: nat)
    requires d <= h
    ensures SplitBase(Pow2(h), Pow2(d), Pow2(h - d)) && Pow2(d) > 0 && Pow2(h - d) > 0
  {
    Pow2Add(d, h - d);
  }

  /** shl: p[o..o+len] shifted left `sh` bits in place; the bits that fall out are p[o] >> (h - sh). */
  method ShiftLeft(h: nat, p: array<nat>, o: nat, len: nat, sh: nat)
    requires 0 < sh < h && o + len < p.Length
    requires forall k :: 0 <= k < p.Length ==> p[k] < Pow2(h)
    modifies p
    ensures forall k :: 0 <= k < p.Length ==> p[k] < Pow2(h)
    ensures forall k :: 0 <= k < p.Length && !(o <= k <= o + len) ==> p[k] == old(p[k])
    ensures Val(Pow2(h), p[o..o + len + 1]) + HighBits(Pow2(h - sh), old(p[o])) * Pow(Pow2(h), len + 1)
            == Pow2(sh) * old(Val(Pow2(h), p[o..o + len + 1]))
  {
    hide *;
    var b, s, c := Pow2(h), Pow2(sh), Pow2(h - sh);
    SplitPow2(h, sh);
    ghost var p0 := p[..];
    var i := 0;
    while i < len
      invariant 0 <= i <= len
      invariant forall k :: 0 <= k < p.Length ==> p[k] < b
      invariant forall k :: 0 <= k < p.Length && !(o <= k < o + i) ==> p[k] == p0[k]
      invariant forall k :: o <= k < o + i ==> p[k] == LowBits(s, c, p0[k]) + HighBits(c, p0[k + 1])
    {
      p[o + i] := ShiftedDigit(b, s, c, sh, p[o + i], p[o + i + 1]);
      i := i + 1;
    }
    p[o + i] := ShiftedLast(b, s, c, p[o + i]);
    ShiftLeftAll(b, s, c, p0, p[..], o, len);
    assert p0[o..o + len + 1] == old(p[o..o + len + 1]) && p[..][o..o + len + 1] == p[o..o + len + 1];
  }

  lemma ShiftLeftAll(b: nat, s: nat, c: nat, p: seq<nat>, r: seq<nat>, o: nat, len: nat)
    requires c > 0 && SplitBase(b, s, c) && |p| == |r| && o + len < |p|
    requires forall k :: 0 <= k < |p| ==> p[k] < b
    requires forall k :: o <= k < o + len ==> r[k] == LowBits(s, c, p[k]) + HighBits(c, p[k + 1])
    requires r[o + len] == LowBits(s, c, p[o + len])
    ensures Val(b, r[o..o + len + 1]) + HighBits(c, p[o]) * Pow(b, len + 1) == s * Val(b, p[o..o + len + 1])
  {
    var ps, rs := p[o..o + len + 1], r[o..o + len + 1];
    assert ShiftedLeft(s, c, ps, rs) && Small(b, ps);
    assert SplitBase(b, s, c) ==> s > 0 && b == s * c;
    hide *;
    ShiftLeftPrefix(b, s, c, ps, rs, len + 1);
    assert rs[..len + 1] == rs && ps[..len + 1] == ps;
  }

  /** Digit i of a right shift by the bits of `s`: its high part below the low bits of digit i-1. */
  ghost predicate ShiftedRight(s: nat, c: nat, p: seq<nat>, r: seq<nat>)
    requires s > 0
  {
    |p| == |r| + 1 && forall i :: 0 <= i < |r| ==> r[i] == HighBits(s, p[i + 1]) + LowBits(c, s, p[i])
  }

  lemma ShiftRightArith(b: int, s: int, c: int, rv: int, pv: int, top: int, pw: int, x: int, hx: int, lx: int, low: int)
    requires s * rv + low == pv + top * pw && x == s * hx + lx && b == s * c
    ensures s * (rv * b + (hx + low * c)) + lx == (pv * b + x) + top * (b * pw)
  {
    assert (s * rv + low) * b == s * (rv * b) + low * b;
    assert (pv + top * pw) * b == pv * b + top * (b * pw);
    assert s * (rv * b + (hx + low * c)) == s * (rv * b) + s * hx + s * (low * c);
    assert s * (low * c) == low * b;
  }

  function LowPart(s: nat, x: nat): nat
    requires s > 0
  {
    x % s
  }

  lemma RightSplit(s: nat, c: nat, x: nat, y: nat)
    requires s > 0
    ensures x == s * HighBits(s, x) + LowPart(s, x) && LowBits(c, s, y) == LowPart(s, y) * c
  {
  }

  lemma PowStep(b: nat, k: nat)
    ensures Pow(b, k + 1) == b * Pow(b, k)
  {
  }

  lemma ShiftRightNext(b: nat, s: nat, c: nat, p: seq<nat>, r: seq<nat>, top: nat, y: nat, x: nat, d: nat)
    requires s > 0 && b == s * c && |p| == |r|
    requires s * Val(b, r) + LowPart(s, y) == Val(b, p) + top * Pow(b, |r|)
    requires d == HighBits(s, x) + LowBits(c, s, y)
    ensures s * Val(b, r + [d]) + LowPart(s, x) == Val(b, p + [x]) + top * Pow(b, |r| + 1)
  {
    hide *;
    ValAppend(b, r, d);
    ValAppend(b, p, x);
    PowStep(b, |r|);
    RightSplit(s, c, x, y);
    ShiftRightArith(b, s, c, Val(b, r), Val(b, p), top, Pow(b, |r|), x, HighBits(s, x), LowPart(s, x), LowPart(s, y));
  }

  lemma {:induction false} ShiftRightPrefix(b: nat, s: nat, c: nat, p: seq<nat>, r: seq<nat>, i: nat)
    requires s > 0 && b == s * c && ShiftedRight(s, c, p, r) && i <= |r|
    ensures s * Val(b, r[..i]) + LowPart(s, p[i]) == Val(b, p[1..i + 1]) + LowPart(s, p[0]) * Pow(b, i)
  {
    if i == 0 {
      assert r[..0] == [] && p[1..1] == [];
    } else {
      hide Val, Pow, LowPart, HighBits, LowBits;
      ShiftRightPrefix(b, s, c, p, r, i - 1);
      var rs, ps := r[..i - 1], p[1..i];
      assert r[..i] == rs + [r[i - 1]] && p[1..i + 1] == ps + [p[i]];
      ShiftRightNext(b, s, c, ps, rs, LowPart(s, p[0]), p[i - 1], p[i], r[i - 1]);
    }
  }

  /** Un-normalising a multiple of `s` that fits in the last digits divides it exactly. */
  lemma ShiftRightExact(b: nat, s: nat, c: nat, p: seq<nat>, r: seq<nat>, x: nat)
    requires s > 0 && c > 0 && b == s * c && |r| > 0 && ShiftedRight(s, c, p, r)
    requires p[0] == 0 && Val(b, p) == s * x
    ensures Val(b, r) == x
  {
    var n := |r|;
    ShiftRightPrefix(b, s, c, p, r, n);
    assert r[..n] == r && p[1..n + 1] == p[1..];
    assert Val(b, p) == 0 * Pow(b, n) + Val(b, p[1..]);
    assert 0 % s == 0;
    assert 0 * Pow(b, n) == 0;
    var y, m := Val(b, r), p[n] % s;
    assert s * y + m == s * x;
    hide *;
    DivModUnique(s * x, s, y, m);
    DivModUnique(s * x, s, x, 0);
  }

  method UnshiftedDigit(b: nat, s: nat, c: nat, e: nat, x: nat, y: nat) returns (d: nat)
    requires s > 0 && c == Pow2(e) && SplitBase(b, s, c) && x < b && y < b
    ensures d == HighBits(s, x) + LowBits(c, s, y) < b
  {
    hide *;
    UnshiftedParts(b, s, c, e, x, y);
    d := Or(x / s, LHalf(b, y * c));
  }

  lemma UnshiftedParts(b: nat, s: nat, c: nat, e: nat, x: nat, y: nat)
    requires s > 0 && c == Pow2(e) && SplitBase(b, s, c) && x < b && y < b
    ensures b > 0 && Or(x / s, LHalf(b, y * c)) == HighBits(s, x) + LowBits(c, s, y) < b
  {
    hide Pow2, Or, LHalf;
    SplitSwap(b, s, c);
    ShiftSplit(b, c, s, x);
    ShiftSplit(b, c, s, y);
    OrIsSum(y % s, HighBits(s, x), e);
    OrComm(HighBits(s, x), LHalf(b, y * c));
  }

  lemma SplitSwap(b: nat, s: nat, c: nat)
    requires SplitBase(b, s, c)
    ensures SplitBase(b, c, s) && b == c * s && b > 0
  {
    MulMono(1, s, c);
  }

  /** Shifts u[o..o+n] right by `d` bits into u[o+1..o+n], in place, and clears u[o]. */
  method ShiftRight(h: nat, u: array<nat>, o: nat, n: nat, d: nat, ghost x: nat)
    requires 0 < d < h && n > 0 && o + n < u.Length
    requires forall k :: 0 <= k < u.Length ==> u[k] < Pow2(h)
    requires u[o] == 0 && Val(Pow2(h), u[o..o + n + 1]) == Pow2(d) * x
    modifies u
    ensures forall k :: 0 <= k < u.Length ==> u[k] < Pow2(h)
    ensures forall k :: 0 <= k < u.Length && !(o <= k <= o + n) ==> u[k] == old(u[k])
    ensures u[o] == 0 && Val(Pow2(h), u[o + 1..o + n + 1]) == x
  {
    hide *;
    var b, s, c := Pow2(h), Pow2(d), Pow2(h - d);
    SplitPow2(h, d);
    ghost var p0 := u[..];
    assert p0[o..o + n + 1] == u[o..o + n + 1];
    var i := o + n;
    while i > o
      invariant o <= i <= o + n
      invariant forall k :: 0 <= k < u.Length ==> u[k] < b
      invariant forall k :: 0 <= k < u.Length && !(i < k <= o + n) ==> u[k] == p0[k]
      invariant forall k :: i < k <= o + n ==> u[k] == HighBits(s, p0[k]) + LowBits(c, s, p0[k - 1])
    {
      u[i] := UnshiftedDigit(b, s, c, h - d, u[i], u[i - 1]);
      i := i - 1;
    }
    u[i] := 0;
    ShiftRightAll(b, s, c, p0, u[..], o, n, x);
    assert u[..][o + 1..o + n + 1] == u[o + 1..o + n + 1];
  }

  lemma ShiftRightAll(b: nat, s: nat, c: nat, p: seq<nat>, r: seq<nat>, o: nat, n: nat, x: nat)
    requires s > 0 && SplitBase(b, s, c) && |p| == |r| && n > 0 && o + n < |p| && p[o] == 0
    requires forall k :: o < k <= o + n ==> r[k] == HighBits(s, p[k]) + LowBits(c, s, p[k - 1])
    requires Val(b, p[o..o + n + 1]) == s * x
    ensures Val(b, r[o + 1..o + n + 1]) == x
  {
    assert SplitBase(b, s, c) ==> c > 0 && b == s * c;
    var ps, rs := p[o..o + n + 1], r[o + 1..o + n + 1];
    forall i | 0 <= i < n ensures rs[i] == HighBits(s, ps[i + 1]) + LowBits(c, s, ps[i]) {
      assert rs[i] == r[o + 1 + i];
    }
    assert ShiftedRight(s, c, ps, rs);
    hide *;
    ShiftRightExact(b, s, c, ps, rs, x);
  }

  // ---------- D2, D7: the digit loop ----------

  /** `us` plus the part of the quotient found so far accounts for the dividend. */
  ghost predicate Accounted(b: nat, us: seq<nat>, qs: seq<nat>, v: nat, todo: nat, total: nat) {
    Val(b, us) + (Val(b, qs) * v) * Pow(b, todo) == total
  }

  lemma AccountArith(uval: int, uval2: int, qval: int, qd: int, v: int, b: int, p: int)
    requires uval2 == uval - (qd * v) * p
    ensures uval2 + ((qval * b + qd) * v) * p == uval + (qval * v) * (b * p)
  {
    assert ((qval * b + qd) * v) * p == ((qval * b) * v) * p + (qd * v) * p;
    assert ((qval * b) * v) * p == (qval * v) * (b * p);
  }

  lemma WindowReplaced(b: nat, z: seq<nat>, w: seq<nat>, w2: seq<nat>, tail: seq<nat>)
    requires |w| == |w2|
    ensures Val(b, z + w2 + tail) == Val(b, z + w + tail) - (Val(b, w) - Val(b, w2)) * Pow(b, |tail|)
  {
    hide *;
    ValConcat(b, z + w, tail);
    ValConcat(b, z + w2, tail);
    ValConcat(b, z, w);
    ValConcat(b, z, w2);
    ReplaceArith(Val(b, z) * Pow(b, |w|), Val(b, w), Val(b, w2), Pow(b, |tail|));
  }

  lemma ReplaceArith(z: int, w: int, w2: int, p: int)
    ensures (z + w2) * p == (z + w) * p - (w - w2) * p
  {
  }

  lemma AccountDigit(b: nat, z: seq<nat>, w: seq<nat>, w2: seq<nat>, tail: seq<nat>, qs: seq<nat>, qd: nat,
                     vs: seq<nat>, total: nat)
    requires |w| == |w2| && Remainder(b, w2, w, vs, qd)
    requires Accounted(b, z + w + tail, qs, Val(b, vs), |tail| + 1, total)
    ensures Accounted(b, z + w2 + tail, qs + [qd], Val(b, vs), |tail|, total)
  {
    WindowReplaced(b, z, w, w2, tail);
    ValAppend(b, qs, qd);
    PowStep(b, |tail|);
    hide Val, Pow;
    AccountArith(Val(b, z + w + tail), Val(b, z + w2 + tail), Val(b, qs), qd, Val(b, vs), b, Pow(b, |tail|));
  }

  /** A window reduced below the divisor starts with a zero digit. */
  lemma WindowAdvances(b: nat, w2: seq<nat>, w: seq<nat>, vs: seq<nat>, qd: nat)
    requires b >= 1 && |w2| == |vs| + 1 && Small(b, vs) && Remainder(b, w2, w, vs, qd)
    ensures w2[0] == 0 && Val(b, w2[1..]) < Val(b, vs)
  {
    ValBound(b, vs);
    ValHeadZero(b, w2);
  }

  /** After `j` quotient digits: u starts with zeros, its next `n` digits are below the divisor,
      and u together with the digits found accounts for the dividend. */
  ghost predicate LoopState(b: nat, us: seq<nat>, qs: seq<nat>, vs: seq<nat>, uo: nat, m: nat, j: nat, total: nat) {
    && b >= 2 && |us| == |qs| == 5 && uo + m + |vs| == 4 && j <= m + 1
    && Small(b, us) && Small(b, vs)
    && (forall k :: 0 <= k < 4 - m ==> qs[k] == 0)
    && (forall k :: 0 <= k < 4 - m + j ==> qs[k] < b)
    && (forall k :: 0 <= k < uo + j ==> us[k] == 0)
    && Val(b, us[uo + j..uo + j + |vs|]) < Val(b, vs)
    && Accounted(b, us, qs[..4 - m + j], Val(b, vs), m + 1 - j, total)
  }

  lemma LoopStart(b: nat, us: seq<nat>, qs: seq<nat>, vs: seq<nat>, uo: nat, m: nat)
    requires b >= 2 && |us| == |qs| == 5 && uo + m + |vs| == 4
    requires Small(b, us) && Small(b, vs)
    requires forall k :: 0 <= k < 4 - m ==> qs[k] == 0
    requires forall k :: 0 <= k < uo ==> us[k] == 0
    requires Val(b, us[uo..uo + |vs|]) < Val(b, vs)
    ensures LoopState(b, us, qs, vs, uo, m, 0, Val(b, us))
  {
    hide Val, Pow, Accounted;
    StartAccount(b, us, qs[..4 - m], Val(b, vs), m + 1);
    assert us[uo + 0..uo + 0 + |vs|] == us[uo..uo + |vs|];
  }

  lemma LoopStep(b: nat, us: seq<nat>, us2: seq<nat>, qs: seq<nat>, qs2: seq<nat>, vs: seq<nat>, uo: nat, m: nat,
                 j: nat, qd: nat, total: nat)
    requires LoopState(b, us, qs, vs, uo, m, j, total) && j <= m && |us2| == 5
    requires forall k :: 0 <= k < 5 ==> us2[k] < b
    requires forall k :: 0 <= k < 5 && !(uo + j <= k <= uo + j + |vs|) ==> us2[k] == us[k]
    requires Remainder(b, us2[uo + j..uo + j + |vs| + 1], us[uo + j..uo + j + |vs| + 1], vs, qd)
    requires qd < b && qs2 == qs[4 - m + j := qd]
    ensures LoopState(b, us2, qs2, vs, uo, m, j + 1, total)
  {
    hide Val, Pow, Accounted, Remainder;
    var n := |vs|;
    var z, w, w2, tail := us[..uo + j], us[uo + j..uo + j + n + 1], us2[uo + j..uo + j + n + 1], us[uo + j + n + 1..];
    assert us == z + w + tail;
    assert us2 == z + w2 + tail;
    assert |tail| == m - j;
    AccountDigit(b, z, w, w2, tail, qs[..4 - m + j], qd, vs, total);
    WindowAdvances(b, w2, w, vs, qd);
    assert qs2[..4 - m + (j + 1)] == qs[..4 - m + j] + [qd];
    assert w2[1..] == us2[uo + (j + 1)..uo + (j + 1) + n];
  }

  lemma SliceToEnd(a: array<nat>, lo: nat, hi: nat)
    requires lo <= hi == a.Length
    ensures a[lo..hi] == a[lo..]
  {
  }

  lemma SliceOfAll(a: array<nat>, lo: nat, hi: nat)
    requires lo <= hi <= a.Length
    ensures a[lo..hi] == a[..][lo..hi]
  {
  }

  method DivideDigits(b: nat, u: array<nat>, uo: nat, v: array<nat>, vo: nat, q: array<nat>, m: nat, n: nat)
    requires u != v && u != q && v != q && n >= 2
    requires u.Length == v.Length == q.Length == 5 && vo + n == 4
    requires forall k :: 0 <= k < 5 ==> v[k] < b
    requires v[vo + 1] > 0
    requires LoopState(b, u[..], q[..], v[vo + 1..], uo, m, 0, Val(b, u[..]))
    modifies u, q
    ensures LoopState(b, u[..], q[..], v[vo + 1..], uo, m, m + 1, old(Val(b, u[..])))
  {
    hide *;
    ghost var vs, total := v[vo + 1..], Val(b, u[..]);
    var j: nat := 0;
    while j <= m
      invariant j <= m + 1 && vs == v[vo + 1..]
      invariant LoopState(b, u[..], q[..], vs, uo, m, j, total)
    {
      label u0: ghost var us, qs := u[..], q[..];
      LoopWindow(b, us, qs, vs, uo, m, j, total);
      SliceToEnd(v, vo + 1, vo + n + 1);
      SliceOfAll(u, uo + j, uo + j + n);
      SliceOfAll(u, uo + j, uo + j + n + 1);
      var qhat := QuotientDigit(b, u, uo + j, v, vo, n);
      q[4 - m + j] := qhat;
      SliceOfAll(u, uo + j, uo + j + n + 1);
      assert us[uo + j..uo + j + n + 1] == old@u0(u[uo + j..uo + j + n + 1]);
      LoopStep(b, us, u[..], qs, q[..], vs, uo, m, j, qhat, total);
      j := j + 1;
    }
  }

  lemma LoopWindow(b: nat, us: seq<nat>, qs: seq<nat>, vs: seq<nat>, uo: nat, m: nat, j: nat, total: nat)
    requires LoopState(b, us, qs, vs, uo, m, j, total)
    ensures b >= 2 && |us| == |qs| == 5 && uo + m + |vs| == 4
    ensures forall k :: 0 <= k < 5 ==> us[k] < b
    ensures j <= m ==> Val(b, us[uo + j..uo + j + |vs|]) < Val(b, vs)
  {
  }

  lemma StartAccount(b: nat, us: seq<nat>, qs: seq<nat>, v: nat, todo: nat)
    requires forall k :: 0 <= k < |qs| ==> qs[k] == 0
    ensures Accounted(b, us, qs, v, todo, Val(b, us))
  {
    ValZeros(b, qs);
    assert 0 * v == 0 && 0 * Pow(b, todo) == 0;
  }

  // ---------- __qdivrem ----------

  /** Trap is the deliberate division by zero. `arq` is None when the caller passed NULL. */
  datatype Outcome = Trap | Done(quotient: nat, arq: Option<nat>)

  lemma ValFive(b: nat, s: seq<nat>)
    requires |s| == 5 && s[0] == 0
    ensures Val(b, s) == Two(b, s[1], s[2]) * (b * b) + Two(b, s[3], s[4])
  {
    assert s == [0] + [s[1], s[2]] + [s[3], s[4]];
    ValConcat(b, [0] + [s[1], s[2]], [s[3], s[4]]);
    ValCons(b, 0, [s[1], s[2]]);
    ValTwo(b, s[1], s[2]);
    ValTwo(b, s[3], s[4]);
    assert 0 * Pow(b, 2) == 0;
    assert Pow(b, 2) == b * (b * Pow(b, 0)) == b * b;
  }

  /** The two halves of a long long. */
  function HighWord(b: nat, x: nat): nat
    requires b > 0
  {
    x / (b * b)
  }

  function LowWord(b: nat, x: nat): nat
    requires b > 0
  {
    x % (b * b)
  }

  lemma HalvesOfWord(b: nat, x: nat)
    requires b > 0 && x < b * b
    ensures HHalf(b, x) < b && LHalf(b, x) < b && Two(b, HHalf(b, x), LHalf(b, x)) == x
  {
    HHalfBound(b, x);
  }

  lemma HalvesOfLong(b: nat, x: nat)
    requires b > 0 && x < (b * b) * (b * b)
    ensures HighWord(b, x) < b * b && LowWord(b, x) < b * b && HighWord(b, x) * (b * b) + LowWord(b, x) == x
  {
    HHalfBound(b * b, x);
  }

  method ToDigits(b: nat, x: nat) returns (a: array<nat>)
    requires b >= 2 && x < (b * b) * (b * b)
    ensures fresh(a) && a.Length == 5 && a[0] == 0
    ensures forall k :: 0 <= k < 5 ==> a[k] < b
    ensures Val(b, a[..]) == x
  {
    HalvesOfLong(b, x);
    hide *;
    var hi, lo := HighWord(b, x), LowWord(b, x);
    HalvesOfWord(b, hi);
    HalvesOfWord(b, lo);
    a := new nat[5];
    a[0] := 0;
    a[1] := HHalf(b, hi);
    a[2] := LHalf(b, hi);
    a[3] := HHalf(b, lo);
    a[4] := LHalf(b, lo);
    ValFive(b, a[..]);
  }

  method FromDigits(b: nat, a: array<nat>) returns (x: nat)
    requires b >= 2 && a.Length == 5 && a[0] == 0
    requires forall k :: 0 <= k < 5 ==> a[k] < b
    ensures x == Val(b, a[..])
  {
    hide *;
    CombineIsTwo(b, a[1], a[2]);
    CombineIsTwo(b, a[3], a[4]);
    x := Combine(b, a[1], a[2]) * (b * b) + Combine(b, a[3], a[4]);
    ValFive(b, a[..]);
  }

  lemma CombineIsTwo(b: nat, x: nat, y: nat)
    requires x < b && y < b
    ensures Combine(b, x, y) == Two(b, x, y)
  {
    CombineVal(b, x, y);
  }

  method ShortStep(b: nat, r: nat, x: nat, t: nat) returns (q: nat, r2: nat)
    requires r < t < b && x < b
    ensures q < b && r2 < t && q * t + r2 == r * b + x
  {
    CombineVal(b, r, x);
    var rbj := Combine(b, r, x);
    q, r2 := QuoRem(rbj, t);
    MulMono(r + 1, t, b);
    Distrib(r, 1, b);
    MulLess(q, b, t);
  }

  lemma ShortChain(b: int, t: int, x: int, q: int, r: int, u: int, q2: int, r2: int)
    requires x == q * t + r && q2 * t + r2 == r * b + u
    ensures x * b + u == (q * b + q2) * t + r2
  {
    assert x * b == (q * t) * b + r * b;
    assert (q * b + q2) * t == (q * t) * b + q2 * t;
  }

  lemma FourDigits(b: int, x: int, y: int, z: int)
    ensures (x * b + y) * b + z == x * (b * b) + (y * b + z)
  {
  }

  /** A one-digit divisor: plain long division, most significant digit first. */
  method ShortDivide(b: nat, u: array<nat>, t: nat) returns (quotient: nat, rem: nat)
    requires b >= 2 && u.Length == 5 && u[0] == 0 && 0 < t < b
    requires forall k :: 0 <= k < 5 ==> u[k] < b
    ensures quotient * t + rem == Val(b, u[..]) && rem < t
  {
    hide *;
    var q1, r1 := QuoRem(u[1], t);
    var q2, r2 := ShortStep(b, r1, u[2], t);
    var q3, r3 := ShortStep(b, r2, u[3], t);
    var q4, r4 := ShortStep(b, r3, u[4], t);
    FirstDigitFits(b, t, u[1], q1, r1);
    CombineVal(b, q1, q2);
    CombineVal(b, q3, q4);
    quotient, rem := Combine(b, q1, q2) * (b * b) + Combine(b, q3, q4), r4;
    ShortTotal(b, t, u[..], q1, r1, q2, r2, q3, r3, q4, r4);
  }

  lemma FirstDigitFits(b: int, t: int, u1: int, q1: int, r1: int)
    requires q1 * t + r1 == u1 && 0 <= r1 && 0 <= q1 && 1 <= t && u1 < b
    ensures q1 < b
  {
    MulMono(1, t, q1);
  }

  /** Four division steps together divide the whole number. */
  lemma ShortTotal(b: nat, t: nat, us: seq<nat>, q1: nat, r1: nat, q2: nat, r2: nat, q3: nat, r3: nat, q4: nat, r4: nat)
    requires |us| == 5 && us[0] == 0 && q1 * t + r1 == us[1] && q2 * t + r2 == r1 * b + us[2]
    requires q3 * t + r3 == r2 * b + us[3] && q4 * t + r4 == r3 * b + us[4]
    ensures ((q1 * b + q2) * (b * b) + (q3 * b + q4)) * t + r4 == Val(b, us)
  {
    hide *;
    var u12, q12 := us[1] * b + us[2], q1 * b + q2;
    ShortChain(b, t, us[1], q1, r1, us[2], q2, r2);
    ShortChain(b, t, u12, q12, r2, us[3], q3, r3);
    ShortChain(b, t, u12 * b + us[3], q12 * b + q3, r3, us[4], q4, r4);
    FourDigits(b, u12, us[3], us[4]);
    FourDigits(b, q12, q3, q4);
    ValFive(b, us);
    TwoMeans(b, us[1], us[2]);
    TwoMeans(b, us[3], us[4]);
  }

  lemma TwoMeans(b: nat, x: nat, y: nat)
    ensures Two(b, x, y) == x * b + y
  {
  }

  // D1: normalise both operands by the same power of two.

  lemma {:induction false} Pow2Order(j: nat, k: nat)
    requires Pow2(j) < Pow2(k)
    ensures j < k
  {
    if k <= j {
      Pow2Add(k, j - k);
      MulMono(1, Pow2(j - k), Pow2(k));
    }
  }

  /** Counts the leading zero bits of a nonzero digit. */
  method LeadingZeroBits(h: nat, v1: nat) returns (d: nat)
    requires h >= 1 && 0 < v1 < Pow2(h)
    ensures d < h && HighBits(Pow2(h - d), v1) == 0
    ensures Pow2(h) / 2 <= v1 * Pow2(d) < Pow2(h)
  {
    var b, t := Pow2(h), v1;
    assert b % 2 == 0;
    assert Pow2(0) == 1;
    hide *;
    d := 0;
    while t < b / 2
      invariant t == v1 * Pow2(d) && 0 < t < b
      decreases b - t
    {
      Doubled(v1, d);
      t := 2 * t;
      d := d + 1;
    }
    ShiftFits(h, d, v1);
  }

  lemma ShiftFits(h: nat, d: nat, v1: nat)
    requires 0 < v1 && v1 * Pow2(d) < Pow2(h)
    ensures d < h && HighBits(Pow2(h - d), v1) == 0
  {
    hide Pow2;
    MulMono(1, v1, Pow2(d));
    Pow2Order(d, h);
    Pow2Add(d, h - d);
    MulLess(v1, Pow2(h - d), Pow2(d));
    DivModUnique(v1, Pow2(h - d), 0, v1);
  }

  lemma Doubled(v1: nat, d: nat)
    ensures 2 * (v1 * Pow2(d)) == v1 * Pow2(d + 1)
  {
  }

  lemma HeadDigits(b: nat, s: seq<nat>, o: nat)
    requires o <= |s| && forall k :: 0 <= k < o ==> s[k] == 0
    ensures Val(b, s) == Val(b, s[o..])
  {
    assert s == s[..o] + s[o..];
    ValConcat(b, s[..o], s[o..]);
    ValZeros(b, s[..o]);
    assert 0 * Pow(b, |s| - o) == 0;
  }

  /** A shift that loses no bits multiplies the value. */
  method ShiftUp(h: nat, p: array<nat>, o: nat, d: nat)
    requires 0 < d < h && o < p.Length
    requires forall k :: 0 <= k < p.Length ==> p[k] < Pow2(h)
    requires HighBits(Pow2(h - d), p[o]) == 0
    modifies p
    ensures forall k :: 0 <= k < p.Length ==> p[k] < Pow2(h)
    ensures forall k :: 0 <= k < o ==> p[k] == old(p[k])
    ensures Val(Pow2(h), p[o..]) == Pow2(d) * old(Val(Pow2(h), p[o..]))
  {
    hide *;
    assert p[o..o + (p.Length - 1 - o) + 1] == p[o..];
    ShiftLeft(h, p, o, p.Length - 1 - o, d);
    assert p[o..o + (p.Length - 1 - o) + 1] == p[o..];
  }

  lemma NoHighBits(c: nat)
    requires c > 0
    ensures HighBits(c, 0) == 0
  {
  }

  /** Scaling up a digit string scales its leading digit at least as much. */
  lemma TopDigit(b: nat, s: nat, vs: seq<nat>, vs2: seq<nat>, least: nat)
    requires b >= 1 && |vs2| == |vs| > 0 && Small(b, vs) && Small(b, vs2)
    requires Val(b, vs2) == s * Val(b, vs) && least <= vs[0] * s
    ensures least <= vs2[0]
  {
    var p := Pow(b, |vs| - 1);
    assert vs == [vs[0]] + vs[1..] && vs2 == [vs2[0]] + vs2[1..];
    LeadingDigits(b, [vs[0]], vs[1..]);
    LeadingDigits(b, [vs2[0]], vs2[1..]);
    ValOne(b, vs[0]);
    ValOne(b, vs2[0]);
    hide *;
    TopDigitArith(vs[0], vs2[0], s, p, Val(b, vs), least);
  }

  lemma TopDigitArith(x: int, y: int, s: int, p: int, v: int, least: int)
    requires x * p <= v && s * v < (y + 1) * p && s >= 0 && p > 0 && least <= x * s
    ensures least <= y
  {
    MulMono(x * p, v, s);
    assert s * (x * p) == (x * s) * p;
    MulLess(x * s, y + 1, p);
  }

  /** Scales both numbers until the divisor's top bit is set. The remainder of the proof does not need that bit: it
      only keeps the estimate from being corrected often. */
  method Normalise(h: nat, u: array<nat>, uo: nat, v: array<nat>, vo: nat) returns (d: nat)
    requires h >= 1 && u != v && u.Length == v.Length == 5 && uo < 4 && vo < 4
    requires forall k :: 0 <= k < 5 ==> u[k] < Pow2(h)
    requires forall k :: 0 <= k < 5 ==> v[k] < Pow2(h)
    requires u[uo] == 0 && v[vo + 1] > 0
    modifies u, v
    ensures d < h
    ensures forall k :: 0 <= k < 5 ==> u[k] < Pow2(h)
    ensures forall k :: 0 <= k < 5 ==> v[k] < Pow2(h)
    ensures forall k :: 0 <= k < uo ==> u[k] == old(u[k])
    ensures Val(Pow2(h), u[uo..]) == Pow2(d) * old(Val(Pow2(h), u[uo..]))
    ensures Val(Pow2(h), v[vo + 1..]) == Pow2(d) * old(Val(Pow2(h), v[vo + 1..]))
    ensures d == 0 ==> u[..] == old(u[..])
    ensures Pow2(h) / 2 <= v[vo + 1]
  {
    assert Pow2(0) == 1;
    hide *;
    ghost var vs := v[vo + 1..];
    d := LeadingZeroBits(h, v[vo + 1]);
    if d > 0 {
      NoHighBits(Pow2(h - d));
      ShiftUp(h, u, uo, d);
      ShiftUp(h, v, vo + 1, d);
    }
    AreSmall(Pow2(h), vs);
    AreSmall(Pow2(h), v[vo + 1..]);
    TopDigit(Pow2(h), Pow2(d), vs, v[vo + 1..], Pow2(h) / 2);
  }

  /** The leading digits of a scaled dividend start below the scaled divisor. */
  lemma FirstWindow(b: nat, s: nat, us: seq<nat>, n: nat, u: nat, v: nat)
    requires b >= 1 && s >= 1 && 0 < n < |us| && Small(b, us)
    requires Val(b, us) == s * u && u < Pow(b, |us| - 1) && v >= Pow(b, n - 1)
    ensures Val(b, us[..n]) < s * v
  {
    var k := |us| - n;
    var p := Pow(b, k);
    assert us == us[..n] + us[n..];
    LeadingDigits(b, us[..n], us[n..]);
    assert Pow(b, |us| - 1) == Pow(b, n - 1) * p by { PowAdd(b, n - 1, k); }
    hide *;
    FirstWindowArith(Val(b, us[..n]), s, u, v, p, Pow(b, n - 1));
  }

  lemma FirstWindowArith(x: int, s: int, u: int, v: int, p: int, pn: int)
    requires x * p <= s * u && u < pn * p && v >= pn && s >= 1 && p >= 1
    ensures x < s * v
  {
    MulMono(u + 1, pn * p, s);
    assert s * u < s * (pn * p);
    MulAssoc(s, pn, p);
    MulLess(x, s * pn, p);
    MulMono(pn, v, s);
  }

  /** Dividing the scaled equation by the scale. */
  lemma Unscale(s: nat, u: nat, v: nat, q: nat, r: nat)
    requires s >= 1 && s * u == q * (s * v) + r && r < s * v
    ensures u - q * v >= 0 && r == s * (u - q * v) && u - q * v < v
  {
    assert q * (s * v) == s * (q * v);
    var x := u - q * v;
    assert s * x == r;
    if x < 0 { MulMono(x, -1, s); }
    MulLess(x, v, s);
  }

  lemma LeadingZeros(b: nat, s: seq<nat>, o: nat)
    requires b >= 1 && o < |s| && Small(b, s) && forall k :: 0 <= k < o ==> s[k] == 0
    ensures Val(b, s) < Pow(b, |s| - o)
    ensures s[o] != 0 ==> Val(b, s) >= Pow(b, |s| - o - 1)
  {
    HeadDigits(b, s, o);
    AreSmall(b, s[o..]);
    ValBound(b, s[o..]);
    if s[o] != 0 { ValTop(b, s[o..]); }
  }

  /** Skips leading zero digits: on return a[o+1] is the first nonzero digit. */
  method SkipZeros(b: nat, a: array<nat>, limit: nat) returns (o: nat)
    requires b >= 1 && a.Length == 5 && a[0] == 0 && limit <= 3
    requires forall k :: 0 <= k < 5 ==> a[k] < b
    requires Val(b, a[..]) >= Pow(b, 3 - limit)
    ensures o <= limit && a[o + 1] != 0
    ensures forall k :: 0 <= k <= o ==> a[k] == 0
  {
    hide *;
    AreSmall(b, a[..]);
    o := 0;
    while a[o + 1] == 0
      invariant o <= limit
      invariant forall k :: 0 <= k <= o ==> a[k] == 0
      decreases limit - o
    {
      ZerosSmall(b, a[..], o);
      o := o + 1;
    }
  }

  lemma ZerosSmall(b: nat, s: seq<nat>, o: nat)
    requires b >= 1 && |s| == 5 && o <= 3 && Small(b, s)
    requires forall k :: 0 <= k <= o + 1 ==> s[k] == 0
    ensures Val(b, s) < Pow(b, 3 - o)
  {
    if o == 3 { ValZeros(b, s); } else { LeadingZeros(b, s, o + 2); }
  }

  /** Up to the digit loop: skip leading zeros, clear the unused quotient digits, normalise. */
  method PrepareLoop(h: nat, u: array<nat>, v: array<nat>, vo: nat, n: nat, q: array<nat>, ghost ull: nat,
                     ghost vll: nat)
    returns (uo: nat, d: nat)
    requires h >= 1 && u != v && u != q && v != q && u.Length == v.Length == q.Length == 5 && n >= 2 && vo + n == 4
    requires forall k :: 0 <= k < 5 ==> u[k] < Pow2(h)
    requires forall k :: 0 <= k < 5 ==> v[k] < Pow2(h)
    requires u[0] == 0 && v[vo + 1] > 0
    requires Val(Pow2(h), u[..]) == ull && Val(Pow2(h), v[vo + 1..]) == vll && ull >= vll > 0
    modifies u, v, q
    ensures uo + n <= 4 && d < h
    ensures forall k :: 0 <= k < 5 ==> v[k] < Pow2(h)
    ensures v[vo + 1] > 0
    ensures Val(Pow2(h), v[vo + 1..]) == Pow2(d) * vll && Val(Pow2(h), u[..]) == Pow2(d) * ull
    ensures LoopState(Pow2(h), u[..], q[..], v[vo + 1..], uo, 4 - n - uo, 0, Val(Pow2(h), u[..]))
  {
    var b := Pow2(h);
    assert b >= 2;
    hide *;
    ghost var us0, vs0 := u[..], v[vo + 1..];
    AreSmall(b, us0);
    ValTop(b, vs0);
    uo := SkipZeros(b, u, 4 - n);
    DividendBelow(b, us0, uo, ull);
    HeadDigits(b, us0, uo);
    var m := 4 - n - uo;
    ClearLeading(q, 4 - m);
    assert us0[uo..] == u[uo..] && vs0 == v[vo + 1..];
    d := Normalise(h, u, uo, v, vo);
    Pow2Positive(d);
    assert u[..][uo..] == u[uo..];
    Prepared(b, Pow2(d), u[..], v[vo + 1..], q[..], uo, m, ull, vll);
  }

  method ClearLeading(q: array<nat>, count: nat)
    requires count <= q.Length
    modifies q
    ensures forall k :: 0 <= k < count ==> q[k] == 0
    ensures forall k :: count <= k < q.Length ==> q[k] == old(q[k])
  {
    var i := count;
    while i > 0
      invariant 0 <= i <= count
      invariant forall k :: i <= k < count ==> q[k] == 0
      invariant forall k :: count <= k < q.Length ==> q[k] == old(q[k])
    {
      i := i - 1;
      q[i] := 0;
    }
  }

  lemma Prepared(b: nat, s: nat, us: seq<nat>, vs: seq<nat>, qs: seq<nat>, uo: nat, m: nat, ull: nat, vll: nat)
    requires b >= 2 && s >= 1 && |us| == |qs| == 5 && |vs| >= 2 && uo + m + |vs| == 4
    requires forall k :: 0 <= k < 5 ==> us[k] < b
    requires forall k :: 0 <= k < |vs| ==> vs[k] < b
    requires forall k :: 0 <= k < 4 - m ==> qs[k] == 0
    requires forall k :: 0 <= k < uo ==> us[k] == 0
    requires Val(b, us[uo..]) == s * ull && Val(b, vs) == s * vll
    requires ull < Pow(b, 4 - uo) && vll >= Pow(b, |vs| - 1)
    ensures Val(b, us) == s * ull && vs[0] > 0
    ensures LoopState(b, us, qs, vs, uo, m, 0, Val(b, us))
  {
    hide *;
    ScaledDivisor(b, s, vs, vll);
    AreSmall(b, us);
    AreSmall(b, vs);
    AreSmall(b, us[uo..]);
    FirstWindow(b, s, us[uo..], |vs|, ull, vll);
    assert us[uo..][..|vs|] == us[uo..uo + |vs|];
    HeadDigits(b, us, uo);
    LoopStart(b, us, qs, vs, uo, m);
  }

  /** The general case: a divisor of n >= 2 digits. */
  method DivideLong(h: nat, u: array<nat>, v: array<nat>, vo: nat, n: nat, ghost ull: nat, ghost vll: nat,
                    wantRem: bool) returns (r: Outcome)
    requires h >= 1 && u != v && u.Length == v.Length == 5 && n >= 2 && vo + n == 4
    requires forall k :: 0 <= k < 5 ==> u[k] < Pow2(h)
    requires forall k :: 0 <= k < 5 ==> v[k] < Pow2(h)
    requires u[0] == 0 && v[vo + 1] > 0
    requires Val(Pow2(h), u[..]) == ull && Val(Pow2(h), v[vo + 1..]) == vll && ull >= vll > 0
    modifies u, v
    ensures r.Done? && r.quotient * vll <= ull < (r.quotient + 1) * vll
    ensures r.arq == if wantRem then Some(ull - r.quotient * vll) else None
  {
    var b := Pow2(h);
    assert b >= 2;
    hide *;
    var q := new nat[5];
    var uo, d := PrepareLoop(h, u, v, vo, n, q, ull, vll);
    var m := 4 - n - uo;
    DivideDigits(b, u, uo, v, vo, q, m, n);
    ghost var s, qv := Pow2(d), Val(b, q[..]);
    Pow2Positive(d);
    LoopEnd(b, u[..], q[..], v[vo + 1..], uo, m, s * ull);
    Unscale(s, ull, vll, qv, Val(b, u[..]));
    var quotient := FromDigits(b, q);
    var arq := None;
    if wantRem {
      var rem := Unnormalise(h, u, uo + m, n, d, ull - qv * vll);
      arq := Some(rem);
    }
    r := Done(quotient, arq);
    Distrib(qv, 1, vll);
  }

  method Unnormalise(h: nat, u: array<nat>, o: nat, n: nat, d: nat, ghost x: nat) returns (rem: nat)
    requires d < h && u.Length == 5 && n >= 2 && o + n == 4
    requires forall k :: 0 <= k < 5 ==> u[k] < Pow2(h)
    requires forall k :: 0 <= k <= o ==> u[k] == 0
    requires Val(Pow2(h), u[..]) == Pow2(d) * x
    modifies u
    ensures rem == x
  {
    ghost var b := Pow2(h);
    assert b >= 2;
    UnitScale(x);
    hide *;
    if d != 0 {
      HeadDigits(b, u[..], o);
      assert u[..][o..] == u[o..o + n + 1];
      ShiftRight(h, u, o, n, d, x);
      HeadDigits(b, u[..], o + 1);
      assert u[..][o + 1..] == u[o + 1..o + n + 1];
    }
    rem := FromDigits(Pow2(h), u);
  }

  lemma UnitScale(x: int)
    ensures Pow2(0) * x == x
  {
  }

  lemma Pow2Positive(d: nat)
    ensures Pow2(d) >= 1
  {
  }

  lemma DividendBelow(b: nat, us: seq<nat>, uo: nat, u: nat)
    requires b >= 1 && |us| == 5 && uo < 4 && Small(b, us) && Val(b, us) == u
    requires forall k :: 0 <= k <= uo ==> us[k] == 0
    ensures u < Pow(b, 4 - uo)
  {
    LeadingZeros(b, us, uo + 1);
  }

  lemma ScaledDivisor(b: nat, s: nat, vs: seq<nat>, v: nat)
    requires b >= 1 && s >= 1 && |vs| >= 1 && Val(b, vs) == s * v && v >= Pow(b, |vs| - 1)
    requires forall k :: 0 <= k < |vs| ==> vs[k] < b
    ensures vs[0] > 0
  {
    AreSmall(b, vs);
    MulMono(1, s, v);
    HeadZeroSmall(b, vs);
  }

  lemma HeadZeroSmall(b: nat, s: seq<nat>)
    requires b >= 1 && |s| >= 1 && Small(b, s)
    ensures s[0] == 0 ==> Val(b, s) < Pow(b, |s| - 1)
  {
    AreSmall(b, s[1..]);
    ValBound(b, s[1..]);
    assert 0 * Pow(b, |s| - 1) == 0;
  }

  lemma LoopEnd(b: nat, us: seq<nat>, qs: seq<nat>, vs: seq<nat>, uo: nat, m: nat, total: nat)
    requires LoopState(b, us, qs, vs, uo, m, m + 1, total)
    ensures |us| == |qs| == 5 && m <= 4 && total == Val(b, qs) * Val(b, vs) + Val(b, us) && Val(b, us) < Val(b, vs)
    ensures forall k :: 0 <= k < 5 ==> us[k] < b && qs[k] < b
    ensures forall k :: 0 <= k < 4 - m ==> qs[k] == 0
    ensures forall k :: 0 <= k <= uo + m ==> us[k] == 0
  {
    LoopEndParts(b, us, qs, vs, uo, m, total);
    hide *;
    AccountedMeans(b, us, qs, Val(b, vs), total);
  }

  lemma LoopEndParts(b: nat, us: seq<nat>, qs: seq<nat>, vs: seq<nat>, uo: nat, m: nat, total: nat)
    requires LoopState(b, us, qs, vs, uo, m, m + 1, total)
    ensures |us| == |qs| == 5 && m <= 4 && Accounted(b, us, qs, Val(b, vs), 0, total) && Val(b, us) < Val(b, vs)
    ensures forall k :: 0 <= k < 5 ==> us[k] < b && qs[k] < b
    ensures forall k :: 0 <= k < 4 - m ==> qs[k] == 0
    ensures forall k :: 0 <= k <= uo + m ==> us[k] == 0
  {
    hide Val, Pow, Accounted;
    HeadDigits(b, us, uo + m + 1);
    assert us[uo + m + 1..] == us[uo + (m + 1)..uo + (m + 1) + |vs|];
    assert qs[..4 - m + (m + 1)] == qs;
  }

  lemma AccountedMeans(b: nat, us: seq<nat>, qs: seq<nat>, v: nat, total: nat)
    requires Accounted(b, us, qs, v, 0, total)
    ensures total == Val(b, qs) * v + Val(b, us)
  {
    assert Pow(b, 0) == 1;
  }

  lemma IsDivision(q: nat, v: nat, rem: nat, u: nat)
    requires q * v + rem == u && rem < v
    ensures q * v <= u < (q + 1) * v && u - q * v == rem
  {
  }

  lemma LastDigit(b: nat, s: seq<nat>, v: nat)
    requires |s| == 5 && (forall k :: 0 <= k < 4 ==> s[k] == 0) && Val(b, s) == v
    ensures s[4] == v
  {
    HeadDigits(b, s, 4);
    assert s[4..] == [s[4]];
    ValOne(b, s[4]);
  }

  /** __qdivrem: for any half-word width h, the quotient and (if asked for) the remainder. */
  method QDivRem(h: nat, ull: nat, vll: nat, wantRem: bool) returns (r: Outcome)
    requires h >= 1 && ull < Pow2(4 * h) && vll < Pow2(4 * h)
    ensures vll == 0 <==> r.Trap?
    ensures vll != 0 ==> r.quotient * vll <= ull < (r.quotient + 1) * vll
    ensures vll != 0 ==> r.arq == if wantRem then Some(ull - r.quotient * vll) else None
  {
    var b := Pow2(h);
    assert b >= 2;
    FourHalves(h);
    hide *;
    if vll == 0 {
      return Trap;
    }
    if ull < vll {
      IsDivision(0, vll, ull, ull);
      return Done(0, if wantRem then Some(ull) else None);
    }
    var u := ToDigits(b, ull);
    var v := ToDigits(b, vll);
    var n, vo := 4, 0;
    while v[vo + 1] == 0
      invariant vo + n == 4 && 2 <= n
      invariant forall k :: 0 <= k <= vo ==> v[k] == 0
      decreases n
    {
      n := n - 1;
      if n == 1 {
        LastDigit(b, v[..], vll);
        var q, rem := ShortDivide(b, u, v[vo + 2]);
        IsDivision(q, vll, rem, ull);
        return Done(q, if wantRem then Some(rem) else None);
      }
      vo := vo + 1;
    }
    HeadDigits(b, v[..], vo + 1);
    assert v[..][vo + 1..] == v[vo + 1..];
    r := DivideLong(h, u, v, vo, n, ull, vll, wantRem);
  }

  lemma FourHalves(h: nat)
    ensures Pow2(4 * h) == (Pow2(h) * Pow2(h)) * (Pow2(h) * Pow2(h))
  {
    hide Pow2;
    Pow2Add(h, h);
    Pow2Add(2 * h, 2 * h);
    assert 2 * h + 2 * h == 4 * h && h + h == 2 * h;
  }
}
