/** The three-multiplication product (The Art of Computer Programming, volume 2, section 4.3.3):
    an exact double-word product of two words, and the long-long product modulo its width. */
module LongMultiply {
  import opened Bits
  import opened Digits
  import opened LongSigned

  /** (x + y) modulo m does not depend on whether x was reduced first. */
  lemma ModAdd(x: int, y: int, m: int)
    requires m > 0
    ensures (x % m + y) % m == (x + y) % m
  {
    var k := x / m;
    assert x == m * k + x % m;
    ModShift(x % m + y, m, k);
  }

  lemma ModShift(x: int, m: int, k: int)
    requires m > 0
    ensures (x + m * k) % m == x % m
  {
    var q, r := x / m, x % m;
    assert x == m * q + r;
    assert x + m * k == m * (q + k) + r;
    DivModUnique(x + m * k, m, q + k, r);
  }

  lemma ModNegate(x: int, m: int)
    requires m > 0
    ensures (0 - x % m) % m == (0 - x) % m
  {
    var k := x / m;
    assert x == m * k + x % m;
    assert 0 - x % m == (0 - x) + m * k;
    ModShift(0 - x, m, k);
  }

  /** Unsigned arithmetic wraps at the word size. */
  function Word(w: nat, x: int): nat
    requires w > 0
  {
    x % w
  }

  /** Unsigned wrap-around in a low word shows as the result passing the operand. */
  lemma WordCarry(w: nat, l: nat, lo: nat)
    requires l < w && lo < w
    ensures var s := Word(w, l + lo);
            var c := if s < l then 1 else 0;
            s < w && l + lo == c * w + s && (s < l <==> s < lo)
    ensures var d := Word(w, l - lo); var c := if d > l then 1 else 0; d < w && l + (0 - lo) == (0 - c) * w + d
  {
    if l + lo < w { DivModUnique(l + lo, w, 0, l + lo); } else { DivModUnique(l + lo, w, 1, l + lo - w); }
    if l >= lo { DivModUnique(l - lo, w, 0, l - lo); } else { DivModUnique(l - lo, w, -1, l - lo + w); }
  }

  /** The two-word number (h, l) is `t` modulo w^2. */
  ghost predicate Holds(w: nat, h: nat, l: nat, t: int) {
    w > 0 && h < w && l < w && h * w + l == t % (w * w)
  }

  /** `x` spread over two words. */
  ghost predicate Spread(w: nat, hi: nat, lo: nat, x: int) {
    lo < w && hi * w + lo == x
  }

  /** Adds hi*w + lo to the two-word number (h, l): the carry is the wrap of the low word. */
  method AddLong(w: nat, h: nat, l: nat, hi: nat, lo: nat, ghost t: int, ghost x: int) returns (h2: nat, l2: nat)
    requires w > 0 && Holds(w, h, l, t) && Spread(w, hi, lo, x)
    ensures Holds(w, h2, l2, t + x)
  {
    WordCarry(w, l, lo);
    HoldsWords(w, h, l, t);
    SpreadMeans(w, hi, lo, x);
    hide *;
    var was := l;
    l2 := Word(w, l + lo);
    var carry := if l2 < was then 1 else 0;
    h2 := Word(w, h + (hi + carry));
    CarryHolds(w, h, l, hi, lo, t, x, carry, l2, h2);
  }

  lemma CarryHolds(w: nat, h: nat, l: nat, hi: int, lo: int, t: int, x: int, carry: int, l2: nat, h2: nat)
    requires w > 0 && Holds(w, h, l, t) && hi * w + lo == x
    requires l2 < w && l + lo == carry * w + l2 && h2 == Word(w, h + (hi + carry))
    ensures Holds(w, h2, l2, t + x)
  {
    CarryArith(w, h, l, hi, lo, carry, l2, h2);
    ModAdd(t, x, w * w);
  }

  lemma HoldsWords(w: nat, h: nat, l: nat, t: int)
    requires Holds(w, h, l, t)
    ensures h < w && l < w
  {
  }

  lemma SpreadMeans(w: nat, hi: nat, lo: nat, x: int)
    requires Spread(w, hi, lo, x)
    ensures lo < w && hi * w + lo == x
  {
  }

  lemma CarryArith(w: int, h: int, l: int, hi: int, lo: int, carry: int, l2: int, h2: int)
    requires w > 0 && 0 <= l2 < w && l + lo == carry * w + l2 && h2 == (h + (hi + carry)) % w
    ensures 0 <= h2 < w && h2 * w + l2 == (h * w + l + hi * w + lo) % (w * w)
  {
    var k := (h + (hi + carry)) / w;
    assert h + hi + carry == w * k + h2;
    assert h * w + hi * w + carry * w == (h + hi + carry) * w;
    assert (w * k + h2) * w == (w * w) * k + h2 * w;
    TwoDigitBound(w, h2, l2);
    DivModUnique(h * w + l + hi * w + lo, w * w, k, h2 * w + l2);
  }

  /** Subtracts hi*w + lo from the two-word number (h, l). */
  method SubtractLong(w: nat, h: nat, l: nat, hi: nat, lo: nat, ghost t: int, ghost x: int) returns (h2: nat, l2: nat)
    requires w > 0 && Holds(w, h, l, t) && Spread(w, hi, lo, x)
    ensures Holds(w, h2, l2, t - x)
  {
    WordCarry(w, l, lo);
    HoldsWords(w, h, l, t);
    SpreadMeans(w, hi, lo, x);
    hide *;
    var was := l;
    l2 := Word(w, l - lo);
    var borrow := if l2 > was then 1 else 0;
    h2 := Word(w, h - (hi + borrow));
    assert (0 - hi) * w == 0 - hi * w;
    CarryHolds(w, h, l, 0 - hi, 0 - lo, t, 0 - x, 0 - borrow, l2, h2);
  }

  /** x << N as a two-word number: HHALF(x) above LHUP(x). */
  lemma ShiftedWord(b: nat, x: nat)
    requires b > 0 && x < b * b
    ensures Spread(b * b, HHalf(b, x), LHup(b, x), x * b)
  {
    var q, r := x / b, x % b;
    assert x == b * q + r;
    MulSplit(b, x, q, r);
    TwoDigitBound(b, r, 0);
    DivModUnique(x * b, b * b, q, r * b);
  }

  /** The sum the three products add up to; `mid` may be negative. */
  ghost function Total(b: int, high: int, mid: int, low: int): int {
    high * (b * b) + high * b + mid * b + low * b + low
  }

  lemma ThreeProducts(b: int, u1: int, u0: int, v1: int, v0: int)
    ensures (u1 * b + u0) * (v1 * b + v0) == Total(b, u1 * v1, (u1 - u0) * (v0 - v1), u0 * v0)
  {
    hide *;
    ProductExpands(b, u1, u0, v1, v0);
    MiddleTerm(u1, u0, v1, v0);
    TotalArith(b, u1 * v1, u1 * v0 + u0 * v1, u0 * v0);
  }

  lemma ProductExpands(b: int, u1: int, u0: int, v1: int, v0: int)
    ensures (u1 * b + u0) * (v1 * b + v0) == (u1 * v1) * (b * b) + (u1 * v0 + u0 * v1) * b + u0 * v0
  {
    assert (u1 * b) * (v1 * b) == (u1 * v1) * (b * b);
    assert (u1 * b) * v0 == (u1 * v0) * b && u0 * (v1 * b) == (u0 * v1) * b;
  }

  lemma MiddleTerm(u1: int, u0: int, v1: int, v0: int)
    ensures (u1 - u0) * (v0 - v1) == (u1 * v0 + u0 * v1) - u1 * v1 - u0 * v0
  {
  }

  lemma TotalArith(b: int, h: int, m: int, l: int)
    ensures h * (b * b) + m * b + l == Total(b, h, m - h - l, l)
  {
    assert (m - h - l) * b == m * b - h * b - l * b;
  }

  /** Difference and sign, as computed without negative numbers. */
  method Difference(x: nat, y: nat) returns (d: nat, neg: bool)
    ensures (if neg then 0 - d else d) == x - y && (neg ==> d > 0) && (d <= x || d <= y)
  {
    if x >= y {
      d, neg := x - y, false;
    } else {
      d, neg := y - x, true;
    }
  }

  lemma SignedProduct(d: int, e: int, n: bool, k: bool, x: int, y: int)
    requires (if n then 0 - d else d) == x && (if k then 0 - e else e) == y
    ensures (if n != k then 0 - d * e else d * e) == x * y
  {
    assert (0 - d) * e == 0 - d * e && d * (0 - e) == 0 - d * e && (0 - d) * (0 - e) == d * e;
  }

  lemma DigitProduct(b: nat, x: nat, y: nat)
    requires x < b && y < b
    ensures 0 <= x * y < b * b
  {
    MulMono(0, x, y);
    MulMono(x, b - 1, y);
    MulMono(y, b, b - 1);
    Distrib(b, 1, b);
  }

  /** __lmulq: the exact product of two words, as a two-word number. */
  method MultiplyWords(b: nat, u: nat, v: nat) returns (prodh: nat, prodl: nat)
    requires b >= 2 && u < b * b && v < b * b
    ensures prodh < b * b && prodl < b * b && prodh * (b * b) + prodl == u * v
  {
    hide *;
    var u1, u0, v1, v0 := HHalf(b, u), LHalf(b, u), HHalf(b, v), LHalf(b, v);
    Halves(b, u);
    Halves(b, v);
    TwoWordBound(b * b, u, v);
    prodh, prodl := MultiplyHalves(b, b * b, u1, u0, v1, v0, u * v);
  }

  lemma Halves(b: nat, x: nat)
    requires b > 0 && x < b * b
    ensures HHalf(b, x) < b && LHalf(b, x) < b && HHalf(b, x) * b + LHalf(b, x) == x
  {
    HHalfBound(b, x);
  }

  lemma SmallProduct(b: int, u1: int, u0: int, v1: int, v0: int)
    requires u1 == 0 && v1 == 0
    ensures (u1 * b + u0) * (v1 * b + v0) == u0 * v0
  {
  }

  lemma LowOnly(w: int, l: int)
    ensures 0 * w + l == l
  {
  }

  method MultiplyHalves(b: nat, w: nat, u1: nat, u0: nat, v1: nat, v0: nat, ghost p: nat)
    returns (prodh: nat, prodl: nat)
    requires b >= 2 && w == b * b && u1 < b && u0 < b && v1 < b && v0 < b
    requires p == (u1 * b + u0) * (v1 * b + v0) && p < w * w
    ensures prodh < w && prodl < w && prodh * w + prodl == p
  {
    hide *;
    DigitProduct(b, u0, v0);
    if u1 == 0 && v1 == 0 {
      SmallProduct(b, u1, u0, v1, v0);
      LowOnly(w, u0 * v0);
      return 0, u0 * v0;
    }
    prodh, prodl := CrossProducts(b, w, u1, u0, v1, v0);
    HoldsExactly(w, prodh, prodl, p);
  }

  /** The general case: three products of halves. */
  method CrossProducts(b: nat, w: nat, u1: nat, u0: nat, v1: nat, v0: nat) returns (prodh: nat, prodl: nat)
    requires b >= 2 && w == b * b && u1 < b && u0 < b && v1 < b && v0 < b
    ensures Holds(w, prodh, prodl, (u1 * b + u0) * (v1 * b + v0))
  {
    hide *;
    var udiff, nu := Difference(u1, u0);
    var vdiff, nv := Difference(v0, v1);
    DigitProduct(b, u0, v0);
    DigitProduct(b, udiff, vdiff);
    DigitProduct(b, u1, v1);
    prodh, prodl := AssembleProduct(b, w, u1 * v1, udiff * vdiff, u0 * v0, nu != nv);
    HalvesTotal(b, u1, u0, v1, v0, udiff, nu, vdiff, nv);
  }

  /** The three products, the middle one with the sign of the two differences, make the whole. */
  lemma HalvesTotal(b: int, u1: int, u0: int, v1: int, v0: int, udiff: int, nu: bool, vdiff: int, nv: bool)
    requires (if nu then 0 - udiff else udiff) == u1 - u0 && (if nv then 0 - vdiff else vdiff) == v0 - v1
    ensures Total(b, u1 * v1, if nu != nv then 0 - udiff * vdiff else udiff * vdiff, u0 * v0) ==
            (u1 * b + u0) * (v1 * b + v0)
  {
    hide *;
    SignedProduct(udiff, vdiff, nu, nv, u1 - u0, v0 - v1);
    ThreeProducts(b, u1, u0, v1, v0);
  }

  lemma HoldsExactly(w: nat, h: nat, l: nat, t: nat)
    requires Holds(w, h, l, t) && t < w * w
    ensures h < w && l < w && h * w + l == t
  {
    SmallMod(t, w * w);
  }

  lemma TwoWordBound(w: nat, u: nat, v: nat)
    requires u < w && v < w
    ensures 0 <= u * v < w * w
  {
    MulMono(0, u, v);
    MulMono(u, w - 1, v);
    MulMono(v, w, w - 1);
    Distrib(w, 1, w);
  }

  /** Adds a word: the carry shows as the sum being below the word added. */
  method AddWord(w: nat, h: nat, l: nat, lo: nat, ghost t: int) returns (h2: nat, l2: nat)
    requires lo < w && Holds(w, h, l, t)
    ensures Holds(w, h2, l2, t + lo)
  {
    HoldsWords(w, h, l, t);
    WordCarry(w, l, lo);
    assert Word(w, h) == h by { SmallMod(h, w); }
    hide *;
    l2 := Word(w, l + lo);
    h2 := h;
    if l2 < lo {
      h2 := Word(w, h2 + 1);
    }
    CarryHolds(w, h, l, 0, lo, t, lo, if l2 < lo then 1 else 0, l2, h2);
  }

  /** (high << 2N) + (high << N) +- (mid << N) + (low << N) + low, in two words with all carries. */
  method AssembleProduct(b: nat, w: nat, high: nat, mid: nat, low: nat, neg: bool) returns (prodh: nat, prodl: nat)
    requires b >= 2 && w == b * b && high < w && mid < w && low < w
    ensures Holds(w, prodh, prodl, Total(b, high, if neg then 0 - mid else mid, low))
  {
    ghost var hw, hb, mb, lb := high * w, high * b, mid * b, low * b;
    TotalMeans(b, high, mid, low, neg);
    ShiftedWord(b, high);
    ShiftedWord(b, mid);
    ShiftedWord(b, low);
    hide *;
    prodh, prodl := FirstWord(b, w, high, hb);
    ghost var t1 := if neg then hw + hb - mb else hw + hb + mb;
    if neg {
      prodh, prodl := SubtractLong(w, prodh, prodl, HHalf(b, mid), LHup(b, mid), hw + hb, mb);
    } else {
      prodh, prodl := AddLong(w, prodh, prodl, HHalf(b, mid), LHup(b, mid), hw + hb, mb);
    }
    prodh, prodl := AddLong(w, prodh, prodl, HHalf(b, low), LHup(b, low), t1, lb);
    prodh, prodl := AddWord(w, prodh, prodl, low, t1 + lb);
  }

  lemma TotalMeans(b: int, high: int, mid: int, low: int, neg: bool)
    ensures Total(b, high, if neg then 0 - mid else mid, low) ==
            (if neg then high * (b * b) + high * b - mid * b else high * (b * b) + high * b + mid * b) + low * b + low
  {
    assert (0 - mid) * b == 0 - mid * b;
  }

  method FirstWord(b: nat, w: nat, high: nat, ghost x: int) returns (prodh: nat, prodl: nat)
    requires b > 0 && w > 0 && Spread(w, HHalf(b, high), LHup(b, high), x)
    ensures Holds(w, prodh, prodl, high * w + x)
  {
    SpreadMeans(w, HHalf(b, high), LHup(b, high), x);
    hide HHalf, LHup;
    prodh, prodl := Word(w, high + HHalf(b, high)), LHup(b, high);
    CarryArith(w, high, prodl, HHalf(b, high), 0, 0, prodl, prodh);
  }

  // ---------- __muldi3 ----------

  ghost function High3(u1: int, u0: int, v1: int, v0: int, lowh: int, lowl: int): int {
    u1 * v1 + (u1 - u0) * (v0 - v1) + lowl + lowh
  }

  /** Modulo w^2, the product is the low product plus w times three word products. */
  lemma ProductModulo(w: int, u1: int, u0: int, v1: int, v0: int, lowh: int, lowl: int)
    requires u0 * v0 == lowh * w + lowl
    ensures (u1 * w + u0) * (v1 * w + v0) == High3(u1, u0, v1, v0, lowh, lowl) * w + lowl + (w * w) * (u1 * v1 + lowh)
  {
    ThreeProducts(w, u1, u0, v1, v0);
    var h, m := u1 * v1, (u1 - u0) * (v0 - v1);
    assert (u0 * v0) * w == (w * w) * lowh + lowl * w;
    assert (h + m + lowl + lowh) * w == h * w + m * w + lowl * w + lowh * w;
    assert (w * w) * (h + lowh) == h * (w * w) + (w * w) * lowh;
  }

  /** A word that is `x` modulo w, above `lo`, is x*w + lo modulo w^2. */
  lemma HighWordModulo(w: int, x: int, hi: int, lo: int, k: int)
    requires w > 0 && hi == x % w && 0 <= lo < w
    ensures hi * w + lo == (x * w + lo + (w * w) * k) % (w * w)
  {
    CarryArith(w, x, lo, 0, 0, 0, lo, hi);
    ModShift(x * w + lo, w * w, k);
  }

  /** Sums of words reduced on the way have the same remainder. */
  lemma WordSum(w: int, high: int, mid: int, neg: bool, l: int, h: int)
    requires w > 0
    ensures (high % w + (if neg then (0 - mid % w) % w else mid % w) + l + h) % w ==
            (high + (if neg then 0 - mid else mid) + l + h) % w
  {
    var m := if neg then 0 - mid else mid;
    if neg { ModNegate(mid, w); }
    ModAdd(high, m % w + l + h, w);
    ModAdd(m, high + l + h, w);
  }

  /** u*v modulo w^2 from two-word operands. */
  method MultiplyLong(b: nat, w: nat, u1: nat, u0: nat, v1: nat, v0: nat) returns (prodh: nat, prodl: nat)
    requires b >= 2 && w == b * b && w > 0 && u1 < w && u0 < w && v1 < w && v0 < w
    ensures prodh < w && prodl < w
    ensures prodh * w + prodl == ((u1 * w + u0) * (v1 * w + v0)) % (w * w)
  {
    hide *;
    var lowh, lowl := MultiplyWords(b, u0, v0);
    if u1 == 0 && v1 == 0 {
      SmallProduct(w, u1, u0, v1, v0);
      TwoWordBound(w, u0, v0);
      SmallMod(u0 * v0, w * w);
      return lowh, lowl;
    }
    prodh := HighWordOf(w, u1, u0, v1, v0, lowh, lowl);
    prodl := lowl;
    LongProduct(w, u1, u0, v1, v0, lowh, lowl, prodh);
  }

  /** The high word, up to what is above it. */
  method HighWordOf(w: nat, u1: nat, u0: nat, v1: nat, v0: nat, lowh: nat, lowl: nat) returns (prodh: nat)
    requires w > 0
    ensures prodh == High3(u1, u0, v1, v0, lowh, lowl) % w
  {
    hide *;
    var udiff, nu := Difference(u1, u0);
    var vdiff, nv := Difference(v0, v1);
    var mid, high := (udiff * vdiff) % w, (u1 * v1) % w;
    var signedMid := if nu != nv then (0 - mid) % w else mid;
    prodh := (high + signedMid + lowl + lowh) % w;
    HighWordSum(w, u1, u0, v1, v0, udiff, nu, vdiff, nv, lowl, lowh);
  }

  /** The high word as the source sums it, reducing on the way. */
  lemma HighWordSum(w: int, u1: int, u0: int, v1: int, v0: int, udiff: int, nu: bool, vdiff: int, nv: bool,
                    lowl: int, lowh: int)
    requires w > 0 && (if nu then 0 - udiff else udiff) == u1 - u0 && (if nv then 0 - vdiff else vdiff) == v0 - v1
    ensures var mid := (udiff * vdiff) % w;
            ((u1 * v1) % w + (if nu != nv then (0 - mid) % w else mid) + lowl + lowh) % w ==
            High3(u1, u0, v1, v0, lowh, lowl) % w
  {
    hide *;
    SignedProduct(udiff, vdiff, nu, nv, u1 - u0, v0 - v1);
    WordSum(w, u1 * v1, udiff * vdiff, nu != nv, lowl, lowh);
    High3Means(u1, u0, v1, v0, lowh, lowl);
  }

  lemma LongProduct(w: int, u1: int, u0: int, v1: int, v0: int, lowh: int, lowl: int, hi: int)
    requires w > 0 && u0 * v0 == lowh * w + lowl && 0 <= lowl < w && hi == High3(u1, u0, v1, v0, lowh, lowl) % w
    ensures 0 <= hi < w && hi * w + lowl == ((u1 * w + u0) * (v1 * w + v0)) % (w * w)
  {
    hide *;
    HighWordModulo(w, High3(u1, u0, v1, v0, lowh, lowl), hi, lowl, u1 * v1 + lowh);
    ProductModulo(w, u1, u0, v1, v0, lowh, lowl);
  }

  lemma High3Means(u1: int, u0: int, v1: int, v0: int, lowh: int, lowl: int)
    ensures High3(u1, u0, v1, v0, lowh, lowl) == u1 * v1 + (u1 - u0) * (v0 - v1) + lowl + lowh
  {
  }

  lemma SignedModulo(m: int, x: int, y: int, neg: bool, p: int)
    requires m > 0 && p == (Abs(x) * Abs(y)) % m && neg == ((x < 0) != (y < 0))
    ensures (if neg then (0 - p) % m else p) == (x * y) % m
  {
    SignedProduct(Abs(x), Abs(y), x < 0, y < 0, x, y);
    ModNegate(Abs(x) * Abs(y), m);
  }

  /** __muldi3: the product modulo the width, for all two's complement operands. */
  method Multiply(h: nat, a: int, c: int) returns (r: int)
    requires h >= 1 && InRange(Pow2(4 * h), a) && InRange(Pow2(4 * h), c)
    ensures r == Signed(Pow2(4 * h), (a * c) % Pow2(4 * h))
  {
    var b := Pow2(h);
    var m := Pow2(4 * h);
    assert b >= 2;
    LongDivide.FourHalves(h);
    ModulusIsEven(h);
    Magnitude(m, a);
    Magnitude(m, c);
    hide *;
    var u, negall := a % m, false;
    if a < 0 { u, negall := Negate(m, u), true; }
    var v := c % m;
    if c < 0 { v, negall := Negate(m, v), !negall; }
    LongDivide.HalvesOfLong(b, u);
    LongDivide.HalvesOfLong(b, v);
    var prodh, prodl := MultiplyLong(b, b * b, LongDivide.HighWord(b, u), LongDivide.LowWord(b, u),
                                     LongDivide.HighWord(b, v), LongDivide.LowWord(b, v));
    var prod := prodh * (b * b) + prodl;
    SignedModulo(m, a, c, negall, prod);
    NegateMeans(m, prod);
    r := Signed(m, if negall then Negate(m, prod) else prod);
  }

  lemma NegateMeans(m: nat, x: nat)
    requires m > 0
    ensures Negate(m, x) == (0 - x) % m
  {
  }
}
