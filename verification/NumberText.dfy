/** Numbers as text: the digit buffer that printf fills from the right, and atoi. */
module NumberText {
  import Bits

  const WORD := 0x1_0000_0000
  const LONG := 0x1_0000_0000_0000_0000
  const NUMBER_BUF_SIZE := 64 / 3 + 2

  const DIGITS := "0123456789abcdef"

  function DigitChar(d: nat): char
    requires d < 16
  {
    DIGITS[d]
  }

  /** The shortest text of `n` in a base, most significant digit first. */
  function Text(n: nat, base: nat): (s: string)
    requires 2 <= base <= 16
    ensures |s| >= 1
  {
    if n < base then [DigitChar(n)] else Text(n / base, base) + [DigitChar(n % base)]
  }

  /** A number below 8^k has at most k digits in base 8 and above. */
  lemma {:induction false} TextLength(n: nat, base: nat, k: nat)
    requires 8 <= base <= 16 && k >= 1 && n < Bits.Pow(8, k)
    ensures |Text(n, base)| <= k
    decreases k
  {
    assert Bits.Pow(8, 1) == 8 && Bits.Pow(8, k) == 8 * Bits.Pow(8, k - 1);
    if n >= base {
      Quotient(n, base, Bits.Pow(8, k - 1));
      TextLength(n / base, base, k - 1);
    }
  }

  lemma Quotient(n: nat, base: nat, p: nat)
    requires 8 <= base <= 16 && n < 8 * p
    ensures n / base < p
  {
    if base == 8 {
    } else if base == 9 {
    } else if base == 10 {
    } else if base == 11 {
    } else if base == 12 {
    } else if base == 13 {
    } else if base == 14 {
    } else if base == 15 {
    } else {
      assert base == 16;
    }
  }

  /** Every 64-bit number fits the buffer with its terminator ... */
  lemma BufferSuffices(n: nat, base: nat)
    requires n < LONG && 8 <= base <= 16
    ensures |Text(n, base)| <= NUMBER_BUF_SIZE - 1
  {
    EightToTheTwentyTwo();
    TextLength(n, base, 22);
  }

  lemma EightToTheTwentyTwo()
    ensures Bits.Pow(8, 22) == 73786976294838206464
  {
    assert Bits.Pow(8, 11) == 8589934592;
    Bits.PowAdd(8, 11, 11);
  }

  /** ... and the largest in octal fills it exactly. */
  lemma BufferIsTight()
    ensures |Text(LONG - 1, 8)| == NUMBER_BUF_SIZE - 1
  {
    EightToTheTwentyTwo();
    assert Bits.Pow(8, 22) == 8 * Bits.Pow(8, 21);
    Ones(LONG - 1, 1, 21);
  }

  /** A leading digit followed by `k` octal sevens. */
  lemma {:induction false} Ones(n: nat, d: nat, k: nat)
    requires 0 < d < 8 && n == d * Bits.Pow(8, k) + (Bits.Pow(8, k) - 1)
    ensures |Text(n, 8)| == k + 1
    decreases k
  {
    if k > 0 {
      var p := Bits.Pow(8, k - 1);
      assert Bits.Pow(8, k) == 8 * p;
      assert n == 8 * (d * p + (p - 1)) + 7;
      Bits.DivModUnique(n, 8, d * p + (p - 1), 7);
      Bits.MulGap(d, p);
      Ones(n / 8, d, k - 1);
    } else {
      assert Bits.Pow(8, 0) == 1;
    }
  }

  /** Fill the buffer from the right; the text starts at `start` and ends before the terminator in the last slot. */
  method PrintDigits(buf: array<char>, num: nat, base: nat) returns (start: nat)
    requires buf.Length == NUMBER_BUF_SIZE && num < LONG && 8 <= base <= 16
    modifies buf
    ensures start < NUMBER_BUF_SIZE - 1 && buf[start..NUMBER_BUF_SIZE - 1] == Text(num, base)
    ensures buf[NUMBER_BUF_SIZE - 1] == '\0'
  {
    hide Text, DigitChar, Low, High;
    BufferSuffices(num, base);
    var x := NUMBER_BUF_SIZE - 1;
    buf[x] := '\0';
    x := x - 1;
    var xnum: nat := num;
    ghost var done: string := [];
    assert Text(num, base) == Text(xnum, base) + done;
    var more := true;
    while more
      invariant -1 <= x < NUMBER_BUF_SIZE - 1 && buf[NUMBER_BUF_SIZE - 1] == '\0' && |done| == NUMBER_BUF_SIZE - 2 - x
      invariant buf[x + 1..NUMBER_BUF_SIZE - 1] == done
      invariant more ==> Text(num, base) == Text(xnum, base) + done
      invariant !more ==> Text(num, base) == done
      invariant !more ==> x < NUMBER_BUF_SIZE - 2
      decreases xnum, more
    {
      LastDigit(xnum, base, done);
      assert |Text(num, base)| == |Text(xnum, base)| + |done| && x >= 0;
      var digit := DIGITS[Low(xnum, base)];
      ghost var before := buf[..];
      buf[x] := digit;
      Prepended(before, buf[..], x, NUMBER_BUF_SIZE - 1, digit);
      done := [digit] + done;
      x := x - 1;
      xnum := High(xnum, base);
      more := xnum > 0;
    }
    start := x + 1;
  }

  lemma Prepended(b: string, b2: string, x: nat, n: nat, c: char)
    requires x < n <= |b| && b2 == b[x := c]
    ensures b2[x..n] == [c] + b[x + 1..n]
  {
  }

  function Low(n: nat, base: nat): nat
    requires base > 0
  {
    n % base
  }

  function High(n: nat, base: nat): nat
    requires base > 0
  {
    n / base
  }

  lemma LastDigit(n: nat, base: nat, done: string)
    requires 8 <= base <= 16
    ensures Low(n, base) < 16 && (if n > 0 then High(n, base) < n else High(n, base) == 0) && |Text(n, base)| >= 1
    ensures var more := [DIGITS[Low(n, base)]] + done;
            Text(n, base) + done == if High(n, base) > 0 then Text(High(n, base), base) + more else more
  {
    hide Text, Low, High;
    TextEnds(n, base);
    Appended(if High(n, base) > 0 then Text(High(n, base), base) else [], [DIGITS[Low(n, base)]], done);
  }

  lemma Appended(head: string, last: string, done: string)
    ensures (head + last) + done == head + (last + done) && [] + (last + done) == last + done
  {
  }

  lemma Smaller(n: nat, base: nat)
    requires 8 <= base <= 16
    ensures n % base < 16 && (n > 0 ==> n / base < n) && (n < base <==> n / base == 0) && (n < base ==> n % base == n)
  {
    if n < base { Bits.SmallMod(n, base); } else { Quotient(n, base, n); }
  }

  lemma TextEnds(n: nat, base: nat)
    requires 8 <= base <= 16
    ensures Low(n, base) < 16 && (if n > 0 then High(n, base) < n else High(n, base) == 0) && |Text(n, base)| >= 1
    ensures Text(n, base) == (if High(n, base) > 0 then Text(High(n, base), base) else []) + [DIGITS[Low(n, base)]]
  {
    Smaller(n, base);
  }

  // ---- atoi ----

  predicate IsDigit(c: char) { '0' <= c <= '9' }

  function DigitValue(c: char): nat
    requires IsDigit(c)
  {
    (c - '0') as nat
  }

  predicate AllDigits(s: string) { forall i :: 0 <= i < |s| ==> IsDigit(s[i]) }

  /** The decimal value of a string of digits. */
  function Value(s: string): nat
    requires AllDigits(s)
  {
    if s == [] then 0 else 10 * Value(s[..|s| - 1]) + DigitValue(s[|s| - 1])
  }

  predicate IsBlank(c: char) { c == ' ' || c == '\t' }

  function LeadingBlanks(s: string): (n: nat)
    ensures n <= |s| && (forall i :: 0 <= i < n ==> IsBlank(s[i])) && (n < |s| ==> !IsBlank(s[n]))
  {
    if s == [] || !IsBlank(s[0]) then 0 else 1 + LeadingBlanks(s[1..])
  }

  function LeadingDigits(s: string): (n: nat)
    ensures n <= |s| && AllDigits(s[..n]) && (n < |s| ==> !IsDigit(s[n]))
  {
    if s == [] || !IsDigit(s[0]) then 0
    else
      var n := LeadingDigits(s[1..]);
      assert forall i :: 0 < i <= n ==> s[i] == s[1..][i - 1];
      1 + n
  }

  /** The 32-bit two's complement reading of an integer's low bits. */
  function Signed32(x: int): int { if x % WORD < WORD / 2 then x % WORD else x % WORD - WORD }

  /** What a string parses to: blanks, a sign, and the value of the digits that follow, in 32 bits. */
  function Parsed(s: string): int
  {
    var t := s[LeadingBlanks(s)..];
    var neg := t != [] && t[0] == '-';
    var u := if t != [] && (t[0] == '-' || t[0] == '+') then t[1..] else t;
    var v := Value(u[..LeadingDigits(u)]);
    Signed32(if neg then 0 - v else v)
  }

  lemma {:induction false} ValueFirst(s: string, n: nat)
    requires n < |s| && AllDigits(s[..n]) && IsDigit(s[n])
    ensures AllDigits(s[..n + 1]) && Value(s[..n + 1]) == 10 * Value(s[..n]) + DigitValue(s[n])
  {
    assert s[..n + 1][..n] == s[..n];
  }

  lemma ModStep(v: nat, w: nat, d: nat)
    requires w == v % WORD
    ensures (w * 10 + d) % WORD == (10 * v + d) % WORD
  {
    var q := v / WORD;
    var x := 10 * w + d;
    var k, r := x / WORD, x % WORD;
    assert 10 * v + d == WORD * (10 * q + k) + r;
    Bits.DivModUnique(10 * v + d, WORD, 10 * q + k, r);
  }

  lemma NegMod(v: nat, w: nat)
    requires w == v % WORD
    ensures (0 - w) % WORD == (0 - v) % WORD && Signed32(w) == Signed32(v)
  {
    var q := v / WORD;
    assert 0 - v == WORD * (0 - q) + (0 - w);
  }

  /** Accumulate the digits at the start of `u` in an unsigned 32-bit word. */
  method Accumulate(u: string) returns (val: nat)
    ensures val == Value(u[..LeadingDigits(u)]) % WORD
  {
    hide Value, IsDigit, LeadingDigits;
    NoValue();
    val := 0;
    var n := 0;
    assert u[..0] == [];
    while n < |u| && IsDigit(u[n])
      invariant n <= |u| && AllDigits(u[..n]) && val == Value(u[..n]) % WORD
    {
      ValueFirst(u, n);
      ModStep(Value(u[..n]), val, DigitValue(u[n]));
      val := (val * 10 + DigitValue(u[n])) % WORD;
      n := n + 1;
    }
    SameDigits(u, n);
  }

  /** Parse a decimal integer. */
  method Atoi(s: string) returns (r: int)
    ensures r == Parsed(s)
  {
    hide Value, Signed32, LeadingDigits;
    var p := 0;
    while p < |s| && IsBlank(s[p])
      invariant p <= |s| && forall i :: 0 <= i < p ==> IsBlank(s[i])
    {
      p := p + 1;
    }
    assert p == LeadingBlanks(s);
    hide LeadingBlanks;
    ghost var t := s[p..];
    var neg := false;
    if p < |s| && s[p] == '-' {
      neg := true;
      p := p + 1;
    } else if p < |s| && s[p] == '+' {
      p := p + 1;
    }
    var u := s[p..];
    assert u == if t != [] && (t[0] == '-' || t[0] == '+') then t[1..] else t;
    var val := Accumulate(u);
    ghost var v := Value(u[..LeadingDigits(u)]);
    NegMod(v, val);
    var neg32: int := -(val as int);
    r := Signed32(if neg then neg32 else val);
    SameSigned(neg32, -(v as int));
  }

  lemma NoValue()
    ensures Value([]) == 0
  {
  }

  lemma {:induction false} SameDigits(u: string, n: nat)
    requires n <= |u| && AllDigits(u[..n]) && (n < |u| ==> !IsDigit(u[n]))
    ensures LeadingDigits(u) == n
  {
    var m := LeadingDigits(u);
    assert forall i :: 0 <= i < n ==> u[..n][i] == u[i];
    assert forall i :: 0 <= i < m ==> u[..m][i] == u[i];
  }

  lemma SameSigned(x: int, y: int)
    requires x % WORD == y % WORD
    ensures Signed32(x) == Signed32(y)
  {
  }

  // ---- Printing then parsing ----

  function Repeat(c: char, n: nat): (s: string)
    ensures |s| == n
  {
    seq(n, _ => c)
  }

  lemma {:induction false} TextIsDigits(n: nat)
    ensures AllDigits(Text(n, 10)) && Value(Text(n, 10)) == n
    decreases n
  {
    DecimalDigit(n % 10);
    var s := Text(n, 10);
    if n >= 10 {
      TextIsDigits(n / 10);
      assert s[..|s| - 1] == Text(n / 10, 10);
    } else {
      assert s[..0] == [];
    }
  }

  /** The value of a digit in bases up to 16, 16 for any other character. */
  function HexValue(c: char): nat
  {
    if '0' <= c <= '9' then (c - '0') as nat else if 'a' <= c <= 'f' then (c - 'a') as nat + 10 else 16
  }

  predicate AllBelow(s: string, base: nat) { forall i :: 0 <= i < |s| ==> HexValue(s[i]) < base }

  function ValueIn(s: string, base: nat): nat
  {
    if s == [] then 0 else base * ValueIn(s[..|s| - 1], base) + HexValue(s[|s| - 1])
  }

  /** The text of a number in a base consists of digits of that base, none of them wasted, with that value. */
  lemma {:induction false} TextMeans(n: nat, base: nat)
    requires 2 <= base <= 16
    ensures AllBelow(Text(n, base), base) && ValueIn(Text(n, base), base) == n
    ensures Text(n, base)[0] == '0' ==> n == 0 && Text(n, base) == "0"
    decreases n
  {
    var s := Text(n, base);
    DigitMeans(n % base);
    if n >= base {
      Shorter(n, base);
      TextMeans(n / base, base);
      assert s[..|s| - 1] == Text(n / base, base);
    } else {
      Bits.SmallMod(n, base);
      assert s[..0] == [] && ValueIn([], base) == 0;
      assert s == [DigitChar(n)] && ValueIn(s, base) == base * 0 + HexValue(s[0]);
    }
  }

  lemma Shorter(n: nat, base: nat)
    requires 2 <= base <= n
    ensures 0 < n / base < n && n == base * (n / base) + n % base
  {
  }

  lemma DigitMeans(d: nat)
    requires d < 16
    ensures HexValue(DigitChar(d)) == d && (DigitChar(d) == '0' <==> d == 0)
  {
  }

  lemma DecimalDigit(d: nat)
    requires d < 10
    ensures IsDigit(DigitChar(d)) && DigitValue(DigitChar(d)) == d
  {
  }

  lemma {:induction false} ValueAppend(s: string, t: string)
    requires AllDigits(s) && AllDigits(t)
    ensures AllDigits(s + t) && Value(s + t) == Value(s) * Bits.Pow(10, |t|) + Value(t)
    decreases |t|
  {
    if t == [] {
      assert s + t == s;
    } else {
      var r := t[..|t| - 1];
      ValueAppend(s, r);
      assert (s + t)[..|s + t| - 1] == s + r;
      assert Bits.Pow(10, |t|) == 10 * Bits.Pow(10, |r|);
      Tenfold(Value(s), Bits.Pow(10, |r|));
    }
  }

  lemma Tenfold(v: nat, p: nat)
    ensures v * (10 * p) == 10 * (v * p)
  {
  }

  lemma {:induction false} ValueZeros(n: nat)
    ensures AllDigits(Repeat('0', n)) && Value(Repeat('0', n)) == 0
  {
    if n > 0 {
      ValueZeros(n - 1);
      assert Repeat('0', n)[..n - 1] == Repeat('0', n - 1);
    }
  }

  /** A sign, or none. */
  predicate IsSign(s: string) { |s| <= 1 && (s != [] ==> s[0] == '-' || s[0] == '+') }

  predicate Minus(sign: string) { sign != [] && sign[0] == '-' }

  /** Neither blank nor sign. */
  predicate Plain(c: char) { c != ' ' && c != '\t' && c != '-' && c != '+' }

  predicate AllBlank(s: string) { forall i :: 0 <= i < |s| ==> s[i] == ' ' || s[i] == '\t' }

  /** Blanks and tabs, a sign or none, digits or none, then anything that cannot be taken for more of these, parse to
      the signed value of the digits, which is 0 if there are none. Every text divides in this way. */
  lemma ParsedParts(blanks: string, sign: string, ds: string, tail: string)
    requires AllBlank(blanks) && IsSign(sign) && AllDigits(ds) && (tail != [] ==> !IsDigit(tail[0]))
    requires |sign| == |ds| == 0 && tail != [] ==> Plain(tail[0])
    ensures Parsed(blanks + sign + ds + tail) == Signed32(if Minus(sign) then -(Value(ds) as int) else Value(ds))
  {
    hide Parsed, Value, Signed32, LeadingBlanks, LeadingDigits, AllDigits, IsDigit, IsBlank, AllBlank, IsSign, Minus;
    var t, u := sign + ds + tail, ds + tail;
    Regrouped(blanks, sign, ds, tail);
    SignThenDigits(sign, ds, tail);
    SkipBlanks(blanks, t);
    SameDigits(u, |ds|);
    ParsedFrom(blanks + t, |blanks|, t, sign, u, |ds|);
  }

  /** How a text divides. */
  lemma PartsOf(s: string) returns (blanks: string, sign: string, ds: string, tail: string)
    ensures s == blanks + sign + ds + tail
    ensures AllBlank(blanks) && IsSign(sign) && AllDigits(ds) && (tail != [] ==> !IsDigit(tail[0]))
    ensures |sign| == |ds| == 0 && tail != [] ==> Plain(tail[0])
  {
    hide LeadingBlanks, LeadingDigits, AllBlank, AllDigits, IsDigit;
    var b := LeadingBlanks(s);
    var t := s[b..];
    blanks := s[..b];
    BlanksOf(s);
    sign := if t != [] && (t[0] == '-' || t[0] == '+') then t[..1] else [];
    var u := t[|sign|..];
    var n := LeadingDigits(u);
    DigitsOf(u);
    ds, tail := u[..n], u[n..];
    Rejoined(s, b, |sign|, n);
    if |sign| == |ds| == 0 { assert tail == u == t; }
  }

  lemma BlanksOf(s: string)
    ensures var b := LeadingBlanks(s); AllBlank(s[..b]) && (s[b..] != [] ==> !IsBlank(s[b..][0]))
  {
  }

  lemma DigitsOf(u: string)
    ensures var n := LeadingDigits(u); AllDigits(u[..n]) && (u[n..] != [] ==> !IsDigit(u[n..][0]))
  {
  }

  lemma Rejoined(s: string, b: nat, c: nat, n: nat)
    requires b + c + n <= |s|
    ensures var u := s[b..][c..]; s == s[..b] + s[b..][..c] + u[..n] + u[n..]
  {
  }

  /** The reading in 32 bits is the one number in range that is the same modulo 2^32. */
  lemma Signed32Is(x: int)
    ensures 0 - WORD / 2 <= Signed32(x) < WORD / 2 && (x - Signed32(x)) % WORD == 0
  {
  }

  lemma Regrouped(a: string, b: string, c: string, d: string)
    ensures a + b + c + d == a + (b + c + d)
  {
  }

  lemma SignThenDigits(sign: string, ds: string, tail: string)
    requires IsSign(sign) && AllDigits(ds) && (tail != [] ==> !IsDigit(tail[0]))
    requires |sign| == |ds| == 0 && tail != [] ==> Plain(tail[0])
    ensures var t, u := sign + ds + tail, ds + tail;
            && (t != [] ==> !IsBlank(t[0])) && (Minus(sign) <==> t != [] && t[0] == '-')
            && (sign != [] <==> t != [] && (t[0] == '-' || t[0] == '+')) && u == t[|sign|..]
            && u[..|ds|] == ds && AllDigits(u[..|ds|]) && (|ds| < |u| ==> !IsDigit(u[|ds|]))
  {
    var t, u := sign + ds + tail, ds + tail;
    assert t == sign + u && u[..|ds|] == ds && (ds != [] ==> IsDigit(ds[0]) && u[0] == ds[0]);
    assert t[|sign|..] == u;
    if sign == [] { assert t == u; } else { assert t[0] == sign[0]; }
  }

  lemma ParsedFrom(s: string, b: nat, t: string, sign: string, u: string, n: nat)
    requires LeadingBlanks(s) == b && s[b..] == t && (Minus(sign) <==> t != [] && t[0] == '-') && IsSign(sign)
    requires (sign != [] <==> t != [] && (t[0] == '-' || t[0] == '+')) && u == t[|sign|..] && LeadingDigits(u) == n
    ensures Parsed(s) == Signed32(if Minus(sign) then -(Value(u[..n]) as int) else Value(u[..n]))
  {
    hide Value, Signed32, LeadingBlanks, LeadingDigits;
  }

  lemma SkipBlanks(blanks: string, t: string)
    requires AllBlank(blanks) && (t != [] ==> !IsBlank(t[0]))
    ensures LeadingBlanks(blanks + t) == |blanks| && (blanks + t)[|blanks|..] == t
  {
    var s := blanks + t;
    assert forall i :: 0 <= i < |blanks| ==> IsBlank(s[i]);
    assert t != [] ==> s[|blanks|] == t[0];
  }

  /** The sign and magnitude of a 32-bit number give it back. */
  lemma SignedBack(n: int)
    requires 0 - WORD / 2 <= n < WORD / 2
    ensures Signed32(n) == n
  {
  }
}
