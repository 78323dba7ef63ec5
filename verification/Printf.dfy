/** Formatted printing: the character-by-character printer against a description of what a format prints, printing into
    a buffer of limited length, and reading a printed number back. */
module Printf {
  import opened NumberText
  import Bits

  datatype Arg = Num(v: int) | Str(s: string) | NullStr

  datatype Size = IntSz | LongSz | LLongSz | SizeTSz

  datatype Flags = Flags(alt: bool, left: bool, zero: bool, width: nat, size: Size)

  const MODIFIERS := "#-lz0123456789"

  // ---- What a format prints ----

  /** The digits among the modifiers, in order. */
  function DigitsIn(mods: string): (ds: string)
    ensures AllDigits(ds)
  {
    if mods == [] then []
    else
      var rest := DigitsIn(mods[..|mods| - 1]);
      var c := mods[|mods| - 1];
      if IsDigit(c) then rest + [c] else rest
  }

  function SizeOf(mods: string): Size
  {
    if mods == [] then IntSz
    else
      var before, c := SizeOf(mods[..|mods| - 1]), mods[|mods| - 1];
      if c == 'z' then SizeTSz else if c != 'l' then before else if before == LongSz then LLongSz else LongSz
  }

  /** What the modifiers between % and the type ask for: the digits are the field width, zero padding if the first of
      them is 0. */
  function FlagsOf(mods: string): Flags
  {
    var ds := DigitsIn(mods);
    Flags('#' in mods, '-' in mods, ds != [] && ds[0] == '0', Value(ds), SizeOf(mods))
  }

  function Width(size: Size): nat { if size == LLongSz then LONG else WORD }

  function Unsigned(size: Size, v: int): (n: nat)
    ensures n < LONG
  {
    v % Width(size)
  }

  function Signed(size: Size, v: int): int
  {
    var w := Width(size);
    if v % w < w / 2 then v % w else v % w - w
  }

  /** A text in its field: padded on the right, or on the left with blanks before the prefix or zeros after it. */
  function Padded(f: Flags, prefix: string, stuff: string): string
  {
    var len := |prefix| + |stuff|;
    var spc := if f.width > len then f.width - len else 0;
    if f.left then prefix + stuff + Repeat(if f.zero then '0' else ' ', spc)
    else if f.zero then prefix + Repeat('0', spc) + stuff
    else Repeat(' ', spc) + prefix + stuff
  }

  function NumArg(args: seq<Arg>): int { if args != [] && args[0].Num? then args[0].v else 0 }

  function StrArg(args: seq<Arg>): string { if args != [] && args[0].Str? then args[0].s else "(null)" }

  function Tail(args: seq<Arg>): seq<Arg> { if args == [] then [] else args[1..] }

  predicate IsNumeric(c: char) { c == 'd' || c == 'o' || c == 'u' || c == 'p' || c == 'x' }

  function Base(c: char): (b: nat)
    ensures 8 <= b <= 16
  {
    if c == 'o' then 8 else if c == 'x' || c == 'p' then 16 else 10
  }

  function NumberField(f: Flags, c: char, v: int): string
    requires IsNumeric(c)
  {
    var n := if c == 'd' then Signed(f.size, v) else if c == 'p' then v % WORD else Unsigned(f.size, v);
    var sign := if n < 0 then "-" else "";
    var lead := if !f.alt && c != 'p' then "" else if Base(c) == 16 then "0x" else if Base(c) == 8 then "0" else "";
    Padded(f, sign + lead, Text(if n < 0 then 0 - n else n, Base(c)))
  }

  function CharText(v: int): string { if v % 256 == 0 then "" else [(v % 256) as char] }

  /** The text of one conversion. */
  function Field(f: Flags, c: char, args: seq<Arg>): string
  {
    if IsNumeric(c) then NumberField(f, c, NumArg(args))
    else if c == 's' then Padded(f, "", StrArg(args))
    else if c == 'c' then Padded(f, "", CharText(NumArg(args)))
    else Padded(f, "", [c])
  }

  /** Conversions that use up an argument. */
  predicate TakesArg(c: char) { IsNumeric(c) || c == 's' || c == 'c' }

  /** What is printed for a format outside a conversion ... */
  lemma NoneLeft()
    ensures forall args :: Printed("", args) == ""
    ensures forall mods, args :: PrintedIn(mods, "", args) == ""
  {
  }

  function Printed(fmt: string, args: seq<Arg>): string
    decreases |fmt|
  {
    if fmt == [] then []
    else if fmt[0] != '%' then [fmt[0]] + Printed(fmt[1..], args)
    else PrintedIn([], fmt[1..], args)
  }

  /** ... and inside one, after modifiers `mods`. */
  function PrintedIn(mods: string, fmt: string, args: seq<Arg>): string
    decreases |fmt|
  {
    if fmt == [] then []
    else if fmt[0] in MODIFIERS then PrintedIn(mods + [fmt[0]], fmt[1..], args)
    else Field(FlagsOf(mods), fmt[0], args) + Printed(fmt[1..], if TakesArg(fmt[0]) then Tail(args) else args)
  }

  // ---- Reading a printed number back ----

  /** The blanks or zeros a field adds to a number's text. */
  function Padding(f: Flags, v: int): nat
  {
    var n := Signed(f.size, v);
    var len := (if n < 0 then 1 else 0) + |Text(if n < 0 then 0 - n else n, 10)|;
    if f.width > len then f.width - len else 0
  }

  function Sign(n: int): string { if n < 0 then "-" else "" }

  function Magnitude(n: int): nat { if n < 0 then 0 - n else n }

  /** The pieces of a %d field. */
  lemma FieldShape(f: Flags, n: int)
    requires 0 - WORD / 2 <= n < WORD / 2
    ensures NumberField(f, 'd', n) == Padded(f, Sign(n), Text(Magnitude(n), 10))
  {
    SignedSelf(f.size, n);
    hide Padded, Text, Signed;
    assert Sign(n) + "" == Sign(n);
  }

  lemma PaddingIs(f: Flags, n: int)
    requires 0 - WORD / 2 <= n < WORD / 2
    ensures var len := |Sign(n)| + |Text(Magnitude(n), 10)|;
            Padding(f, n) == if f.width > len then f.width - len else 0
  {
    hide Text, Signed;
    SignedSelf(f.size, n);
  }

  lemma PaddedShape(f: Flags, n: int, sign: string, ds: string)
    requires 0 - WORD / 2 <= n < WORD / 2 && sign == Sign(n) && ds == Text(Magnitude(n), 10)
    ensures var pad := Padding(f, n);
            Padded(f, sign, ds) ==
              if f.left then Repeat(' ', 0) + sign + ds + Repeat(if f.zero then '0' else ' ', pad)
              else if f.zero then Repeat(' ', 0) + sign + (Repeat('0', pad) + ds) + []
              else Repeat(' ', pad) + sign + ds + []
  {
    hide Text, Signed, Repeat, Padding;
    var pad := Padding(f, n);
    PaddingIs(f, n);
    NoRepeat(' ');
    assert "" + sign == sign;
    assert (sign + (Repeat('0', pad) + ds)) + [] == sign + Repeat('0', pad) + ds;
    assert (Repeat(' ', pad) + sign + ds) + [] == Repeat(' ', pad) + sign + ds;
  }

  /** A number printed with %d, at any width and with any padding but zeros on the right, parses to itself. */
  lemma AtoiUndoesPrint(f: Flags, n: int)
    requires 0 - WORD / 2 <= n < WORD / 2 && !(f.left && f.zero)
    ensures Parsed(NumberField(f, 'd', n)) == n
  {
    hide Parsed, Value, Signed32, Text, Signed, Padded, NumberField, Padding, Repeat;
    var pad, ds := Padding(f, n), Text(Magnitude(n), 10);
    FieldShape(f, n);
    PaddedShape(f, n, Sign(n), ds);
    TextIsDigits(Magnitude(n));
    SignedBack(n);
    SignIs(n);
    Blanks(0);
    Blanks(pad);
    if f.left {
      BlanksEnd(pad);
      ParsedParts(Repeat(' ', 0), Sign(n), ds, Repeat(' ', pad));
    } else if f.zero {
      ValueZeros(pad);
      ValueAppend(Repeat('0', pad), ds);
      ParsedParts(Repeat(' ', 0), Sign(n), Repeat('0', pad) + ds, []);
    } else {
      ParsedParts(Repeat(' ', pad), Sign(n), ds, []);
    }
  }

  lemma SignIs(n: int)
    ensures IsSign(Sign(n)) && (Minus(Sign(n)) <==> n < 0)
  {
  }

  lemma Blanks(n: nat)
    ensures AllBlank(Repeat(' ', n))
  {
  }

  lemma BlanksEnd(pad: nat)
    ensures pad > 0 ==> !IsDigit(Repeat(' ', pad)[0])
  {
  }

  lemma SignedSelf(size: Size, n: int)
    requires 0 - WORD / 2 <= n < WORD / 2
    ensures Signed(size, n) == n
  {
  }

  /** With zeros on the right the text parses to itself only if there are none, or the number is 0. */
  lemma ZerosOnTheRight(f: Flags, n: int)
    requires 0 - WORD / 2 <= n < WORD / 2 && f.left && f.zero
    ensures Parsed(NumberField(f, 'd', n)) == n <==> Padding(f, n) == 0 || n == 0
  {
    hide Parsed, Value, Signed32, Text, Signed, Padded, NumberField, Padding, Repeat;
    var pad, m := Padding(f, n), Magnitude(n);
    var ds := Text(m, 10);
    FieldShape(f, n);
    PaddedShape(f, n, Sign(n), ds);
    TextIsDigits(m);
    ValueZeros(pad);
    ValueAppend(ds, Repeat('0', pad));
    var all := ds + Repeat('0', pad);
    SignIs(n);
    Blanks(0);
    ParsedParts(Repeat(' ', 0), Sign(n), all, []);
    assert Repeat(' ', 0) + Sign(n) + ds + Repeat('0', pad) == Repeat(' ', 0) + Sign(n) + all + [];
    ShiftedBack(n, m, pad);
  }

  /** Multiplying by a positive power of ten changes every nonzero 32-bit value, because one less is odd. */
  lemma PowOfNone(b: nat)
    ensures Bits.Pow(b, 0) == 1
  {
  }

  lemma ShiftedBack(n: int, m: nat, pad: nat)
    requires 0 - WORD / 2 <= n < WORD / 2 && m == Magnitude(n)
    ensures var v := m * Bits.Pow(10, pad);
            Signed32(if n < 0 then -(v as int) else v) == n <==> pad == 0 || n == 0
  {
    hide Signed32, Bits.Pow2, Bits.Pow;
    var p := Bits.Pow(10, pad);
    var v := m * p;
    SignedBack(n);
    if pad == 0 {
      PowOfNone(10);
      assert v == m;
    } else if n == 0 {
      assert v == 0;
    } else {
      OddBelow(pad);
      PowerOfTwo();
      assert v - m == m * (p - 1);
      Bits.SmallMod(m, WORD);
      if (m * (p - 1)) % WORD == 0 { TimesOdd(m, p - 1, 32); }
      Bits.MulGap(m, p - 1);
      NotSame(n, m, v);
    }
  }

  lemma PowerOfTwo()
    ensures Bits.Pow2(32) == WORD
  {
    assert Bits.Pow2(8) == 256;
    Bits.Pow2Add(8, 8);
    Bits.Pow2Add(16, 16);
  }

  lemma OddBelow(pad: nat)
    requires pad > 0
    ensures Bits.Pow(10, pad) >= 10 && (Bits.Pow(10, pad) - 1) % 2 == 1
  {
    var q := Bits.Pow(10, pad - 1);
    assert Bits.Pow(10, pad) == 10 * q;
    hide Bits.Pow;
    TenTimes(q);
  }

  lemma TenTimes(q: nat)
    requires q >= 1
    ensures 10 * q >= 10 && (10 * q - 1) % 2 == 1
  {
    Bits.DivModUnique(10 * q - 1, 2, 5 * q - 1, 1);
  }

  /** An odd factor does not help reach a multiple of 2^k. */
  lemma {:induction false} TimesOdd(m: nat, odd: nat, k: nat)
    requires odd % 2 == 1 && (m * odd) % Bits.Pow2(k) == 0
    ensures m % Bits.Pow2(k) == 0
  {
    if k > 0 {
      Bits.ModDouble(m * odd, Bits.Pow2(k - 1));
      HalfOdd(m, odd);
      TimesOdd(m / 2, odd, k - 1);
      Bits.ModDouble(m, Bits.Pow2(k - 1));
    } else {
      assert m % 1 == 0;
    }
  }

  lemma HalfOdd(m: nat, odd: nat)
    requires odd % 2 == 1 && (m * odd) % 2 == 0
    ensures m % 2 == 0 && (m * odd) / 2 == (m / 2) * odd
  {
    var j, h := odd / 2, m / 2;
    assert odd == 2 * j + 1;
    assert m * odd == 2 * (m * j) + m;
    assert m == 2 * h;
    assert (2 * h) * odd == 2 * (h * odd);
  }

  lemma NotSame(n: int, m: nat, v: nat)
    requires 0 < m <= WORD / 2 && m == Magnitude(n) && v >= m && (v - m) % WORD != 0
    ensures Signed32(if n < 0 then -(v as int) else v) != n
  {
  }

  // ---- The printer ----

  /** Where snprintf's text goes: at most `buflen` characters of it are kept. */
  class Snp {
    const buf: array<char>
    const buflen: nat
    var bufpos: nat
    /** Everything sent so far. */
    ghost var all: string

    ghost predicate Valid()
      reads this, buf
    {
      && buflen <= buf.Length && bufpos == (if |all| < buflen then |all| else buflen)
      && buf[..bufpos] == all[..bufpos]
    }

    constructor (b: array<char>, n: nat)
      requires n <= b.Length
      ensures Valid() && buf == b && buflen == n && all == ""
    {
      buf, buflen, bufpos, all := b, n, 0, "";
    }

    /** Store what still fits of `data`. */
    method Send(data: string)
      requires Valid()
      modifies this, buf
      ensures Valid() && all == old(all) + data
      ensures buf[buflen..] == old(buf[buflen..])
    {
      var i := 0;
      ghost var all0, rest := all, buf[buflen..];
      assert data[..0] == "";
      while i < |data|
        invariant i <= |data| && Valid() && all == all0 + data[..i] && buf[buflen..] == rest
      {
        if bufpos < buflen {
          buf[bufpos] := data[i];
          bufpos := bufpos + 1;
        }
        assert all + [data[i]] == all0 + data[..i + 1];
        all := all + [data[i]];
        i := i + 1;
      }
      assert data[..i] == data;
    }
  }

  /** The printer's record: what of the current conversion has been read. */
  class Printer {
    const sink: Snp
    var charcount: nat
    var inPct: bool
    var size: Size
    var spacing: nat
    var rightspc: bool
    var fillzero: bool
    var altformat: bool
    var args: seq<Arg>
    /** The modifiers read since the last %. */
    ghost var mods: string

    ghost predicate Valid()
      reads this, sink, sink.buf
    {
      && sink.Valid() && charcount == |sink.all| && (!inPct ==> mods == "")
      && Flags(altformat, rightspc, fillzero, spacing, size) == FlagsOf(mods)
    }

    constructor (s: Snp, a: seq<Arg>)
      requires s.Valid() && s.all == ""
      ensures Valid() && sink == s && args == a && !inPct
    {
      NoFlags();
      sink, charcount, inPct, args := s, 0, false, a;
      size, spacing, rightspc, fillzero, altformat := IntSz, 0, false, false, false;
      mods := "";
    }

    /** Send text on and count it. */
    method Print(txt: string)
      requires Valid()
      modifies this`charcount, sink, sink.buf
      ensures Valid() && sink.all == old(sink.all) + txt && sink.buf[sink.buflen..] == old(sink.buf[sink.buflen..])
    {
      sink.Send(txt);
      charcount := charcount + |txt|;
    }

    /** Start afresh after a conversion. */
    method EndField()
      requires sink.Valid() && charcount == |sink.all|
      modifies this`inPct, this`size, this`spacing, this`rightspc, this`fillzero, this`altformat, this`mods
      ensures Valid() && !inPct
    {
      NoFlags();
      inPct, size, spacing, rightspc, fillzero, altformat := false, IntSz, 0, false, false, false;
      mods := "";
    }

    /** One modifier. */
    method Modifier(ch: char)
      requires Valid() && inPct && ch in MODIFIERS
      modifies this`size, this`spacing, this`rightspc, this`fillzero, this`altformat, this`mods
      ensures Valid() && mods == old(mods) + [ch]
    {
      hide FlagsOf, IsDigit;
      FlagsStep(mods, ch);
      ModifierKinds(ch);
      if ch == '#' {
        altformat := true;
      } else if ch == '-' {
        rightspc := true;
      } else if ch == 'l' {
        size := if size == LongSz then LLongSz else LongSz;
      } else if ch == 'z' {
        size := SizeTSz;
      } else if ch == '0' {
        if spacing > 0 {
          spacing := spacing * 10;
        } else {
          fillzero := true;
        }
      } else {
        spacing := spacing * 10 + (ch - '0') as nat;
      }
      mods := mods + [ch];
    }

    /** Fill characters, one at a time. */
    method Fill(spc: nat)
      requires Valid()
      modifies this`charcount, sink, sink.buf
      ensures Valid() && sink.all == old(sink.all) + Repeat(if fillzero then '0' else ' ', spc)
      ensures sink.buf[sink.buflen..] == old(sink.buf[sink.buflen..])
    {
      var f := if fillzero then '0' else ' ';
      var i := 0;
      while i < spc
        invariant i <= spc && Valid() && sink.all == old(sink.all) + Repeat(f, i)
        invariant sink.buf[sink.buflen..] == old(sink.buf[sink.buflen..])
      {
        Print([f]);
        assert Repeat(f, i) + [f] == Repeat(f, i + 1);
        i := i + 1;
      }
    }

    /** Print a text with its prefixes in its field. */
    method PrintStuff(prefix: string, prefix2: string, stuff: string)
      requires Valid()
      modifies this`charcount, sink, sink.buf
      ensures Valid() && sink.all == old(sink.all) + Padded(FlagsOf(mods), prefix + prefix2, stuff)
      ensures sink.buf[sink.buflen..] == old(sink.buf[sink.buflen..])
    {
      hide FlagsOf, Repeat, Padded;
      var len := |prefix| + |prefix2| + |stuff|;
      var spc := if spacing > len then spacing - len else 0;
      ghost var all0, f := sink.all, FlagsOf(mods);
      NoRepeat(if fillzero then '0' else ' ');
      Fill(if !rightspc && !fillzero then spc else 0);
      Print(prefix);
      Print(prefix2);
      Fill(if !rightspc && fillzero then spc else 0);
      Print(stuff);
      Fill(if rightspc then spc else 0);
      Arranged(all0, f, prefix, prefix2, stuff, spc);
    }

    /** Fetch a number, turn it into digits and print it. */
    method PrintNum(ch: char)
      requires Valid() && IsNumeric(ch)
      modifies this`charcount, this`args, sink, sink.buf
      ensures Valid() && args == Tail(old(args))
      ensures sink.all == old(sink.all) + NumberField(FlagsOf(mods), ch, NumArg(old(args)))
      ensures sink.buf[sink.buflen..] == old(sink.buf[sink.buflen..])
    {
      hide FlagsOf, Repeat, Padded, Text, Signed, Unsigned;
      var v := NumArg(args);
      args := Tail(args);
      var num: nat, neg := 0, false;
      if ch == 'p' {
        num := v % WORD;
      } else if ch == 'd' {
        var signednum := Signed(size, v);
        SignedFits(size, v);
        if signednum < 0 {
          neg := true;
          num := 0 - signednum;
        } else {
          num := signednum;
        }
      } else {
        num := Unsigned(size, v);
      }
      var base := Base(ch);
      var baseprefix := altformat || ch == 'p';
      var buf := new char[NUMBER_BUF_SIZE];
      var start := PrintDigits(buf, num, base);
      var stuff := buf[start..NUMBER_BUF_SIZE - 1];
      var bprefix := if baseprefix && base == 16 then "0x" else if baseprefix && base == 8 then "0" else "";
      var sprefix := if neg then "-" else "";
      PrintStuff(sprefix, bprefix, stuff);
    }

    /** What is still to come, given the rest of the format. */
    ghost function Rest(fmt: string): string
      reads this
    {
      if inPct then PrintedIn(mods, fmt, args) else Printed(fmt, args)
    }

    /** One character of the format: what has been sent and what is still to come together stay the same. */
    method SendChar(ch: char, ghost rest: string)
      requires Valid()
      modifies this, sink, sink.buf
      ensures Valid() && sink.all + Rest(rest) == old(sink.all) + old(Rest([ch] + rest))
      ensures sink.buf[sink.buflen..] == old(sink.buf[sink.buflen..])
    {
      hide FlagsOf, Repeat, Padded, NumberField;
      ghost var all0, fmt := sink.all, [ch] + rest;
      assert fmt[0] == ch && fmt[1..] == rest;
      if !inPct && ch != '%' {
        Print([ch]);
        assert all0 + ([ch] + Printed(rest, args)) == (all0 + [ch]) + Printed(rest, args);
      } else if !inPct {
        inPct := true;
      } else if ch in MODIFIERS {
        Modifier(ch);
      } else {
        ghost var args0, text := args, Field(FlagsOf(mods), ch, args);
        if IsNumeric(ch) {
          PrintNum(ch);
        } else if ch == 's' {
          var str := StrArg(args);
          args := Tail(args);
          PrintStuff("", "", str);
        } else if ch == 'c' {
          var x := CharText(NumArg(args));
          args := Tail(args);
          PrintStuff("", "", x);
        } else {
          PrintStuff("", "", [ch]);
        }
        assert "" + "" == "";
        assert sink.all == all0 + text;
        assert (all0 + text) + Printed(rest, args) == all0 + (text + Printed(rest, args));
        EndField();
      }
    }

    /** A whole format, one character after the other. */
    method Vprintf(fmt: string) returns (n: nat)
      requires Valid() && !inPct && sink.all == ""
      modifies this, sink, sink.buf
      ensures sink.Valid() && sink.all == Printed(fmt, old(args)) && n == |sink.all|
      ensures sink.buf[sink.buflen..] == old(sink.buf[sink.buflen..])
    {
      hide Printed, PrintedIn, FlagsOf;
      ghost var whole := Printed(fmt, args);
      NoneLeft();
      assert fmt[0..] == fmt && "" + whole == whole;
      var i := 0;
      while i < |fmt|
        invariant i <= |fmt| && Valid() && sink.all + Rest(fmt[i..]) == whole
        invariant sink.buf[sink.buflen..] == old(sink.buf[sink.buflen..])
      {
        assert [fmt[i]] + fmt[i + 1..] == fmt[i..];
        SendChar(fmt[i], fmt[i + 1..]);
        i := i + 1;
      }
      assert fmt[i..] == "" && sink.all + "" == sink.all;
      n := charcount;
    }
  }

  /** Print into a buffer of `len` characters: the longest prefix of the text that leaves room for a terminator, the
      terminator, nothing beyond; the length of the whole text comes back. */
  method Vsnprintf(buf: array<char>, len: nat, fmt: string, args: seq<Arg>) returns (chars: nat)
    requires len <= buf.Length
    modifies buf
    ensures chars == |Printed(fmt, args)|
    ensures len > 0 ==>
              var n := if chars < len then chars else len - 1;
              buf[..n] == Printed(fmt, args)[..n] && buf[n] == '\0'
    ensures buf[len..] == old(buf[len..])
  {
    hide Printed, FlagsOf;
    var snp := new Snp(buf, if len == 0 then 0 else len - 1);
    var pf := new Printer(snp, args);
    chars := pf.Vprintf(fmt);
    Further(old(buf[..]), buf[..], snp.buflen, len);
    if len > 0 {
      ghost var kept := buf[..];
      buf[snp.bufpos] := '\0';
      assert buf[..snp.bufpos] == kept[..snp.bufpos] && buf[len..] == kept[len..];
    }
  }

  lemma Further(s: string, t: string, a: nat, b: nat)
    requires |s| == |t| && a <= b <= |s|
    ensures s[a..] == t[a..] ==> s[b..] == t[b..]
  {
    assert s[b..] == s[a..][b - a..] && t[b..] == t[a..][b - a..];
  }

  lemma SignedFits(size: Size, v: int)
    ensures 0 - LONG / 2 <= Signed(size, v) < LONG / 2
  {
  }

  lemma NoFlags()
    ensures FlagsOf("") == Flags(false, false, false, 0, IntSz)
  {
  }

  lemma NoRepeat(c: char)
    ensures Repeat(c, 0) == ""
  {
  }

  /** The pieces in the order they are sent make up the field. */
  lemma Arranged(all0: string, f: Flags, prefix: string, prefix2: string, stuff: string, spc: nat)
    requires spc == if f.width > |prefix| + |prefix2| + |stuff| then f.width - (|prefix| + |prefix2| + |stuff|) else 0
    ensures var fill := Repeat(if f.zero then '0' else ' ', spc);
            all0 + Padded(f, prefix + prefix2, stuff) ==
              (((((all0 + if f.left || f.zero then "" else fill) + prefix) + prefix2)
                + if !f.left && f.zero then fill else "") + stuff)
                + if f.left then fill else ""
  {
    hide Repeat;
    var fill := Repeat(if f.zero then '0' else ' ', spc);
    if f.left {
      assert all0 + (prefix + prefix2 + stuff + fill) == ((((all0 + "") + prefix) + prefix2) + "") + stuff + fill;
    } else if f.zero {
      assert all0 + (prefix + prefix2 + fill + stuff) == ((((all0 + "") + prefix) + prefix2) + fill) + stuff + "";
    } else {
      assert all0 + (fill + (prefix + prefix2) + stuff) == ((((all0 + fill) + prefix) + prefix2) + "") + stuff + "";
    }
  }

  lemma ModifierKinds(c: char)
    requires c in MODIFIERS
    ensures c == '#' || c == '-' || c == 'l' || c == 'z' || IsDigit(c)
    ensures IsDigit(c) ==> c != '#' && c != '-' && c != 'l' && c != 'z' && c >= '0'
  {
  }

  /** What one more modifier adds. */
  lemma FlagsStep(mods: string, c: char)
    requires c in MODIFIERS
    ensures var f, f2 := FlagsOf(mods), FlagsOf(mods + [c]);
            && f2.alt == (f.alt || c == '#') && f2.left == (f.left || c == '-')
            && f2.size == (if c == 'z' then SizeTSz else if c != 'l' then f.size 
                           else if f.size == LongSz then LLongSz else LongSz)
            && f2.width == (if IsDigit(c) then f.width * 10 + (c - '0') as nat else f.width)
            && f2.zero == (f.zero || (c == '0' && f.width == 0))
  {
    var m2 := mods + [c];
    assert m2[..|m2| - 1] == mods && m2[|m2| - 1] == c;
    var ds := DigitsIn(mods);
    if IsDigit(c) {
      assert (ds + [c])[..|ds|] == ds;
      ZeroWidth(ds);
    }
  }

  /** The width is 0 exactly when no digit but 0 has been seen; then the first, if any, is 0. */
  lemma {:induction false} ZeroWidth(ds: string)
    requires AllDigits(ds)
    ensures Value(ds) == 0 && ds != [] ==> ds[0] == '0'
    decreases |ds|
  {
    if |ds| > 1 {
      ZeroWidth(ds[..|ds| - 1]);
    }
  }

  predicate AllModifiers(mods: string) { forall i :: 0 <= i < |mods| ==> mods[i] in MODIFIERS }

  /** A format without conversions prints itself. */
  lemma {:induction false} PlainPrints(fmt: string, rest: string, args: seq<Arg>)
    requires '%' !in fmt
    ensures Printed(fmt + rest, args) == fmt + Printed(rest, args)
    decreases |fmt|
  {
    var all := fmt + rest;
    if fmt == [] {
      assert all == rest;
    } else {
      assert all[0] == fmt[0] && all[1..] == fmt[1..] + rest;
      assert fmt[0] in fmt;
      PlainPrints(fmt[1..], rest, args);
      assert fmt == [fmt[0]] + fmt[1..];
      assert [fmt[0]] + (fmt[1..] + Printed(rest, args)) == fmt + Printed(rest, args);
    }
  }

  lemma {:induction false} FieldThenRest(seen: string, mods: string, c: char, rest: string, args: seq<Arg>)
    requires AllModifiers(mods) && c !in MODIFIERS
    ensures PrintedIn(seen, mods + [c] + rest, args) ==
            Field(FlagsOf(seen + mods), c, args) + Printed(rest, if TakesArg(c) then Tail(args) else args)
    decreases |mods|
  {
    hide FlagsOf, Field, MODIFIERS;
    var fmt := mods + [c] + rest;
    if mods == [] {
      assert fmt == [c] + rest && fmt[1..] == rest && seen + mods == seen;
    } else {
      FieldThenRest(seen + [mods[0]], mods[1..], c, rest, args);
      assert fmt[0] == mods[0] && fmt[1..] == mods[1..] + [c] + rest;
      assert (seen + [mods[0]]) + mods[1..] == seen + mods;
    }
  }

  /** Text up to a conversion prints as it is, the conversion as its field, and the rest with the arguments left. */
  lemma OneConversion(pre: string, mods: string, c: char, rest: string, args: seq<Arg>)
    requires '%' !in pre && AllModifiers(mods) && c !in MODIFIERS
    ensures Printed(pre + ("%" + mods + [c] + rest), args) ==
            pre + (Field(FlagsOf(mods), c, args) + Printed(rest, if TakesArg(c) then Tail(args) else args))
  {
    hide FlagsOf, Field, Printed, PrintedIn, AllModifiers, MODIFIERS;
    var fmt := "%" + mods + [c] + rest;
    PlainPrints(pre, fmt, args);
    assert fmt[0] == '%' && fmt[1..] == mods + [c] + rest;
    Opens(fmt, args);
    FieldThenRest([], mods, c, rest, args);
    assert [] + mods == mods;
  }

  /** A lone conversion prints its field. */
  lemma Lone(mods: string, c: char, args: seq<Arg>)
    requires AllModifiers(mods) && c !in MODIFIERS
    ensures Printed("%" + mods + [c], args) == Field(FlagsOf(mods), c, args)
  {
    hide FlagsOf, Field, Printed, PrintedIn, AllModifiers, MODIFIERS;
    OneConversion("", mods, c, "", args);
    var fmt := "%" + mods + [c];
    assert "" + (fmt + "") == fmt;
    NoneLeft();
    var t := Field(FlagsOf(mods), c, args);
    assert "" + (t + "") == t;
  }

  // ---- What a field looks like ----

  predicate AllAre(s: string, c: char) { forall i :: 0 <= i < |s| ==> s[i] == c }

  /** A text of `len` characters that matter takes up its field's width, or its own length if that is more. */
  predicate Fills(t: string, width: nat, len: nat) { |t| == if width > len then width else len }

  /** Padding goes before everything as blanks, between prefix and text as zeros, or after everything. */
  predicate PadsAsAsked(f: Flags, before: string, zeros: string, after: string)
  {
    && AllAre(before, ' ') && AllAre(zeros, '0') && AllAre(after, if f.zero then '0' else ' ')
    && (before != [] ==> !f.left && !f.zero) && (zeros != [] ==> !f.left && f.zero) && (after != [] ==> f.left)
  }

  lemma PaddedParts(f: Flags, prefix: string, stuff: string) returns (before: string, zeros: string, after: string)
    ensures Padded(f, prefix, stuff) == before + prefix + zeros + stuff + after
    ensures PadsAsAsked(f, before, zeros, after) && Fills(Padded(f, prefix, stuff), f.width, |prefix| + |stuff|)
  {
    var len := |prefix| + |stuff|;
    var spc := if f.width > len then f.width - len else 0;
    before := if !f.left && !f.zero then Repeat(' ', spc) else [];
    zeros := if !f.left && f.zero then Repeat('0', spc) else [];
    after := if f.left then Repeat(if f.zero then '0' else ' ', spc) else [];
    hide Repeat;
    if f.left {
      assert [] + prefix + [] + stuff + after == prefix + stuff + after;
    } else if f.zero {
      assert [] + prefix + zeros + stuff + [] == prefix + zeros + stuff;
    } else {
      assert before + prefix + [] + stuff + [] == before + prefix + stuff;
    }
  }

  /** The number an argument is read as: signed for %d and unsigned otherwise, in 64 bits with ll and in 32 without. */
  ghost predicate ReadsAs(c: char, size: Size, v: int, n: int)
  {
    var w := if size == LLongSz && c != 'p' then LONG else WORD;
    (n - v) % w == 0 && if c == 'd' then 0 - w / 2 <= n < w / 2 else 0 <= n < w
  }

  function Radix(c: char): nat { match c case 'o' => 8 case 'd' => 10 case 'u' => 10 case _ => 16 }

  /** What # asks for, and %p always has. */
  function Prefix(f: Flags, c: char): string
  {
    match c
    case 'p' => "0x"
    case 'x' => if f.alt then "0x" else ""
    case 'o' => if f.alt then "0" else ""
    case _ => ""
  }

  lemma ReadsNumber(f: Flags, c: char, v: int) returns (n: int)
    requires IsNumeric(c)
    ensures ReadsAs(c, f.size, v, n)
    ensures NumberField(f, c, v) == Padded(f, Sign(n) + Prefix(f, c), Text(Magnitude(n), Radix(c)))
  {
    hide Padded, Text;
    n := if c == 'd' then Signed(f.size, v) else if c == 'p' then v % WORD else Unsigned(f.size, v);
    ReadsModulo(c, f.size, v, n);
  }

  lemma ReadsModulo(c: char, size: Size, v: int, n: int)
    requires n == if c == 'd' then Signed(size, v) else if c == 'p' then v % WORD else Unsigned(size, v)
    ensures ReadsAs(c, size, v, n)
  {
    var w := if size == LLongSz && c != 'p' then LONG else WORD;
    var q := v / w;
    if c == 'd' && v % w >= w / 2 {
      assert n - v == w * (0 - q - 1);
    } else {
      assert n - v == w * (0 - q);
    }
  }

  /** A number prints as padding, a sign if it is negative, the prefix asked for, zeros, and its digits in the base of
      the conversion, none wasted, whose value is the number's. */
  lemma NumberPrints(mods: string, c: char, v: int)
    returns (n: int, before: string, zeros: string, digits: string, after: string)
    requires AllModifiers(mods) && IsNumeric(c)
    ensures var f, t := FlagsOf(mods), Printed("%" + mods + [c], [Num(v)]);
            && ReadsAs(c, f.size, v, n)
            && t == before + (Sign(n) + Prefix(f, c)) + zeros + digits + after
            && PadsAsAsked(f, before, zeros, after) && Fills(t, f.width, |Sign(n) + Prefix(f, c)| + |digits|)
            && digits != [] && AllBelow(digits, Radix(c)) && ValueIn(digits, Radix(c)) == Magnitude(n)
            && (digits[0] == '0' ==> digits == "0")
  {
    hide FlagsOf, Printed, NumberField, Padded, Text, PadsAsAsked, Fills, ReadsAs, AllBelow, ValueIn, Prefix,
         AllModifiers;
    NumericIsType(c);
    Lone(mods, c, [Num(v)]);
    n := ReadsNumber(FlagsOf(mods), c, v);
    digits := Text(Magnitude(n), Radix(c));
    before, zeros, after := PaddedParts(FlagsOf(mods), Sign(n) + Prefix(FlagsOf(mods), c), digits);
    TextMeans(Magnitude(n), Radix(c));
  }

  lemma NumericIsType(c: char)
    requires IsNumeric(c)
    ensures c !in MODIFIERS && 8 <= Radix(c) <= 16
  {
  }

  /** A string prints as it is in its field, and a null pointer as "(null)"; so does a character, except that 0 prints
      nothing; and a character that is no conversion, like %, prints itself. */
  lemma TextPrints(mods: string, c: char, args: seq<Arg>) returns (text: string, before: string, zeros: string,
                                                                   after: string)
    requires AllModifiers(mods) && !IsNumeric(c) && c !in MODIFIERS
    requires c == 's' ==> args != [] && !args[0].Num?
    requires c == 'c' ==> args != [] && args[0].Num?
    ensures var f, t := FlagsOf(mods), Printed("%" + mods + [c], args);
            && t == before + zeros + text + after
            && PadsAsAsked(f, before, zeros, after) && Fills(t, f.width, |text|)
    ensures c == 's' ==> text == if args[0].Str? then args[0].s else "(null)"
    ensures c == 'c' && 0 < args[0].v < 256 ==> text == [args[0].v as char]
    ensures c == 'c' && args[0].v == 0 ==> text == ""
    ensures c != 's' && c != 'c' ==> text == [c]
  {
    hide FlagsOf, Printed, Padded, PadsAsAsked, Fills, AllModifiers, MODIFIERS;
    Lone(mods, c, args);
    text := if c == 's' then StrArg(args) else if c == 'c' then CharText(NumArg(args)) else [c];
    before, zeros, after := PaddedParts(FlagsOf(mods), "", text);
    assert before + "" + zeros + text + after == before + zeros + text + after;
  }

  /** Printing a 32-bit number with %d and any modifiers, then parsing the text, gives the number back, except exactly
      when zeros are put after a number other than 0. */
  lemma PrintThenParse(mods: string, n: int)
    requires forall i :: 0 <= i < |mods| ==> mods[i] in MODIFIERS
    requires 0 - WORD / 2 <= n < WORD / 2
    ensures var f := FlagsOf(mods);
            Parsed(Printed("%" + mods + "d", [Num(n)])) == n <==> !(f.left && f.zero) || Padding(f, n) == 0 || n == 0
  {
    hide FlagsOf, NumberField, Parsed, Padding, Printed, PrintedIn, SizeOf;
    LonePrinted(mods, n);
    var f := FlagsOf(mods);
    if f.left && f.zero { ZerosOnTheRight(f, n); } else { AtoiUndoesPrint(f, n); }
  }

  lemma LonePrinted(mods: string, n: int)
    requires forall i :: 0 <= i < |mods| ==> mods[i] in MODIFIERS
    ensures Printed("%" + mods + "d", [Num(n)]) == NumberField(FlagsOf(mods), 'd', n)
  {
    hide FlagsOf, NumberField, Printed, PrintedIn, MODIFIERS;
    NumericIsType('d');
    assert "%" + mods + "d" == "%" + mods + ['d'];
    Lone(mods, 'd', [Num(n)]);
  }

  lemma Opens(fmt: string, args: seq<Arg>)
    requires fmt != [] && fmt[0] == '%'
    ensures Printed(fmt, args) == PrintedIn([], fmt[1..], args)
  {
  }

  /** For example 1, on the left of two columns filled with zeros, reads back as 10. */
  lemma OneReadsAsTen()
    ensures Printed("%-02d", [Num(1)]) == "10" && Parsed("10") == 10
  {
    hide *;
    TwoColumns();
    LonePrinted("-02", 1);
    assert "%" + "-02" + "d" == "%-02d";
    OneThenZero(FlagsOf("-02"));
    TenIs();
  }

  lemma TwoColumns()
    ensures var f := FlagsOf("-02"); f.left && f.zero && f.width == 2
    ensures forall i :: 0 <= i < 3 ==> "-02"[i] in MODIFIERS
  {
    assert FlagsOf("").width == 0 && !FlagsOf("").zero;
    hide FlagsOf, SizeOf;
    FlagsStep("", '-');
    FlagsStep("-", '0');
    FlagsStep("-0", '2');
    assert "" + ['-'] == "-" && "-" + ['0'] == "-0" && "-0" + ['2'] == "-02";
  }

  lemma OneThenZero(f: Flags)
    requires f.left && f.zero && f.width == 2
    ensures NumberField(f, 'd', 1) == "10"
  {
    assert Magnitude(1) == 1 && Sign(1) == "" && Text(1, 10) == "1";
    assert Repeat('0', 1) == "0";
    hide NumberField, Text, Signed, Repeat;
    FieldShape(f, 1);
    assert Padded(f, "", "1") == "" + "1" + Repeat('0', 1);
    assert "" + "1" + "0" == "10";
  }

  lemma TenIs()
    ensures Parsed("10") == 10
  {
    assert Value("1") == 1;
    assert "10"[..1] == "1";
    assert Value("10") == 10 && Signed32(10) == 10 && Repeat(' ', 0) == "";
    hide Parsed, Value, Signed32, Repeat;
    ParsedParts("", "", "10", "");
    assert "" + "" + "10" + "" == "10";
  }
}
