/** What a format string comes to, on its characters alone. */
module Specifiers {
  import opened Machine
  import opened Numerals
  import opened KernelMath
  import opened Printer
  import opened Formats

  // ----- Numbers in characters -----

  function Worth(c: char): nat {
    if '0' <= c <= '9' then c as int - '0' as int
    else if 'a' <= c <= 'f' then c as int - 'a' as int + 10
    else if 'A' <= c <= 'F' then c as int - 'A' as int + 10
    else 0
  }

  predicate IsDigit(c: char, b: nat, capitals: bool) {
    ('0' <= c <= '9' || (if capitals then 'A' <= c <= 'F' else 'a' <= c <= 'f')) && Worth(c) < b
  }

  function Sum(b: nat, s: string): nat {
    if s == "" then 0 else b * Sum(b, s[..|s| - 1]) + Worth(s[|s| - 1])
  }

  ghost predicate Digits(s: string, b: nat, capitals: bool) {
    forall i :: 0 <= i < |s| ==> IsDigit(s[i], b, capitals)
  }

  /** `s` is the number `v` in base `b`: a minus sign when it is negative, then its digits, the first of which is zero only in zero. */
  ghost predicate Writes(s: string, b: nat, capitals: bool, v: int) {
    if v < 0 then s != "" && s[0] == '-' && WritesDigits(s[1..], b, capitals, -v) else WritesDigits(s, b, capitals, v)
  }

  ghost predicate WritesDigits(s: string, b: nat, capitals: bool, v: nat) {
    s != "" && Digits(s, b, capitals) && Sum(b, s) == v && (s[0] == '0' ==> |s| == 1)
  }

  /** A table of digits. */
  ghost predicate Charset(table: string, capitals: bool) {
    |table| == 16 && forall d :: 0 <= d < 16 ==> IsDigit(table[d], 16, capitals) && Worth(table[d]) == d
  }

  lemma Charsets()
    ensures Charset(LOWER, false) && Charset(UPPER, true) && Table(LOWER) && Table(UPPER) && LOWER[0] == '0' && UPPER[0] == '0'
  {
    TablesOk();
  }

  lemma SumAppend(b: nat, s: string, c: char)
    ensures Sum(b, s + [c]) == b * Sum(b, s) + Worth(c)
  {
    assert (s + [c])[..|s|] == s;
  }

  lemma {:induction false} NumeralSum(table: string, capitals: bool, b: Base, v: nat)
    requires Charset(table, capitals)
    ensures Sum(b, Numeral(table, b, v)) == v && Digits(Numeral(table, b, v), b, capitals)
    decreases v
  {
    if v < b {
      SumAppend(b, "", table[v]);
      assert "" + [table[v]] == [table[v]];
    } else {
      DivMod(v, b);
      NumeralSum(table, capitals, b, v / b);
      SumAppend(b, Numeral(table, b, v / b), table[v % b]);
    }
  }

  lemma {:induction false} PaddedSum(table: string, capitals: bool, b: Base, v: nat, n: nat)
    requires Charset(table, capitals) && v < Pow(b, n)
    ensures Sum(b, Padded(table, b, v, n)) == v && Digits(Padded(table, b, v, n), b, capitals)
    decreases n
  {
    if n != 0 {
      DivMod(v, b);
      Bracket(b, v, v / b, v % b, 0, Pow(b, n - 1));
      PaddedSum(table, capitals, b, v / b, n - 1);
      SumAppend(b, Padded(table, b, v / b, n - 1), table[v % b]);
    }
  }

  lemma NumeralWrites(table: string, capitals: bool, b: Base, v: nat)
    requires Charset(table, capitals) && Table(table) && table[0] == '0'
    ensures WritesDigits(Numeral(table, b, v), b, capitals, v)
  {
    NumeralSum(table, capitals, b, v);
    NoLeadingZero(table, b, v);
  }

  // ----- One specifier -----

  function PrefixOf(l: Length): string {
    match l
    case ShortShort => "hh"
    case Short => "h"
    case Plain => ""
    case Long => "l"
    case LongLong => "ll"
  }

  /** A prefix ends where another character than `h` and `l` follows. */
  lemma FormatRead(l: Length, c: char, rest: string)
    requires c != 'h' && c != 'l'
    ensures var s := PrefixOf(l) + [c] + rest;
      && FormatAt(s) == (match ConversionOf(c)
                         case Some(k) => Number(l, k)
                         case None => if l == Plain && c == 's' then Str else if l == Plain && c == '%' then Percent else Invalid)
      && s[Width(l) + 1..] == rest
  {
    var s := PrefixOf(l) + [c] + rest;
    assert s[Width(l)] == c;
    match l
    case ShortShort => assert s[0] == 'h' && s[1] == 'h' && s[..2] == "hh";
    case Short => assert s[0] == 'h' && s[1] == c && s[..1] == "h";
    case Plain => assert s[0] == c;
    case Long => assert s[0] == 'l' && s[1] == c && s[..1] == "l";
    case LongLong => assert s[0] == 'l' && s[1] == 'l' && s[..2] == "ll";
  }

  lemma ConcatCString(head: string, rest: string)
    requires CString(rest) && forall i :: 0 <= i < |head| ==> head[i] != NUL
    ensures CString(head + rest)
  {
  }

  /** A percent sign asks for a specifier. */
  lemma PercentSign(t: string, args: seq<Arg>)
    requires CString(t)
    ensures CString("%" + t) && WellTyped("%" + t, args) == WellTypedPattern(t, args)
    ensures Render("%" + t, args) == RenderPattern(t, args) && Pointers("%" + t) == PointersPattern(t)
  {
    ConcatCString("%", t);
    assert ("%" + t)[1..] == t;
  }

  lemma SpecifierRead(l: Length, c: char, rest: string)
    requires ConversionOf(c).Some? && TakesArg(Number(l, ConversionOf(c).value)) && CString(rest)
    ensures var t := PrefixOf(l) + [c] + rest;
      CString(t) && t[0] != NUL && FormatAt(t) == Number(l, ConversionOf(c).value) && t[Taken(FormatAt(t))..] == rest
  {
    FormatRead(l, c, rest);
    ConcatCString(PrefixOf(l) + [c], rest);
  }

  /** A specifier that prints an argument, and what follows it. */
  lemma PatternRead(t: string, f: Format, rest: string, args: seq<Arg>)
    requires CString(t) && CString(rest) && t[0] != NUL && FormatAt(t) == f && TakesArg(f) && t[Taken(f)..] == rest
    ensures WellTypedPattern(t, args) <==> args != [] && Fits(f, args[0]) && WellTyped(rest, args[1..])
    ensures args != [] ==> RenderPattern(t, args) == Show(f, args[0]) + Render(rest, args[1..])
    ensures PointersPattern(t) == (if f == Number(Plain, Ptr) then 1 else 0) + Pointers(rest)
  {
  }

  /** What follows a specifier is printed after it, whatever it is. */
  lemma SpecifierStep(l: Length, c: char, rest: string, args: seq<Arg>)
    requires ConversionOf(c).Some? && TakesArg(Number(l, ConversionOf(c).value)) && CString(rest)
    ensures var s := "%" + (PrefixOf(l) + [c] + rest);
      var f := Number(l, ConversionOf(c).value);
      && CString(s)
      && (WellTyped(s, args) <==> args != [] && Fits(f, args[0]) && WellTyped(rest, args[1..]))
      && (args != [] ==> Render(s, args) == Show(f, args[0]) + Render(rest, args[1..]))
      && Pointers(s) == (if f == Number(Plain, Ptr) then 1 else 0) + Pointers(rest)
  {
    var t, f := PrefixOf(l) + [c] + rest, Number(l, ConversionOf(c).value);
    SpecifierRead(l, c, rest);
    PercentSign(t, args);
    PatternRead(t, f, rest, args);
  }

  function Specifier(prefix: string, c: char, rest: string): string {
    "%" + (prefix + [c] + rest)
  }

  /** What the specifier alone prints. */
  lemma SpecifierAlone(l: Length, c: char, a: Arg)
    requires ConversionOf(c).Some? && TakesArg(Number(l, ConversionOf(c).value))
    ensures var s := Specifier(PrefixOf(l), c, [NUL]);
      var f := Number(l, ConversionOf(c).value);
      CString(s) && (WellTyped(s, [a]) <==> Fits(f, a)) && Render(s, [a]) == Show(f, a) && Pointers(s) == if f == Number(Plain, Ptr) then 1 else 0
  {
    SpecifierStep(l, c, [NUL], [a]);
  }

  // ----- What numbers look like -----

  /** After `prefix`, the character `c` may be used with the argument `a`, and prints it as the number `v` in base `b`. */
  ghost predicate Shows(prefix: string, c: char, a: Arg, b: nat, capitals: bool, v: int) {
    var s := Specifier(prefix, c, [NUL]);
    CString(s) && WellTyped(s, [a]) && Writes(Render(s, [a]), b, capitals, v) && Pointers(s) == 0
  }

  /** The bases of the characters for unsigned numbers; only one of them prints capital letters. */
  predicate Radix(c: char, b: nat, capitals: bool) {
    || (c == 'u' && b == 10 && !capitals) || (c == 'o' && b == 8 && !capitals)
    || (c == 'x' && b == 16 && !capitals) || (c == 'X' && b == 16 && capitals)
  }

  lemma UnsignedCase(l: Length, c: char, b: nat, capitals: bool, a: Arg)
    requires Radix(c, b, capitals) && Fits(Number(l, ConversionOf(c).value), a)
    ensures Shows(PrefixOf(l), c, a, b, capitals, Part(l, a))
  {
    SpecifierAlone(l, c, a);
    RadixWrites(l, c, b, capitals, Part(l, a));
  }

  lemma RadixWrites(l: Length, c: char, b: nat, capitals: bool, v: nat)
    requires Radix(c, b, capitals)
    ensures Writes(ShowNumber(l, ConversionOf(c).value, v), b, capitals, v)
  {
    Charsets();
    if capitals {
      NumeralWrites(UPPER, capitals, b, v);
    } else {
      NumeralWrites(LOWER, capitals, b, v);
    }
  }

  /** Unsigned numbers: `hh` and `h` take what is left modulo 2^8 and 2^16, no prefix the whole word, `l` and `ll` all eight bytes. */
  lemma UnsignedShown(c: char, b: nat, capitals: bool, w: Word, x: U64)
    requires Radix(c, b, capitals)
    ensures Shows("hh", c, Four(w), b, capitals, w % 0x100)
    ensures Shows("h", c, Four(w), b, capitals, w % 0x1_0000)
    ensures Shows("", c, Four(w), b, capitals, w)
    ensures (c == 'u' ==> x < 10_000_000_000_000_000_000) ==>
      Shows("l", c, Eight(x), b, capitals, x) && Shows("ll", c, Eight(x), b, capitals, x)
  {
    UnsignedCase(ShortShort, c, b, capitals, Four(w));
    UnsignedCase(Short, c, b, capitals, Four(w));
    UnsignedCase(Plain, c, b, capitals, Four(w));
    if c == 'u' ==> x < 10_000_000_000_000_000_000 {
      UnsignedCase(Long, c, b, capitals, Eight(x));
      UnsignedCase(LongLong, c, b, capitals, Eight(x));
    }
  }

  lemma DecimalWrites(x: int)
    ensures Writes(SignedDecimal(x), 10, false, x)
  {
    Charsets();
    NumeralWrites(LOWER, false, 10, if x < 0 then -x else x);
    if x < 0 {
      assert ("-" + Decimal(-x))[1..] == Decimal(-x);
    }
  }

  lemma SignedCase(l: Length, c: char, a: Arg, v: int)
    requires (c == 'd' || c == 'i') && Fits(Number(l, Int), a) && v == Signed(Part(l, a), Size(l))
    ensures Shows(PrefixOf(l), c, a, 10, false, v)
  {
    SpecifierAlone(l, c, a);
    DecimalWrites(v);
  }

  /** `v` is the number between `-half` and `half` that has the same low bits as `w`. */
  ghost predicate TwosComplement(w: nat, half: int, v: int)
    requires half > 0
  {
    -half <= v < half && (w - v) % (2 * half) == 0
  }

  lemma SignedIs(w: nat, n: nat, half: int, v: int, low: nat)
    requires half > 0 && half == SignBit(n) && low == w % (2 * half) && TwosComplement(w, half, v)
    ensures v == Signed(low, n)
  {
    var size: nat := 2 * half;
    var k := (w - v) / size;
    assert w == k * size + v;
    if v < 0 {
      NotNegative(k - 1, size, v + size, w);
      DivUnique(w, size, k - 1, v + size);
    } else {
      NotNegative(k, size, v, w);
      DivUnique(w, size, k, v);
    }
  }

  lemma NotNegative(k: int, size: nat, r: nat, w: nat)
    requires w == k * size + r && r < size
    ensures k >= 0
  {
    if k < 0 {
      MulMonotone(1, -k, size);
    }
  }

  /** Signed numbers, in two's complement of eight, sixteen and thirty-two bits; eight bytes are for numbers below 2^31. */
  lemma SignedShown(c: char, w: Word, x: U64, byte: int, short: int, whole: int)
    requires c == 'd' || c == 'i'
    requires TwosComplement(w, 0x80, byte) && TwosComplement(w, 0x8000, short) && TwosComplement(w, 0x8000_0000, whole)
    ensures Shows("hh", c, Four(w), 10, false, byte)
    ensures Shows("h", c, Four(w), 10, false, short)
    ensures Shows("", c, Four(w), 10, false, whole)
    ensures x < 0x8000_0000 ==> Shows("l", c, Eight(x), 10, false, x) && Shows("ll", c, Eight(x), 10, false, x)
  {
    SignedFour(c, w, ShortShort, 0x80, byte);
    SignedFour(c, w, Short, 0x8000, short);
    SignedFour(c, w, Plain, 0x8000_0000, whole);
    if x < 0x8000_0000 {
      SignedCase(Long, c, Eight(x), x);
      SignedCase(LongLong, c, Eight(x), x);
    }
  }

  lemma SignedFour(c: char, w: Word, l: Length, half: int, v: int)
    requires (c == 'd' || c == 'i') && l != Long && l != LongLong
    requires half == (if l == ShortShort then 0x80 else if l == Short then 0x8000 else 0x8000_0000) && TwosComplement(w, half, v)
    ensures Shows(PrefixOf(l), c, Four(w), 10, false, v)
  {
    PartOfWord(w, l, half);
    SignedIs(w, Size(l), half, v, Part(l, Four(w)));
    SignedCase(l, c, Four(w), v);
  }

  lemma PartOfWord(w: Word, l: Length, half: int)
    requires l != Long && l != LongLong
    requires half == if l == ShortShort then 0x80 else if l == Short then 0x8000 else 0x8000_0000
    ensures half == SignBit(Size(l)) && Part(l, Four(w)) == w % (2 * half)
  {
    if l == Plain {
      DivUnique(w, WORD_LIMIT, 0, w);
    }
  }

  /** Pointers of four and of eight bytes: `0x` and all their digits. */
  lemma PointersShown(w: Word, x: U64)
    ensures PointerShows("", Four(w), 8, w) && PointerShows("l", Eight(x), 16, x)
  {
    PointerCase(Plain, Four(w), 8);
    PointerCase(Long, Eight(x), 16);
  }

  ghost predicate PointerShows(prefix: string, a: Arg, digits: nat, v: nat) {
    var s := Specifier(prefix, 'p', [NUL]);
    CString(s) && WellTyped(s, [a]) && |Render(s, [a])| == 2 + digits && Render(s, [a])[..2] == "0x"
    && Digits(Render(s, [a])[2..], 16, false) && Sum(16, Render(s, [a])[2..]) == v
  }

  lemma PointerCase(l: Length, a: Arg, digits: nat)
    requires TakesArg(Number(l, Ptr)) && Fits(Number(l, Ptr), a) && digits == 2 * Size(l)
    ensures PointerShows(PrefixOf(l), a, digits, Part(l, a))
  {
    SpecifierAlone(l, 'p', a);
    PointerDigits(l, a, digits, Part(l, a));
  }

  lemma PointerDigits(l: Length, a: Arg, digits: nat, v: nat)
    requires TakesArg(Number(l, Ptr)) && Fits(Number(l, Ptr), a) && digits == 2 * Size(l) && v == Part(l, a)
    ensures var s := ShowNumber(l, Ptr, v);
      |s| == 2 + digits && s[..2] == "0x" && Digits(s[2..], 16, false) && Sum(16, s[2..]) == v
  {
    Charsets();
    assert Pow(256, 4) == 0x1_0000_0000 && Pow(256, 8) == U64_LIMIT;
    BytesAreTwoDigits(Size(l));
    PaddedSum(LOWER, false, 16, v, digits);
    var shown := Padded(LOWER, 16, v, digits);
    assert ("0x" + shown)[..2] == "0x" && ("0x" + shown)[2..] == shown;
  }

  // ----- Whole formats, from the left -----

  predicate IsPrefix(prefix: string) {
    prefix == "hh" || prefix == "h" || prefix == "" || prefix == "l" || prefix == "ll"
  }

  /** The argument is of the size that the prefix says; eight-byte decimals are for small enough numbers. */
  ghost predicate Suits(prefix: string, c: char, a: Arg) {
    if prefix == "l" || prefix == "ll" then
      a.Eight? && ((c == 'd' || c == 'i') ==> a.long < 0x8000_0000) && (c == 'u' ==> a.long < 10_000_000_000_000_000_000)
    else a.Four?
  }

  lemma SuitsIsFits(l: Length, c: char, a: Arg)
    requires c in "diuoxX"
    ensures ConversionOf(c).Some? && TakesArg(Number(l, ConversionOf(c).value)) && ConversionOf(c) != Some(Ptr)
    ensures Suits(PrefixOf(l), c, a) <==> Fits(Number(l, ConversionOf(c).value), a)
  {
  }

  lemma PrefixIsOf(prefix: string) returns (l: Length)
    requires IsPrefix(prefix)
    ensures PrefixOf(l) == prefix
  {
    l := if prefix == "hh" then ShortShort else if prefix == "h" then Short else if prefix == "" then Plain else if prefix == "l" then Long else LongLong;
  }

  /** With an argument at hand or without. */
  lemma ArgStep(l: Length, c: char, f: Format, rest: string, a: Arg, args: seq<Arg>)
    requires ConversionOf(c).Some? && f == Number(l, ConversionOf(c).value) && TakesArg(f) && CString(rest)
    ensures var s, alone := Specifier(PrefixOf(l), c, rest), Specifier(PrefixOf(l), c, [NUL]);
      && CString(s) && CString(alone) && !WellTyped(s, [])
      && Pointers(s) == (if f == Number(Plain, Ptr) then 1 else 0) + Pointers(rest)
      && (WellTyped(s, [a] + args) <==> Fits(f, a) && WellTyped(rest, args))
      && Render(s, [a] + args) == Render(alone, [a]) + Render(rest, args)
  {
    var all := [a] + args;
    assert all[1..] == args;
    SpecifierStep(l, c, rest, all);
    SpecifierStep(l, c, rest, []);
    SpecifierAlone(l, c, a);
  }

  /** A number is printed as it is alone, and what follows it is printed with the other arguments. */
  lemma NumberStep(prefix: string, c: char, rest: string, a: Arg, args: seq<Arg>)
    requires IsPrefix(prefix) && c in "diuoxX" && CString(rest)
    ensures var s, alone := Specifier(prefix, c, rest), Specifier(prefix, c, [NUL]);
      && CString(s) && CString(alone) && !WellTyped(s, []) && Pointers(s) == Pointers(rest)
      && (WellTyped(s, [a] + args) <==> Suits(prefix, c, a) && WellTyped(rest, args))
      && Render(s, [a] + args) == Render(alone, [a]) + Render(rest, args)
  {
    var l := PrefixIsOf(prefix);
    SuitsIsFits(l, c, a);
    ArgStep(l, c, Number(l, ConversionOf(c).value), rest, a, args);
  }

  /** So is a pointer; without a prefix, it is counted. */
  lemma PointerStep(prefix: string, rest: string, a: Arg, args: seq<Arg>)
    requires (prefix == "" || prefix == "l") && CString(rest)
    ensures var s, alone := Specifier(prefix, 'p', rest), Specifier(prefix, 'p', [NUL]);
      && CString(s) && CString(alone) && !WellTyped(s, []) && Pointers(s) == Pointers(rest) + (if prefix == "" then 1 else 0)
      && (WellTyped(s, [a] + args) <==> (if prefix == "" then a.Four? else a.Eight?) && WellTyped(rest, args))
      && Render(s, [a] + args) == Render(alone, [a]) + Render(rest, args)
  {
    var l := if prefix == "" then Plain else Long;
    ArgStep(l, 'p', Number(l, Ptr), rest, a, args);
  }

  lemma StringRead(rest: string, t: string)
    requires CString(rest) && t == "s" + rest
    ensures CString(t) && t[0] != NUL && FormatAt(t) == Str && t[Taken(Str)..] == rest
  {
    FormatRead(Plain, 's', rest);
    ConcatCString("s", rest);
    assert PrefixOf(Plain) + "s" + rest == t;
  }

  /** A string is printed up to its NUL. */
  lemma StringStep(rest: string, text: string, a: Arg, args: seq<Arg>)
    requires CString(rest)
    ensures var s := "%" + ("s" + rest);
      && CString(s) && Pointers(s) == Pointers(rest) && !WellTyped(s, [])
      && (WellTyped(s, [a] + args) <==> a.Text? && CString(a.text) && WellTyped(rest, args))
      && (a == Text(text + [NUL]) ==> Render(s, [a] + args) == text + Render(rest, args))
  {
    var t, all := "s" + rest, [a] + args;
    StringRead(rest, t);
    PercentSign(t, all);
    PercentSign(t, []);
    assert all[1..] == args;
    PatternRead(t, Str, rest, all);
    PatternRead(t, Str, rest, []);
    assert (text + [NUL])[..|text|] == text;
  }

  /** A specifier that takes no argument prints one character's worth, and what follows is read as text again. */
  lemma PatternSkips(t: string, f: Format, args: seq<Arg>)
    requires CString(t) && t[0] != NUL && FormatAt(t) == f && !TakesArg(f)
    ensures CString(t[1..]) && WellTypedPattern(t, args) == WellTyped(t[1..], args)
    ensures RenderPattern(t, args) == (if f.Percent? then "%" else "???") + Render(t[1..], args)
    ensures PointersPattern(t) == Pointers(t[1..])
  {
    Suffix(t, 1);
  }

  lemma PercentRead(rest: string, t: string)
    requires CString(rest) && t == "%" + rest
    ensures CString(t) && t[0] != NUL && FormatAt(t) == Percent && t[1..] == rest
  {
    FormatRead(Plain, '%', rest);
    ConcatCString("%", rest);
    assert PrefixOf(Plain) + "%" + rest == t;
  }

  /** Two percent signs print one. */
  lemma PercentStep(rest: string, args: seq<Arg>)
    requires CString(rest)
    ensures var s := "%" + ("%" + rest);
      && CString(s) && Pointers(s) == Pointers(rest) && WellTyped(s, args) == WellTyped(rest, args)
      && Render(s, args) == "%" + Render(rest, args)
  {
    var t := "%" + rest;
    PercentRead(rest, t);
    PercentSign(t, args);
    PatternSkips(t, Percent, args);
  }

  /** The characters that end a specifier, after each prefix. */
  predicate Ends(prefix: string, c: char) {
    IsPrefix(prefix) && (c in "diuoxX" || (c == 'p' && (prefix == "" || prefix == "l")) || ((c == 's' || c == '%') && prefix == ""))
  }

  ghost predicate Known(t: string) {
    exists k :: 0 <= k < |t| && Ends(t[..k], t[k])
  }

  lemma FormatIsKnown(t: string)
    requires CString(t) && (TakesArg(FormatAt(t)) || FormatAt(t).Percent?)
    ensures Known(t)
  {
    var l := LengthAt(t);
    var k := Width(l);
    assert t[..k] == PrefixOf(l);
    assert Ends(t[..k], t[k]);
  }

  /** After any other percent sign, three question marks stand for one character. */
  lemma UnknownStep(t: string, args: seq<Arg>)
    requires CString(t) && t[0] != NUL && !Known(t)
    ensures CString("%" + t) && CString(t[1..]) && Pointers("%" + t) == Pointers(t[1..])
    ensures WellTyped("%" + t, args) == WellTyped(t[1..], args) && Render("%" + t, args) == "???" + Render(t[1..], args)
  {
    if TakesArg(FormatAt(t)) || FormatAt(t).Percent? {
      FormatIsKnown(t);
      assert false;
    }
    PercentSign(t, args);
    PatternSkips(t, FormatAt(t), args);
  }

  lemma TextCharacter(c: char, rest: string, s: string, args: seq<Arg>)
    requires CString(rest) && c != '%' && c != NUL && s == [c] + rest
    ensures CString(s) && Pointers(s) == Pointers(rest) && WellTyped(s, args) == WellTyped(rest, args)
    ensures Render(s, args) == [c] + Render(rest, args)
  {
    assert s[1..] == rest;
  }

  /** Text is printed as it is. */
  lemma {:induction false} TextStep(text: string, rest: string, args: seq<Arg>)
    requires CString(rest) && forall i :: 0 <= i < |text| ==> text[i] != '%' && text[i] != NUL
    ensures CString(text + rest) && Pointers(text + rest) == Pointers(rest)
    ensures WellTyped(text + rest, args) == WellTyped(rest, args) && Render(text + rest, args) == text + Render(rest, args)
  {
    if text == "" {
      assert text + rest == rest && text + Render(rest, args) == Render(rest, args);
    } else {
      var c, tail := text[0], text[1..];
      assert text == [c] + tail;
      TextStep(tail, rest, args);
      assert text + rest == [c] + (tail + rest);
      TextCharacter(c, tail + rest, text + rest, args);
    }
  }

  /** At the end of the format nothing is printed, also after a percent sign. */
  lemma EndStep(args: seq<Arg>)
    ensures CString([NUL]) && Render([NUL], args) == "" && WellTyped([NUL], args) && Pointers([NUL]) == 0
    ensures CString(['%', NUL]) && Render(['%', NUL], args) == "" && WellTyped(['%', NUL], args) && Pointers(['%', NUL]) == 0
  {
    assert ['%', NUL] == "%" + [NUL];
    PercentSign([NUL], args);
  }
}
