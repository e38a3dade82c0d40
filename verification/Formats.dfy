/** Format strings: what they ask for (a part of section 7.21.6.1 of ISO/IEC 9899:2018, with `l` for 64 bits). */
module Formats {
  import opened Machine
  import opened Numerals
  import opened KernelMath
  import opened Printer

  const NUL: char := '\0'

  /** The prefixes `hh`, `h`, none, `l` and `ll`. */
  datatype Length = ShortShort | Short | Plain | Long | LongLong

  datatype Conversion = Int | Uint | Ptr | Oct | Hex | BigHex

  /** What a `%` is followed by. */
  datatype Format = Invalid | Number(length: Length, conversion: Conversion) | Str | Percent

  datatype Option<T> = None | Some(value: T)

  /** An argument of the call: an `int`, an eight-byte integer, or a string. */
  datatype Arg = Four(word: Word) | Eight(long: U64) | Text(text: string)

  /** A string that ends at its only NUL. */
  ghost predicate CString(s: string) {
    s != "" && s[|s| - 1] == NUL && forall i :: 0 <= i < |s| - 1 ==> s[i] != NUL
  }

  lemma Suffix(s: string, i: nat)
    requires CString(s) && i < |s|
    ensures CString(s[i..]) && s[i..][0] == s[i] && (s[i] == NUL <==> i == |s| - 1)
  {
  }

  function ConversionOf(c: char): Option<Conversion> {
    match c
    case 'd' => Some(Int)
    case 'i' => Some(Int)
    case 'u' => Some(Uint)
    case 'p' => Some(Ptr)
    case 'o' => Some(Oct)
    case 'x' => Some(Hex)
    case 'X' => Some(BigHex)
    case _ => None
  }

  function Width(l: Length): nat {
    match l
    case ShortShort => 2
    case Short => 1
    case Plain => 0
    case Long => 1
    case LongLong => 2
  }

  /** The longest prefix that a string starts with. */
  function LengthAt(s: string): Length {
    if "hh" <= s then ShortShort else if "h" <= s then Short else if "ll" <= s then LongLong else if "l" <= s then Long else Plain
  }

  lemma PrefixEnds(s: string)
    requires CString(s)
    ensures Width(LengthAt(s)) < |s|
  {
  }

  /** The specifier that a string starts with. */
  function FormatAt(s: string): Format {
    var l := LengthAt(s);
    if Width(l) >= |s| then Invalid
    else
      match ConversionOf(s[Width(l)])
      case Some(c) => Number(l, c)
      case None => if l == Plain && s[0] == 's' then Str else if l == Plain && s[0] == '%' then Percent else Invalid
  }

  /** Specifiers that print an argument. Pointers have no short and no `ll` form. */
  predicate TakesArg(f: Format) {
    f.Str? || (f.Number? && (f.conversion == Ptr ==> f.length == Plain || f.length == Long))
  }

  function Size(l: Length): nat {
    match l
    case ShortShort => 1
    case Short => 2
    case Plain => 4
    case Long => 8
    case LongLong => 8
  }

  /** The part of an argument that is printed. */
  function Part(l: Length, a: Arg): nat {
    match a
    case Four(w) => if l == ShortShort then w % 0x100 else if l == Short then w % 0x1_0000 else w
    case Eight(v) => v
    case Text(_) => 0
  }

  /**
   * The argument is of the type that the specifier asks for. Eight-byte decimal numbers are those for which the source is
   * defined: below 2^31 when signed, and below 10^19 when unsigned.
   */
  ghost predicate Fits(f: Format, a: Arg) {
    match f
    case Number(l, c) =>
      if l == Long || l == LongLong
      then a.Eight? && (c == Int ==> a.long < 0x8000_0000) && (c == Uint ==> a.long < EXP10[19])
      else a.Four?
    case Str => a.Text? && CString(a.text)
    case _ => true
  }

  function ShowNumber(l: Length, c: Conversion, v: nat): string {
    match c
    case Int => SignedDecimal(Signed(v, Size(l)))
    case Uint => Decimal(v)
    case Ptr => "0x" + Padded(LOWER, 16, v, 2 * Size(l))
    case Oct => Numeral(LOWER, 8, v)
    case Hex => Numeral(LOWER, 16, v)
    case BigHex => Numeral(UPPER, 16, v)
  }

  function Show(f: Format, a: Arg): string {
    match f
    case Number(l, c) => ShowNumber(l, c, Part(l, a))
    case Str => if a.Text? && a.text != "" then a.text[..|a.text| - 1] else ""
    case Percent => "%"
    case Invalid => "???"
  }

  /** What a printed number reads as. */
  function ReadNumber(c: Conversion, s: string): int {
    match c
    case Int => SignedValue(s)
    case Uint => Value(LOWER, 10, s)
    case Ptr => if |s| >= 2 then Value(LOWER, 16, s[2..]) else 0
    case Oct => Value(LOWER, 8, s)
    case Hex => Value(LOWER, 16, s)
    case BigHex => Value(UPPER, 16, s)
  }

  /** Every number that is printed can be read back, the smallest of each signed type included. */
  lemma NumbersReadBack(l: Length, c: Conversion, v: nat)
    requires v < Pow(256, Size(l))
    ensures ReadNumber(c, ShowNumber(l, c, v)) == if c == Int then Signed(v, Size(l)) else v
  {
    TablesOk();
    match c
    case Int => SignedRoundTrip(Signed(v, Size(l)));
    case Uint => RoundTrip(LOWER, 10, v);
    case Ptr =>
      BytesAreTwoDigits(Size(l));
      PaddedRoundTrip(LOWER, 16, v, 2 * Size(l));
      assert ("0x" + Padded(LOWER, 16, v, 2 * Size(l)))[2..] == Padded(LOWER, 16, v, 2 * Size(l));
    case Oct => RoundTrip(LOWER, 8, v);
    case Hex => RoundTrip(LOWER, 16, v);
    case BigHex => RoundTrip(UPPER, 16, v);
  }

  lemma {:induction false} BytesAreTwoDigits(n: nat)
    ensures Pow(256, n) == Pow(16, 2 * n)
  {
    if n != 0 {
      BytesAreTwoDigits(n - 1);
      assert Pow(16, 2 * n) == 16 * (16 * Pow(16, 2 * n - 2));
    }
  }

  /** How many characters after the `%` a specifier takes; when it prints no argument, one. */
  function Taken(f: Format): nat {
    if f.Number? && TakesArg(f) then Width(f.length) + 1 else 1
  }

  // ----- What is printed for a whole format -----

  ghost function Render(s: string, args: seq<Arg>): string
    requires CString(s)
    decreases |s|, 1
  {
    if s[0] == NUL then ""
    else
      Suffix(s, 1);
      if s[0] == '%' then RenderPattern(s[1..], args) else [s[0]] + Render(s[1..], args)
  }

  ghost function RenderPattern(s: string, args: seq<Arg>): string
    requires CString(s)
    decreases |s|, 0
  {
    if s[0] == NUL then ""
    else
      var f := FormatAt(s);
      TakenFits(s);
      Suffix(s, Taken(f));
      if !TakesArg(f) then (if f.Percent? then "%" else "???") + Render(s[Taken(f)..], args)
      else if args == [] then ""
      else Show(f, args[0]) + Render(s[Taken(f)..], args[1..])
  }

  lemma TakenFits(s: string)
    requires CString(s) && s[0] != NUL
    ensures 0 < Taken(FormatAt(s)) < |s|
  {
    PrefixEnds(s);
    Suffix(s, Width(LengthAt(s)));
  }

  /** There is an argument of the right type for every specifier that prints one. */
  ghost predicate WellTyped(s: string, args: seq<Arg>)
    requires CString(s)
    decreases |s|, 1
  {
    s[0] == NUL || (
      Suffix(s, 1);
      if s[0] == '%' then WellTypedPattern(s[1..], args) else WellTyped(s[1..], args))
  }

  ghost predicate WellTypedPattern(s: string, args: seq<Arg>)
    requires CString(s)
    decreases |s|, 0
  {
    s[0] == NUL || (
      var f := FormatAt(s);
      TakenFits(s);
      Suffix(s, Taken(f));
      if !TakesArg(f) then WellTyped(s[Taken(f)..], args)
      else args != [] && Fits(f, args[0]) && WellTyped(s[Taken(f)..], args[1..]))
  }

  /** How many times a format prints a four-byte pointer. */
  ghost function Pointers(s: string): nat
    requires CString(s)
    decreases |s|, 1
  {
    if s[0] == NUL then 0
    else
      Suffix(s, 1);
      if s[0] == '%' then PointersPattern(s[1..]) else Pointers(s[1..])
  }

  ghost function PointersPattern(s: string): nat
    requires CString(s)
    decreases |s|, 0
  {
    if s[0] == NUL then 0
    else
      TakenFits(s);
      Suffix(s, Taken(FormatAt(s)));
      (if FormatAt(s) == Number(Plain, Ptr) then 1 else 0) + Pointers(s[Taken(FormatAt(s))..])
  }
}
