/** The number printers of _print.c, which emit one character at a time. */
module Printer {
  import opened Machine
  import opened Numerals
  import opened KernelMath

  type Byte = x: int | 0 <= x < 256

  /** The number that bytes in memory stand for, the lowest first. */
  function LittleEndian(s: seq<Byte>): nat {
    if s == [] then 0 else s[0] + 256 * LittleEndian(s[1..])
  }

  function Bytes(v: nat, n: nat): (s: seq<Byte>)
    ensures |s| == n
  {
    if n == 0 then [] else [v % 256] + Bytes(v / 256, n - 1)
  }

  lemma {:induction false} BytesRoundTrip(v: nat, n: nat)
    requires v < Pow(256, n)
    ensures LittleEndian(Bytes(v, n)) == v
  {
    if n != 0 {
      BytesRoundTrip(v / 256, n - 1);
      assert Bytes(v, n)[1..] == Bytes(v / 256, n - 1);
    }
  }

  lemma {:induction false} LittleEndianAppend(s: seq<Byte>, x: Byte)
    ensures LittleEndian(s + [x]) == LittleEndian(s) + x * Pow(256, |s|)
    ensures LittleEndian(s) < Pow(256, |s|)
  {
    if s == [] {
      assert [x][1..] == [];
    } else {
      LittleEndianAppend(s[1..], x);
      assert (s + [x])[1..] == s[1..] + [x];
      Associate(256, x, Pow(256, |s| - 1));
    }
  }

  lemma LoadStep(s: seq<Byte>, i: nat)
    requires i < |s| <= 8
    ensures LittleEndian(s[..i + 1]) == LittleEndian(s[..i]) + s[i] * Pow(256, i) < U64_LIMIT
  {
    var t := s[..i + 1];
    assert t == s[..i] + [s[i]];
    LittleEndianAppend(s[..i], s[i]);
    LittleEndianAppend(t, 0);
    PowMonotone(256, i + 1, 8);
    assert Pow(256, 8) == U64_LIMIT;
  }

  /** The sign bit of an integer of so many bytes. */
  function SignBit(size: nat): nat {
    if size == 1 then 0x80 else if size == 2 then 0x8000 else 0x8000_0000
  }

  predicate SignSet(v: nat, size: nat) {
    (if size == 1 then v / 0x80 else if size == 2 then v / 0x8000 else v / 0x8000_0000) % 2 == 1
  }

  /** Two's complement. */
  function Signed(v: nat, size: nat): int {
    if v < SignBit(size) then v else v - 2 * SignBit(size)
  }

  function Decimal(v: nat): string {
    Numeral(LOWER, 10, v)
  }

  function SignedDecimal(x: int): string {
    if x < 0 then "-" + Decimal(-x) else Decimal(x)
  }

  function SignedValue(s: string): int {
    if s != "" && s[0] == '-' then 0 - Value(LOWER, 10, s[1..]) else Value(LOWER, 10, s)
  }

  lemma TablesOk()
    ensures Table(LOWER) && Table(UPPER)
    ensures forall i :: 0 <= i < 16 ==> LOWER[i] as int == if i < 10 then '0' as int + i else 'a' as int + i - 10
    ensures forall i :: 0 <= i < 16 ==> UPPER[i] as int == if i < 10 then '0' as int + i else 'A' as int + i - 10
  {
  }

  lemma {:induction false} NumeralInTable(b: Base, v: nat)
    ensures Numeral(LOWER, b, v) != [] && Numeral(LOWER, b, v)[0] in LOWER
  {
    if v >= b {
      NumeralInTable(b, v / b);
    }
  }

  /** Reading a signed decimal numeral gives the number back. */
  lemma SignedRoundTrip(x: int)
    ensures SignedValue(SignedDecimal(x)) == x
  {
    if x < 0 {
      ReadBack(-x);
      MinusSign(Decimal(-x));
    } else {
      ReadBack(x);
      NoMinusSign(Decimal(x));
    }
  }

  lemma ReadBack(n: nat)
    ensures Value(LOWER, 10, Decimal(n)) == n && Decimal(n) != "" && Decimal(n)[0] in LOWER
  {
    TablesOk();
    RoundTrip(LOWER, 10, n);
    NumeralInTable(10, n);
  }

  lemma MinusSign(s: string)
    ensures SignedValue("-" + s) == 0 - Value(LOWER, 10, s)
  {
    assert ("-" + s)[1..] == s;
  }

  lemma NoMinusSign(s: string)
    requires s != "" && s[0] in LOWER
    ensures SignedValue(s) == Value(LOWER, 10, s)
  {
  }

  class Console {
    /** What was emitted so far. */
    var out: string

    constructor ()
      ensures out == ""
    {
      out := "";
    }

    /** `VGA_PUTC`. */
    method PutC(c: char)
      modifies this
      ensures out == old(out) + [c]
    {
      out := out + [c];
    }

    /** The loop that every number printer starts with; the parts of the sum have no bits in common. */
    method LoadNumber(bytes: seq<Byte>) returns (num: U64)
      requires |bytes| <= 8
      ensures num == LittleEndian(bytes)
    {
      num := 0;
      var i := 0;
      while i < |bytes|
        invariant 0 <= i <= |bytes| && num == LittleEndian(bytes[..i])
      {
        LoadStep(bytes, i);
        num := num + bytes[i] * Pow(256, i);
        i := i + 1;
      }
      assert bytes[..i] == bytes;
    }

    /** The loop that prints the decimal digits of a number, from the front. */
    method PrintDigits(v: U64) returns (count: nat)
      requires v < EXP10[19]
      modifies this
      ensures out == old(out) + Decimal(v) && count == |Decimal(v)|
    {
      var num: U64, j: int := v, Ilog10u(v);
      count := j + 1;
      ghost var printed := "";
      StartDigits(v, count);
      while j >= 0
        invariant -1 <= j < count <= 19 && Left(v, num, j + 1)
        invariant Progress(LOWER, 10, v, j + 1, count, printed) && out == old(out) + printed
      {
        var digit, rest := NextDigit(num, j, v);
        DigitStep(v, num, digit, rest, j, count, printed);
        PutC(LOWER[digit]);
        printed := printed + [LOWER[digit]];
        num := rest;
        j := j - 1;
      }
      NoneToCome(LOWER, 10, v, count, printed);
      AllPrinted(LOWER, 10, v, count);
    }

    method NextDigit(num: U64, j: nat, ghost v: U64) returns (digit: U64, rest: int)
      requires j < 19 && Left(v, num, j + 1)
      ensures Divided(num, EXP10[j], digit, rest)
    {
      DigitIsExact(v, num, j);
      ExactEnds(num, EXP10[j]);
      digit := Div64(num, EXP10[j]);
      rest := num - digit * EXP10[j];
    }

    /** `_print_dec_unsigned`. */
    method PrintDecUnsigned(bytes: seq<Byte>) returns (count: nat)
      requires |bytes| <= 8 && LittleEndian(bytes) < EXP10[19]
      modifies this
      ensures out == old(out) + Decimal(LittleEndian(bytes)) && count == |Decimal(LittleEndian(bytes))|
    {
      var num := LoadNumber(bytes);
      count := PrintDigits(num);
    }

    /** `_print_dec_signed`. Eight-byte numbers must be below 2^31, where the source's test for the sign can only give one answer. */
    method PrintDecSigned(bytes: seq<Byte>) returns (count: nat)
      requires |bytes| in {1, 2, 4, 8} && (|bytes| == 8 ==> LittleEndian(bytes) < 0x8000_0000)
      modifies this
      ensures out == old(out) + SignedDecimal(Signed(LittleEndian(bytes), |bytes|))
      ensures count == |SignedDecimal(Signed(LittleEndian(bytes), |bytes|))|
    {
      var num := LoadNumber(bytes);
      var negative := SignSet(num, |bytes|);
      var magnitude := if negative then 2 * SignBit(|bytes|) - num else num;
      SignedBounds(bytes, num, |bytes|, negative, magnitude);
      if negative {
        PutC('-');
      }
      count := PrintDigits(magnitude);
      count := if negative then count + 1 else count;
    }

    /** The loop of `_print_oct`, `_print_hex` and `_print_Hex`, which print `w` bits at a time, from the front. */
    method PrintGroups(num: U64, table: string, b: Base, w: nat) returns (count: nat)
      requires |table| == 16 && Group(b, w)
      modifies this
      ensures out == old(out) + Numeral(table, b, num) && count == |Numeral(table, b, num)|
    {
      var i := Ilog2u(num);
      GroupBits(num, b, w, i);
      var digits: nat := if w == 3 then i / 3 else i / 4;
      count := digits + 1;
      PrintPositions(num, table, b, w, digits);
      AllPrinted(table, b, num, count);
    }

    /** The digits from position `top` down. */
    method PrintPositions(num: U64, table: string, b: Base, w: nat, top: nat)
      requires |table| == 16 && Group(b, w)
      modifies this
      ensures out == old(out) + Padded(table, b, num, top + 1)
    {
      var j: int := top * w;
      ghost var k, printed: string := top, "";
      NothingPrinted(table, b, num, top + 1);
      while j >= 0
        invariant -1 <= k <= top && j == k * w
        invariant Progress(table, b, num, k + 1, top + 1, printed) && out == old(out) + printed
        decreases j
      {
        var digit := LowBits(Shift(num, j), w);
        GroupStep(table, num, b, w, k, j, top + 1, printed, digit);
        PutC(table[digit]);
        printed := printed + [table[digit]];
        j := j - w;
        k := k - 1;
      }
      NoneToCome(table, b, num, top + 1, printed);
    }

    /** `_print_oct`. */
    method PrintOct(bytes: seq<Byte>) returns (count: nat)
      requires |bytes| <= 8
      modifies this
      ensures out == old(out) + Numeral(LOWER, 8, LittleEndian(bytes)) && count == |Numeral(LOWER, 8, LittleEndian(bytes))|
    {
      var num := LoadNumber(bytes);
      count := PrintGroups(num, LOWER, 8, 3);
    }

    /** `_print_hex` and `_print_Hex`, which differ in the table. */
    method PrintHex(bytes: seq<Byte>, table: string) returns (count: nat)
      requires |bytes| <= 8 && |table| == 16
      modifies this
      ensures out == old(out) + Numeral(table, 16, LittleEndian(bytes)) && count == |Numeral(table, 16, LittleEndian(bytes))|
    {
      var num := LoadNumber(bytes);
      count := PrintGroups(num, table, 16, 4);
    }

    /** `_print_ptr`: all digits, with leading zeros. The count is that of an eight-byte pointer, whatever the size. */
    method PrintPtr(bytes: seq<Byte>) returns (count: nat)
      requires 0 < |bytes| <= 8
      modifies this
      ensures out == old(out) + "0x" + Padded(LOWER, 16, LittleEndian(bytes), 2 * |bytes|) && count == 18
    {
      var num := LoadNumber(bytes);
      PutC('0');
      PutC('x');
      PrintPositions(num, LOWER, 16, 4, 2 * |bytes| - 1);
      count := 2 + 16;
    }
  }

  function LowBits(x: nat, w: nat): (d: nat)
    ensures d < 16
  {
    if w == 3 then x % 8 else x % 16
  }

  lemma GroupBits(v: U64, b: Base, w: nat, i: nat)
    requires Group(b, w) && (v > 0 ==> Pow(2, i) <= v < Pow(2, i + 1)) && (v == 0 ==> i == 0)
    ensures HasDigits(b, v, (if w == 3 then i / 3 else i / 4) + 1)
  {
    assert Pow(2, 3) == 8 && Pow(2, 4) == 16;
    BitsToDigits(b, w, v, i, if w == 3 then i / 3 else i / 4);
  }

  lemma GroupStep(table: string, v: U64, b: Base, w: nat, k: nat, j: nat, n: nat, printed: string, digit: nat)
    requires Group(b, w) && j == k * w && digit == LowBits(Shift(v, j), w)
    requires Progress(table, b, v, k + 1, n, printed)
    ensures digit < 16 && |table| == 16 && Progress(table, b, v, k, n, printed + [table[digit]])
  {
    ShiftIsDropped(v, b, w, k, j);
    PrintedOne(table, b, v, k, n, printed, digit);
  }

  lemma SignedBounds(bytes: seq<Byte>, num: U64, size: nat, negative: bool, magnitude: int)
    requires size == |bytes| && size in {1, 2, 4, 8} && (size == 8 ==> LittleEndian(bytes) < 0x8000_0000) && num == LittleEndian(bytes)
    requires negative == SignSet(num, size) && magnitude == if negative then 2 * SignBit(size) - num else num
    ensures 0 <= magnitude < EXP10[19]
    ensures SignedDecimal(Signed(num, size)) == if negative then "-" + Decimal(magnitude) else Decimal(magnitude)
  {
    LoadedBound(bytes, num, size);
    SignSetMeans(num, size);
  }

  lemma LoadedBound(bytes: seq<Byte>, num: U64, size: nat)
    requires size == |bytes| && size in {1, 2, 4, 8} && (size == 8 ==> LittleEndian(bytes) < 0x8000_0000) && num == LittleEndian(bytes)
    ensures num < 2 * SignBit(size)
  {
    LittleEndianAppend(bytes, 0);
    assert Pow(256, 1) == 0x100 && Pow(256, 2) == 0x1_0000 && Pow(256, 4) == 0x1_0000_0000;
  }

  lemma SignSetMeans(num: nat, size: nat)
    requires num < 2 * SignBit(size) && size in {1, 2, 4, 8}
    ensures SignSet(num, size) <==> num >= SignBit(size)
  {
  }

  // ----- The digit loops -----

  /** What is left of `v` when its digits from position `k` on are printed. */
  ghost predicate Left(v: nat, num: int, k: nat) {
    true == (Pow(10, k) > 0 && num == v % Pow(10, k))
  }

  /** What is printed of an `n`-digit number when `k` digits are still to come. */
  ghost predicate Progress(table: string, b: Base, v: nat, k: nat, n: nat, printed: string) {
    true == (|table| == 16 && k <= n && printed == Padded(table, b, Dropped(b, v, k), n - k))
  }

  lemma NothingPrinted(table: string, b: Base, v: nat, n: nat)
    requires |table| == 16
    ensures Progress(table, b, v, n, n, "")
  {
  }

  lemma PrintedOne(table: string, b: Base, v: nat, k: nat, n: nat, printed: string, digit: nat)
    requires Progress(table, b, v, k + 1, n, printed) && digit == Dropped(b, v, k) % b
    ensures digit < 16 && |table| == 16 && Progress(table, b, v, k, n, printed + [table[digit]])
  {
    PaddedAppend(table, b, Dropped(b, v, k), Dropped(b, v, k + 1), n - k - 1);
  }

  lemma NoneToCome(table: string, b: Base, v: nat, n: nat, printed: string)
    requires Progress(table, b, v, 0, n, printed)
    ensures |table| == 16 && printed == Padded(table, b, v, n)
  {
  }

  lemma AllPrinted(table: string, b: Base, v: nat, n: nat)
    requires |table| == 16 && HasDigits(b, v, n)
    ensures Padded(table, b, v, n) == Numeral(table, b, v) && |Numeral(table, b, v)| == n
  {
    PaddedIsNumeral(table, b, v, n);
  }

  lemma StartDigits(v: U64, n: nat)
    requires v < EXP10[19] && n == Ilog10u(v) + 1
    ensures n <= 19 && HasDigits(10, v, n) && Left(v, v, n) && Progress(LOWER, 10, v, n, n, "")
  {
    Ilog10uDigits(v);
    Exp10IsPow(19);
    AtMost(10, v, n, 19);
    DivUnique(v, Pow(10, n), 0, v);
    NothingPrinted(LOWER, 10, v, n);
  }

  lemma AtMost(b: Base, v: nat, n: nat, m: nat)
    requires HasDigits(b, v, n) && v < Pow(b, m) && m > 0
    ensures n <= m
  {
    if n > m {
      PowMonotone(b, m, n - 1);
    }
  }

  lemma LeftBound(v: nat, num: nat, k: nat)
    requires Left(v, num, k)
    ensures num < Pow(10, k)
  {
  }

  lemma DigitIsExact(v: U64, num: U64, j: nat)
    requires j < 19 && Left(v, num, j + 1)
    ensures Exact(num, EXP10[j])
  {
    LeftBound(v, num, j + 1);
    TenfoldIsExact(num, j);
  }

  ghost predicate Divided(num: int, p: int, digit: int, rest: int) {
    true == (p > 0 && digit == num / p && rest == num - digit * p)
  }

  lemma LeftStep(v: nat, num: nat, digit: nat, j: nat, p: nat)
    requires Left(v, num, j + 1) && p == Pow(10, j) > 0 && digit == num / p
    ensures digit == v / p % 10 && digit < 10
    ensures 0 <= num - digit * p && Left(v, num - digit * p, j)
  {
    LeadingDigit(10, v, j);
  }

  lemma DigitStep(v: U64, num: U64, digit: nat, rest: int, j: nat, n: nat, printed: string)
    requires j < n <= 19 && Left(v, num, j + 1) && Divided(num, EXP10[j], digit, rest)
    requires Progress(LOWER, 10, v, j + 1, n, printed)
    ensures digit < 10 && 0 <= rest <= num && Left(v, rest, j)
    ensures Progress(LOWER, 10, v, j, n, printed + [LOWER[digit]])
  {
    var p := Pow(10, j);
    Exp10IsPow(j);
    PowPositive(10, j);
    LeftStep(v, num, digit, j, p);
    DroppedIsQuotient(10, v, j);
    PrintedOne(LOWER, 10, v, j, n, printed, digit);
  }
}
