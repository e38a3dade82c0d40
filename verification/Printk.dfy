/** The parser of format specifiers and the driver of _print.c. */
module Printk {
  import opened Machine
  import opened Numerals
  import opened KernelMath
  import opened Printer
  import opened Formats

  /** The states of `_parse_format` while it reads are the prefixes read so far; `i` is where a prefix ends. */
  ghost predicate Reading(format: string, start: nat, i: nat, state: Length) {
    && CString(format) && start + Width(state) == i < |format|
    && (Width(state) > 0 ==> format[start] == if state == Short || state == ShortShort then 'h' else 'l')
    && (Width(state) > 1 ==> format[start + 1] == format[start])
  }

  /** What a prefix and the character after it come to. */
  function Finished(l: Length, c: char): Format {
    match ConversionOf(c)
    case Some(k) => Number(l, k)
    case None => if l == Plain && c == 's' then Str else if l == Plain && c == '%' then Percent else Invalid
  }

  /** A specifier that is read to its end. */
  lemma LengthRead(format: string, start: nat, i: nat, state: Length)
    requires Reading(format, start, i, state)
    requires state == Plain ==> format[i] != 'h' && format[i] != 'l'
    requires state == Short ==> format[i] != 'h'
    requires state == Long ==> format[i] != 'l'
    ensures FormatAt(format[start..]) == Finished(state, format[i])
  {
    var s := format[start..];
    assert s[Width(state)] == format[i];
    assert Width(state) > 0 ==> s[0] == format[start];
    assert Width(state) > 1 ==> s[1] == format[start + 1];
    if state == ShortShort {
      assert s[..2] == "hh";
    } else if state == LongLong {
      assert s[..2] == "ll";
    } else if state == Short || state == Long {
      assert s[..1] == [format[start]];
    }
  }

  /** `_parse_format`, a state machine that reads one character at a time, and none past the end. */
  method ParseFormat(format: string, start: nat) returns (f: Format)
    requires CString(format) && start < |format|
    ensures f == FormatAt(format[start..])
  {
    var i: nat, state, reading := start, Plain, true;
    f := Invalid;
    while reading
      invariant reading ==> Reading(format, start, i, state)
      invariant !reading ==> f == FormatAt(format[start..])
      decreases if reading then 3 - Width(state) else 0
    {
      var c := format[i];
      if state == Plain && c == 'h' {
        state := Short;
      } else if state == Plain && c == 'l' {
        state := Long;
      } else if state == Short && c == 'h' {
        state := ShortShort;
      } else if state == Long && c == 'l' {
        state := LongLong;
      } else {
        LengthRead(format, start, i, state);
        match ConversionOf(c) {
          case Some(k) =>
            f := Number(state, k);
          case None =>
            if state == Plain && c == 's' {
              f := Str;
            } else if state == Plain && c == '%' {
              f := Percent;
            } else {
              f := Invalid;
            }
        }
        reading := false;
      }
      i := i + 1;
    }
  }

  /** The characters of an argument string. */
  method PrintString(con: Console, s: string) returns (count: nat)
    requires CString(s)
    modifies con
    ensures con.out == old(con.out) + s[..|s| - 1] && count == |s| - 1
  {
    var i := 0;
    count := 0;
    while s[i] != NUL
      invariant 0 <= i < |s| && count == i && con.out == old(con.out) + s[..i]
      decreases |s| - i
    {
      con.PutC(s[i]);
      assert s[..i + 1] == s[..i] + [s[i]];
      count := count + 1;
      i := i + 1;
    }
  }

  lemma PartBound(l: Length, c: Conversion, a: Arg)
    requires TakesArg(Number(l, c)) && Fits(Number(l, c), a)
    ensures Part(l, a) < Pow(256, Size(l)) && LittleEndian(Bytes(Part(l, a), Size(l))) == Part(l, a)
    ensures c == Uint ==> Part(l, a) < EXP10[19]
    ensures c == Int && Size(l) == 8 ==> Part(l, a) < 0x8000_0000
  {
    assert Pow(256, 1) == 0x100 && Pow(256, 2) == 0x1_0000 && Pow(256, 4) == 0x1_0000_0000 && Pow(256, 8) == U64_LIMIT;
    BytesRoundTrip(Part(l, a), Size(l));
  }

  /** The cases of `_print_format` for numbers. */
  method PrintNumber(con: Console, l: Length, c: Conversion, a: Arg) returns (count: nat)
    requires TakesArg(Number(l, c)) && Fits(Number(l, c), a)
    modifies con
    ensures con.out == old(con.out) + ShowNumber(l, c, Part(l, a))
    ensures count == |ShowNumber(l, c, Part(l, a))| + if l == Plain && c == Ptr then 8 else 0
  {
    var bytes := Bytes(Part(l, a), Size(l));
    PartBound(l, c, a);
    match c
    case Int => count := con.PrintDecSigned(bytes);
    case Uint => count := con.PrintDecUnsigned(bytes);
    case Oct => count := con.PrintOct(bytes);
    case Hex => count := con.PrintHex(bytes, LOWER);
    case BigHex => count := con.PrintHex(bytes, UPPER);
    case Ptr => count := con.PrintPtr(bytes);
  }

  /**
   * `_print_format` at index `i`, with argument `k` next. The index moves to the last character of a specifier that is printed;
   * one that is not known prints three question marks and leaves the index where it is.
   */
  method PrintFormat(con: Console, format: string, i: nat, args: seq<Arg>, k: nat)
    returns (count: nat, i': nat, k': nat, ghost shown: string)
    requires CString(format) && i < |format| - 1 && k <= |args|
    requires TakesArg(FormatAt(format[i..])) ==> k < |args| && Fits(FormatAt(format[i..]), args[k])
    modifies con
    ensures con.out == old(con.out) + shown
    ensures var f := FormatAt(format[i..]);
      && shown == (if TakesArg(f) then Show(f, args[k]) else if f.Percent? then "%" else "???")
      && count == |shown| + (if f == Number(Plain, Ptr) then 8 else 0)
      && i' == i + Taken(f) - 1 && k' == if TakesArg(f) then k + 1 else k
  {
    var f := ParseFormat(format, i);
    i', k' := i, k;
    shown := if TakesArg(f) then Show(f, args[k]) else if f.Percent? then "%" else "???";
    match f
    case Number(l, c) =>
      if c == Ptr && l != Plain && l != Long {
        count := PutQuestionMarks(con);
      } else {
        count := PrintNumber(con, l, c, args[k]);
        k' := k + 1;
        match l {
          case ShortShort => i' := i + 2;
          case Short => i' := i + 1;
          case Plain =>
          case Long => i' := i + 1;
          case LongLong => i' := i + 2;
        }
      }
    case Str =>
      count := PrintString(con, args[k].text);
      k' := k + 1;
    case Percent =>
      con.PutC('%');
      count := 1;
    case Invalid =>
      count := PutQuestionMarks(con);
  }

  method PutQuestionMarks(con: Console) returns (count: nat)
    modifies con
    ensures con.out == old(con.out) + "???" && count == 3
  {
    con.PutC('?');
    con.PutC('?');
    con.PutC('?');
    count := 3;
  }

  /** What is still to be printed at an index of the loop of `_print`. */
  ghost function ToCome(format: string, i: nat, pattern: bool, args: seq<Arg>): string
    requires CString(format) && i < |format|
  {
    Suffix(format, i);
    if pattern then RenderPattern(format[i..], args) else Render(format[i..], args)
  }

  ghost predicate TypedFrom(format: string, i: nat, pattern: bool, args: seq<Arg>)
    requires CString(format) && i < |format|
  {
    Suffix(format, i);
    if pattern then WellTypedPattern(format[i..], args) else WellTyped(format[i..], args)
  }

  ghost function PointersFrom(format: string, i: nat, pattern: bool): nat
    requires CString(format) && i < |format|
  {
    Suffix(format, i);
    if pattern then PointersPattern(format[i..]) else Pointers(format[i..])
  }

  /** The loop has printed `out`, counted `bytes`, and still has `rest` of the arguments. */
  ghost predicate Driven(format: string, all: seq<Arg>, i: nat, pattern: bool, rest: seq<Arg>, out: string, bytes: int) {
    true == (
      && CString(format) && i < |format| && TypedFrom(format, i, pattern, rest)
      && WellTyped(format, all) && Render(format, all) == out + ToCome(format, i, pattern, rest)
      && |out| + 8 * Pointers(format) == bytes + 8 * PointersFrom(format, i, pattern))
  }

  lemma DrivenStart(format: string, args: seq<Arg>)
    requires CString(format) && WellTyped(format, args)
    ensures Driven(format, args, 0, false, args, "", 0)
  {
    assert format[0..] == format;
  }

  lemma DrivenPercent(format: string, all: seq<Arg>, i: nat, rest: seq<Arg>, out: string, bytes: int)
    requires Driven(format, all, i, false, rest, out, bytes) && i < |format| && format[i] == '%'
    ensures i + 1 < |format| && Driven(format, all, i + 1, true, rest, out, bytes)
  {
    Suffix(format, i);
    assert format[i..][1..] == format[i + 1..];
  }

  lemma DrivenPlain(format: string, all: seq<Arg>, i: nat, rest: seq<Arg>, out: string, bytes: int)
    requires Driven(format, all, i, false, rest, out, bytes) && i < |format| && format[i] != '%' && format[i] != NUL
    ensures i + 1 < |format| && Driven(format, all, i + 1, false, rest, out + [format[i]], bytes + 1)
  {
    Suffix(format, i);
    assert format[i..][1..] == format[i + 1..];
    assert out + ([format[i]] + ToCome(format, i + 1, false, rest)) == (out + [format[i]]) + ToCome(format, i + 1, false, rest);
  }

  lemma DrivenPattern(format: string, all: seq<Arg>, i: nat, rest: seq<Arg>, out: string, bytes: int)
    requires Driven(format, all, i, true, rest, out, bytes) && i < |format| && format[i] != NUL
    ensures var f := FormatAt(format[i..]);
      && i + Taken(f) < |format| && (TakesArg(f) ==> rest != [] && Fits(f, rest[0]))
      && var shown := if TakesArg(f) then Show(f, rest[0]) else if f.Percent? then "%" else "???";
      && Driven(format, all, i + Taken(f), false, if TakesArg(f) then rest[1..] else rest, out + shown,
                bytes + |shown| + if f == Number(Plain, Ptr) then 8 else 0)
  {
    var f := FormatAt(format[i..]);
    Suffix(format, i);
    TakenFits(format[i..]);
    assert format[i..][Taken(f)..] == format[i + Taken(f)..];
    var shown := if TakesArg(f) then Show(f, rest[0]) else if f.Percent? then "%" else "???";
    var next := if TakesArg(f) then rest[1..] else rest;
    assert out + (shown + ToCome(format, i + Taken(f), false, next)) == (out + shown) + ToCome(format, i + Taken(f), false, next);
  }

  /** The characters `out` were emitted since `start`. */
  ghost predicate Emitted(start: string, out: string, now: string) {
    true == (now == start + out)
  }

  lemma EmitNothing(start: string)
    ensures Emitted(start, "", start)
  {
    assert start + "" == start;
  }

  lemma EmitMore(start: string, out: string, was: string, shown: string, now: string)
    requires Emitted(start, out, was) && now == was + shown
    ensures Emitted(start, out + shown, now)
  {
    assert start + (out + shown) == start + out + shown;
  }

  /** The arguments of the call of `_print_format` in the loop of `_print`. */
  lemma PatternFits(format: string, args: seq<Arg>, i: nat, k: nat, out: string, bytes: int)
    requires k <= |args| && Driven(format, args, i, true, args[k..], out, bytes) && i < |format| && format[i] != NUL
    ensures CString(format) && i < |format| - 1
    ensures TakesArg(FormatAt(format[i..])) ==> k < |args| && Fits(FormatAt(format[i..]), args[k])
  {
    DrivenPattern(format, args, i, args[k..], out, bytes);
  }

  /** What the call has done to the state of the loop. */
  lemma PatternDone(format: string, args: seq<Arg>, i: nat, k: nat, out: string, bytes: int, shown: string, n: nat)
    requires k <= |args| && Driven(format, args, i, true, args[k..], out, bytes) && i < |format| && format[i] != NUL
    requires TakesArg(FormatAt(format[i..])) ==> k < |args|
    requires n == if TakesArg(FormatAt(format[i..])) then k + 1 else k
    requires shown == (var f := FormatAt(format[i..]); if TakesArg(f) then Show(f, args[k]) else if f.Percent? then "%" else "???")
    ensures var f := FormatAt(format[i..]);
      && i + Taken(f) < |format| && n <= |args|
      && Driven(format, args, i + Taken(f), false, args[n..], out + shown, bytes + |shown| + if f == Number(Plain, Ptr) then 8 else 0)
  {
    DrivenPattern(format, args, i, args[k..], out, bytes);
    if k < |args| {
      assert args[k..][0] == args[k] && args[k..][1..] == args[k + 1..];
    }
  }

  lemma DrivenEnd(format: string, all: seq<Arg>, i: nat, pattern: bool, rest: seq<Arg>, out: string, bytes: int)
    requires Driven(format, all, i, pattern, rest, out, bytes) && i < |format| && format[i] == NUL
    ensures out == Render(format, all) && bytes == |Render(format, all)| + 8 * Pointers(format)
  {
    Suffix(format, i);
  }

  /**
   * `_print`: prints what the format asks for. The result is the number of characters printed, except that every pointer of four
   * bytes counts eight too many.
   */
  method Print(con: Console, format: string, args: seq<Arg>) returns (bytes: nat)
    requires CString(format) && WellTyped(format, args)
    modifies con
    ensures con.out == old(con.out) + Render(format, args)
    ensures bytes == |Render(format, args)| + 8 * Pointers(format)
  {
    var i, k, pattern := 0, 0, false;
    bytes := 0;
    ghost var start, out := con.out, "";
    DrivenStart(format, args);
    EmitNothing(start);
    assert args[0..] == args;
    while format[i] != NUL
      invariant 0 <= i < |format| && 0 <= k <= |args|
      invariant Emitted(start, out, con.out) && Driven(format, args, i, pattern, args[k..], out, bytes)
      decreases |format| - i
    {
      if pattern {
        i, k, bytes, out := PrintPattern(con, format, args, i, k, bytes, start, out);
        pattern := false;
      } else if format[i] == '%' {
        DrivenPercent(format, args, i, args[k..], out, bytes);
        i, pattern := i + 1, true;
      } else {
        i, bytes, out := PrintPlain(con, format, args, i, k, bytes, start, out);
      }
    }
    DrivenEnd(format, args, i, pattern, args[k..], out, bytes);
  }

  /** The turn of the loop after a percent sign. */
  method PrintPattern(con: Console, format: string, args: seq<Arg>, i: nat, k: nat, bytes: nat, ghost start: string, ghost out: string)
    returns (i': nat, k': nat, bytes': nat, ghost out': string)
    requires i < |format| && k <= |args| && format[i] != NUL
    requires Emitted(start, out, con.out) && Driven(format, args, i, true, args[k..], out, bytes)
    modifies con
    ensures i < i' < |format| && k' <= |args|
    ensures Emitted(start, out', con.out) && Driven(format, args, i', false, args[k'..], out', bytes')
  {
    PatternFits(format, args, i, k, out, bytes);
    ghost var was := con.out;
    var count, j, n, shown := PrintFormat(con, format, i, args, k);
    PatternDone(format, args, i, k, out, bytes, shown, n);
    EmitMore(start, out, was, shown, con.out);
    i', k', bytes', out' := j + 1, n, bytes + count, out + shown;
  }

  /** The turn of the loop for a character that is printed as it is. */
  method PrintPlain(con: Console, format: string, args: seq<Arg>, i: nat, k: nat, bytes: nat, ghost start: string, ghost out: string)
    returns (i': nat, bytes': nat, ghost out': string)
    requires i < |format| && k <= |args| && format[i] != NUL && format[i] != '%'
    requires Emitted(start, out, con.out) && Driven(format, args, i, false, args[k..], out, bytes)
    modifies con
    ensures i' == i + 1 < |format|
    ensures Emitted(start, out', con.out) && Driven(format, args, i', false, args[k..], out', bytes')
  {
    DrivenPlain(format, args, i, args[k..], out, bytes);
    ghost var was := con.out;
    con.PutC(format[i]);
    EmitMore(start, out, was, [format[i]], con.out);
    i', bytes', out' := i + 1, bytes + 1, out + [format[i]];
  }
}
