/** Numerals in a base, and what they stand for. */
module Numerals {
  import opened Machine

  /** The character tables `hex` and `Hex` of _print.c. */
  const LOWER: string := "0123456789abcdef"
  const UPPER: string := "0123456789ABCDEF"

  type Base = b: nat | 2 <= b <= 16 witness 2

  function Pow(b: nat, n: nat): nat {
    if n == 0 then 1 else b * Pow(b, n - 1)
  }

  lemma {:induction false} PowPositive(b: nat, n: nat)
    requires b > 0
    ensures Pow(b, n) > 0
  {
    if n != 0 {
      PowPositive(b, n - 1);
    }
  }

  /** A numeral without leading zeros. */
  function Numeral(table: string, b: Base, v: nat): string
    requires |table| == 16
  {
    if v < b then [table[v]] else Numeral(table, b, v / b) + [table[v % b]]
  }

  /** The last `n` digits of a number. */
  function Padded(table: string, b: Base, v: nat, n: nat): (s: string)
    requires |table| == 16
    ensures |s| == n
  {
    if n == 0 then "" else Padded(table, b, v / b, n - 1) + [table[v % b]]
  }

  /** What a string of digits stands for. */
  function Value(table: string, b: Base, s: string): nat {
    if s == [] then 0 else b * Value(table, b, s[..|s| - 1]) + Digit(table, s[|s| - 1])
  }

  function Digit(table: string, c: char): (d: nat)
    ensures c in table ==> d < |table| && table[d] == c && forall e :: 0 <= e < d ==> table[e] != c
  {
    if table == [] then 0 else if table[0] == c then 0 else 1 + Digit(table[1..], c)
  }

  ghost predicate Table(table: string) {
    |table| == 16 && forall i, j :: 0 <= i < j < 16 ==> table[i] != table[j]
  }

  lemma DigitOf(table: string, d: nat)
    requires Table(table) && d < 16
    ensures Digit(table, table[d]) == d
  {
  }

  lemma ValueAppend(table: string, b: Base, s: string, c: char)
    ensures Value(table, b, s + [c]) == b * Value(table, b, s) + Digit(table, c)
  {
    assert (s + [c])[..|s|] == s;
  }

  /** Reading a numeral gives the number back. */
  lemma {:induction false} RoundTrip(table: string, b: Base, v: nat)
    requires Table(table)
    ensures Value(table, b, Numeral(table, b, v)) == v
    decreases v, 1
  {
    if v < b {
      DigitOf(table, v);
      ValueAppend(table, b, "", table[v]);
      assert "" + [table[v]] == [table[v]];
    } else {
      RoundTripStep(table, b, v, v / b, v % b);
    }
  }

  lemma RoundTripStep(table: string, b: Base, v: nat, q: nat, r: nat)
    requires Table(table) && b <= v && q == v / b && r == v % b
    ensures Value(table, b, Numeral(table, b, v)) == v
    decreases v, 0
  {
    DivMod(v, b);
    DigitOf(table, r);
    RoundTrip(table, b, q);
    ValueAppend(table, b, Numeral(table, b, q), table[r]);
  }

  /** So does reading its digits with leading zeros, if there are enough of them. */
  lemma {:induction false} PaddedRoundTrip(table: string, b: Base, v: nat, n: nat)
    requires Table(table) && v < Pow(b, n)
    ensures Value(table, b, Padded(table, b, v, n)) == v
    decreases n, 1
  {
    if n != 0 {
      PaddedStep(table, b, v, n, v / b, v % b);
    }
  }

  lemma PaddedStep(table: string, b: Base, v: nat, n: nat, q: nat, r: nat)
    requires Table(table) && 0 < n && v < Pow(b, n) && q == v / b && r == v % b
    ensures Value(table, b, Padded(table, b, v, n)) == v
    decreases n, 0
  {
    DivMod(v, b);
    DigitOf(table, r);
    Bracket(b, v, q, r, 0, Pow(b, n - 1));
    PaddedRoundTrip(table, b, q, n - 1);
    ValueAppend(table, b, Padded(table, b, q, n - 1), table[r]);
  }

  /** There is no leading zero, except in zero itself. */
  lemma {:induction false} NoLeadingZero(table: string, b: Base, v: nat)
    requires Table(table)
    ensures Numeral(table, b, v) != [] && (Numeral(table, b, v)[0] == table[0] <==> v == 0)
  {
    if v >= b {
      NoLeadingZero(table, b, v / b);
      DivPositive(v, b);
    }
  }

  lemma DivMod(v: nat, b: nat)
    requires b > 0
    ensures v == b * (v / b) + v % b && 0 <= v % b < b && 0 <= v / b
  {
  }

  lemma DivPositive(v: nat, b: nat)
    requires 0 < b <= v
    ensures 0 < v / b
  {
    DivMod(v, b);
    assert b * 0 == 0;
  }

  /** How many digits a number has. */
  ghost predicate HasDigits(b: nat, v: nat, n: nat) {
    n > 0 && v < Pow(b, n) && (v > 0 ==> Pow(b, n - 1) <= v) && (v == 0 ==> n == 1)
  }

  /** A numeral is as long as that, and is made of the last digits. */
  lemma {:induction false} PaddedIsNumeral(table: string, b: Base, v: nat, n: nat)
    requires |table| == 16 && HasDigits(b, v, n)
    ensures Padded(table, b, v, n) == Numeral(table, b, v) && |Numeral(table, b, v)| == n
  {
    if v < b {
      OneDigit(b, v, n);
      DivUnique(v, b, 0, v);
      assert Padded(table, b, 0, 0) == "";
    } else {
      OneDigit(b, v, n);
      FewerDigits(b, v, n);
      PaddedIsNumeral(table, b, v / b, n - 1);
    }
  }

  lemma OneDigit(b: Base, v: nat, n: nat)
    requires HasDigits(b, v, n)
    ensures v < b <==> n == 1
  {
    assert Pow(b, 1) == b;
    if n > 1 {
      PowMonotone(b, 1, n - 1);
    }
  }

  lemma FewerDigits(b: Base, v: nat, n: nat)
    requires b <= v && n > 1 && HasDigits(b, v, n)
    ensures HasDigits(b, v / b, n - 1)
  {
    DivMod(v, b);
    DivPositive(v, b);
    Bracket(b, v, v / b, v % b, Pow(b, n - 2), Pow(b, n - 1));
  }

  /** Bounds on a number are bounds on its quotient. */
  lemma Bracket(b: nat, v: nat, q: nat, r: nat, low: nat, high: nat)
    requires v == b * q + r && r < b && b * low <= v < b * high
    ensures low <= q < high
  {
    assert (q + 1) * b == b * q + b;
    if q >= high {
      MulMonotone(high, q, b);
    }
    if q < low {
      MulMonotone(q + 1, low, b);
    }
  }

  lemma {:induction false} PowMonotone(b: nat, m: nat, n: nat)
    requires b > 0 && m <= n
    ensures Pow(b, m) <= Pow(b, n)
  {
    if m < n {
      PowMonotone(b, m, n - 1);
      PowPositive(b, n - 1);
      MulMonotone(1, b, Pow(b, n - 1));
    }
  }

  // ----- Digits from the front -----

  /** A number in two parts, of which the upper one is in two parts. */
  lemma Regroup(v: nat, p: nat, q: nat, x: nat, b: nat, r: nat, d: nat)
    requires v == p * q + x && x < p && q == b * r + d && d < b
    ensures v == r * (b * p) + (d * p + x) && d * p + x < b * p
  {
    calc {
      p * q;
      p * (b * r + d);
      p * (b * r) + p * d;
      r * (b * p) + d * p;
    }
    MulMonotone(d, b - 1, p);
    assert (b - 1) * p + p == b * p;
  }

  /** Dropping digits one at a time. */
  lemma DropDigit(b: Base, v: nat, k: nat)
    requires Pow(b, k) > 0 && Pow(b, k + 1) > 0
    ensures v / Pow(b, k) / b == v / Pow(b, k + 1)
  {
    var p, q, d := Pow(b, k), v / Pow(b, k), v / Pow(b, k) % b;
    DivMod(v, p);
    DivMod(q, b);
    Regroup(v, p, q, v % p, b, q / b, d);
    DivUnique(v, b * p, q / b, d * p + v % p);
  }

  /** `v` without its last `k` digits. */
  function Dropped(b: Base, v: nat, k: nat): nat {
    if k == 0 then v else Dropped(b, v, k - 1) / b
  }

  lemma {:induction false} DroppedIsQuotient(b: Base, v: nat, k: nat)
    ensures Pow(b, k) > 0 && Dropped(b, v, k) == v / Pow(b, k)
  {
    PowPositive(b, k);
    if k != 0 {
      DroppedIsQuotient(b, v, k - 1);
      DropDigit(b, v, k - 1);
    }
  }

  /** `v` shifted right by `j` bits. */
  function Shift(v: nat, j: nat): nat {
    if j == 0 then v else Shift(v, j - 1) / 2
  }

  /** Three bits are an octal digit, and four a hexadecimal one. */
  predicate Group(b: Base, w: nat) {
    (w == 3 && b == 8) || (w == 4 && b == 16)
  }

  lemma {:induction false} ShiftIsDropped(v: nat, b: Base, w: nat, k: nat, j: nat)
    requires Group(b, w) && j == w * k
    ensures Shift(v, j) == Dropped(b, v, k)
    decreases k
  {
    if k != 0 {
      assert j - w == w * (k - 1);
      ShiftIsDropped(v, b, w, k - 1, j - w);
      ShiftGroup(v, j - w);
    }
  }

  lemma ShiftGroup(v: nat, i: nat)
    ensures Shift(v, i + 3) == Shift(v, i) / 8 && Shift(v, i + 4) == Shift(v, i) / 16
  {
    assert Shift(v, i + 1) == Shift(v, i) / 2;
    assert Shift(v, i + 2) == Shift(v, i) / 4;
    assert Shift(v, i + 3) == Shift(v, i) / 8;
  }

  lemma PaddedAppend(table: string, b: Base, v: nat, q: nat, n: nat)
    requires |table| == 16 && q == v / b
    ensures Padded(table, b, v, n + 1) == Padded(table, b, q, n) + [table[v % b]]
  {
  }

  /** The leading digit of what is left, and what is left after it. */
  lemma LeadingDigit(b: Base, v: nat, k: nat)
    requires Pow(b, k) > 0 && Pow(b, k + 1) > 0
    ensures v % Pow(b, k + 1) / Pow(b, k) == v / Pow(b, k) % b
    ensures v % Pow(b, k + 1) - (v / Pow(b, k) % b) * Pow(b, k) == v % Pow(b, k)
  {
    var p, q, d := Pow(b, k), v / Pow(b, k), v / Pow(b, k) % b;
    DivMod(v, p);
    DivMod(q, b);
    Regroup(v, p, q, v % p, b, q / b, d);
    DivUnique(v, b * p, q / b, d * p + v % p);
    DivUnique(d * p + v % p, p, d, v % p);
  }

  // ----- Octal and hexadecimal digits are groups of bits -----

  /** A number with `i + 1` bits has `i / w + 1` digits of `w` bits. */
  lemma BitsToDigits(b: Base, w: nat, v: nat, i: nat, n: nat)
    requires b == Pow(2, w) && w * n <= i < w * n + w && (v > 0 ==> Pow(2, i) <= v < Pow(2, i + 1)) && (v == 0 ==> i == 0)
    ensures HasDigits(b, v, n + 1)
  {
    PowPow(w, n);
    PowPow(w, n + 1);
    assert w * (n + 1) == w * n + w;
    if v > 0 {
      PowMonotone(2, w * n, i);
      PowMonotone(2, i + 1, w * n + w);
    } else {
      NoGroups(w, n);
      PowPositive(b, 1);
    }
  }

  lemma NoGroups(w: nat, n: nat)
    requires w > 0 && w * n <= 0
    ensures n == 0
  {
    if n > 0 {
      MulMonotone(1, n, w);
    }
  }

  lemma {:induction false} PowAdd(b: nat, m: nat, n: nat)
    ensures Pow(b, m + n) == Pow(b, m) * Pow(b, n)
  {
    if m != 0 {
      PowAdd(b, m - 1, n);
      Associate(b, Pow(b, m - 1), Pow(b, n));
    }
  }

  lemma Associate(a: int, b: int, c: int)
    ensures a * (b * c) == (a * b) * c
  {
  }

  lemma {:induction false} PowPow(w: nat, n: nat)
    ensures w * n >= 0 && Pow(2, w * n) == Pow(Pow(2, w), n)
  {
    if n == 0 {
      assert w * 0 == 0;
    } else {
      PowPow(w, n - 1);
      assert w * n == w + w * (n - 1);
      PowAdd(2, w, w * (n - 1));
    }
  }
}
