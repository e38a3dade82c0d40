/** 64-bit arithmetic: math.h. */
module KernelMath {
  import opened Machine
  import opened Numerals

  const U64_LIMIT: int := 0x1_0000_0000_0000_0000

  type U64 = x: int | 0 <= x < U64_LIMIT

  const EXP10: seq<U64> := [
    1, 10, 100, 1_000, 10_000, 100_000, 1_000_000, 10_000_000, 100_000_000, 1_000_000_000, 10_000_000_000,
    100_000_000_000, 1_000_000_000_000, 10_000_000_000_000, 100_000_000_000_000, 1_000_000_000_000_000,
    10_000_000_000_000_000, 100_000_000_000_000_000, 1_000_000_000_000_000_000, 10_000_000_000_000_000_000 ]

  lemma {:induction false} Exp10IsPow(i: nat)
    requires i < 20
    ensures EXP10[i] == Pow(10, i)
  {
    if i != 0 {
      Exp10IsPow(i - 1);
      assert EXP10[i] == 10 * EXP10[i - 1];
    }
  }

  /** `ilog10u`: the comparisons with `EXP10[k]` down to `EXP10[1]`. */
  function LogFrom(v: U64, k: nat): (j: nat)
    requires k < 20
    ensures j <= k
  {
    if k == 0 || v >= EXP10[k] then k else LogFrom(v, k - 1)
  }

  function Ilog10u(v: U64): (j: nat)
    ensures j < 20
  {
    LogFrom(v, 19)
  }

  lemma {:induction false} LogFromDigits(v: U64, k: nat)
    requires k < 20 && v < Pow(10, k + 1)
    ensures HasDigits(10, v, LogFrom(v, k) + 1)
  {
    Exp10IsPow(k);
    if k != 0 && v < EXP10[k] {
      LogFromDigits(v, k - 1);
    }
  }

  /** `ilog10u` is one less than the number of decimal digits. */
  lemma Ilog10uDigits(v: U64)
    ensures HasDigits(10, v, Ilog10u(v) + 1)
  {
    Exp10IsPow(19);
    assert Pow(10, 20) == 10 * Pow(10, 19);
    LogFromDigits(v, 19);
  }

  /** `v` has at least `i + 1` bits unless it is zero, and `w` is what is above them. */
  ghost predicate Above(v: nat, w: nat, i: nat) {
    true == (
      && (v > 0 ==> Pow(2, i) <= v) && (v == 0 ==> i == 0)
      && w * Pow(2, i + 1) <= v < (w + 1) * Pow(2, i + 1))
  }

  /** `ilog2u`. */
  method Ilog2u(v: U64) returns (i: nat)
    ensures v > 0 ==> Pow(2, i) <= v < Pow(2, i + 1)
    ensures v == 0 ==> i == 0
  {
    i := 0;
    var w: nat := v / 2;
    FirstBit(v);
    while w != 0
      invariant Above(v, w, i)
      decreases w
    {
      NextBit(v, w, i);
      i := i + 1;
      w := w / 2;
    }
    NoBitAbove(v, i);
  }

  lemma FirstBit(v: nat)
    ensures Above(v, v / 2, 0)
  {
    assert Pow(2, 1) == 2 && Pow(2, 0) == 1;
  }

  lemma NextBit(v: nat, w: nat, i: nat)
    requires w > 0 && Above(v, w, i)
    ensures Above(v, w / 2, i + 1)
  {
    PowPositive(2, i + 1);
    Halve(v, w, Pow(2, i + 1));
    assert Pow(2, i + 2) == 2 * Pow(2, i + 1);
  }

  lemma NoBitAbove(v: nat, i: nat)
    requires Above(v, 0, i)
    ensures v > 0 ==> Pow(2, i) <= v < Pow(2, i + 1)
    ensures v == 0 ==> i == 0
  {
  }

  lemma Halve(v: nat, w: nat, p: nat)
    requires w > 0 && w * p <= v < (w + 1) * p
    ensures p <= v
    ensures (w / 2) * (2 * p) <= v < (w / 2 + 1) * (2 * p)
  {
    var h := w / 2;
    MulMonotone(1, w, p);
    MulMonotone(2 * h, w, p);
    MulMonotone(w + 1, 2 * h + 2, p);
    assert (2 * h) * p == h * (2 * p);
    assert (2 * h + 2) * p == (h + 1) * (2 * p);
  }

  // ----- div64 -----

  /** The loop of `div64` ends with `res == n`: `n` is the first number whose product with `b`, in 64 bits, exceeds `a`. */
  ghost predicate StopsAt(a: U64, b: U64, n: nat) {
    true == ((b * n) % U64_LIMIT > a && forall m: nat {:trigger b * m} :: m < n ==> (b * m) % U64_LIMIT <= a)
  }

  ghost predicate Ends(a: U64, b: U64) {
    exists n: nat :: StopsAt(a, b, n)
  }

  /** No product wraps around before the loop ends. */
  predicate Exact(a: U64, b: U64) {
    b > 0 && b * (a / b + 1) < U64_LIMIT
  }

  lemma UpToQuotient(a: U64, b: U64, m: nat)
    requires b > 0 && m <= a / b
    ensures (b * m) % U64_LIMIT == b * m <= a
  {
    DivMod(a, b);
    MulMonotone(m, a / b, b);
    DivUnique(b * m, U64_LIMIT, 0, b * m);
  }

  lemma PastQuotient(a: U64, b: U64)
    requires b > 0
    ensures var p := b * (a / b + 1);
      a < p < 2 * U64_LIMIT && p % U64_LIMIT == (if p < U64_LIMIT then p else p - U64_LIMIT) && p - U64_LIMIT <= a
  {
    DivMod(a, b);
    var p := b * (a / b + 1);
    assert p == b * (a / b) + b;
    DivUnique(p, U64_LIMIT, if p < U64_LIMIT then 0 else 1, if p < U64_LIMIT then p else p - U64_LIMIT);
  }

  /** `div64` ends with the quotient exactly when the product just above `a` fits in 64 bits. */
  lemma DivisionIsExact(a: U64, b: U64)
    requires b > 0
    ensures StopsAt(a, b, a / b + 1) <==> Exact(a, b)
  {
    PastQuotient(a, b);
    forall m: nat | m < a / b + 1 ensures (b * m) % U64_LIMIT <= a {
      UpToQuotient(a, b, m);
    }
  }

  /** A loop that ends at all ends before its counter wraps around. */
  lemma StopsEarly(a: U64, b: U64, n: nat)
    requires StopsAt(a, b, n)
    ensures 1 <= n <= U64_LIMIT
  {
    DivUnique(b * 0, U64_LIMIT, 0, 0);
    if n > U64_LIMIT {
      var m, r := n - U64_LIMIT, (b * n) % U64_LIMIT;
      DivMod(b * n, U64_LIMIT);
      assert b * m == U64_LIMIT * ((b * n) / U64_LIMIT - b) + r;
      DivUnique(b * m, U64_LIMIT, (b * n) / U64_LIMIT - b, r);
    }
  }

  lemma StopsOnce(a: U64, b: U64, m: nat, n: nat)
    requires StopsAt(a, b, m) && StopsAt(a, b, n)
    ensures m == n
  {
  }

  lemma ExactStop(a: U64, b: U64, n: nat)
    requires Exact(a, b) && StopsAt(a, b, n)
    ensures n - 1 == a / b
  {
    DivisionIsExact(a, b);
    StopsOnce(a, b, n, a / b + 1);
  }

  lemma ExactEnds(a: U64, b: U64)
    requires Exact(a, b)
    ensures Ends(a, b)
  {
    DivisionIsExact(a, b);
  }

  /** `div64`, for operands with which its loop ends. */
  method Div64(a: U64, b: U64) returns (q: U64)
    requires Ends(a, b)
    ensures StopsAt(a, b, q + 1)
    ensures Exact(a, b) ==> q == a / b
  {
    ghost var n: nat :| StopsAt(a, b, n);
    StopsEarly(a, b, n);
    var res := 0;
    while (b * res) % U64_LIMIT <= a
      invariant 0 <= res <= n && forall m: nat {:trigger b * m} :: m < res ==> (b * m) % U64_LIMIT <= a
      decreases n - res
    {
      res := res + 1;
    }
    StopsOnce(a, b, res, n);
    q := res - 1;
    if Exact(a, b) {
      ExactStop(a, b, n);
    }
  }

  /**
   The digit printers divide by the power of ten below their number. This is exact below 10^19 and at no number above: there the
   first digit, if the loop ends at all, is not the quotient.
   */
  lemma DecimalIsExact(v: U64)
    ensures Exact(v, EXP10[Ilog10u(v)]) <==> v < EXP10[19]
    ensures EXP10[Ilog10u(v)] > 0 && (StopsAt(v, EXP10[Ilog10u(v)], v / EXP10[Ilog10u(v)] + 1) <==> v < EXP10[19])
  {
    PowerIsExact(v);
    DivisionIsExact(v, EXP10[Ilog10u(v)]);
  }

  lemma PowerIsExact(v: U64)
    ensures Exact(v, EXP10[Ilog10u(v)]) <==> v < EXP10[19]
    ensures EXP10[Ilog10u(v)] > 0
  {
    Ilog10uDigits(v);
    Exp10IsPow(Ilog10u(v));
    var j := Ilog10u(v);
    Exp10IsPow(19);
    if j < 19 {
      TenfoldIsExact(v, j);
    } else {
      DivUnique(v, EXP10[19], 1, v - EXP10[19]);
    }
  }

  lemma TenfoldIsExact(v: U64, j: nat)
    requires j < 19 && v < Pow(10, j + 1)
    ensures Pow(10, j) == EXP10[j] && Exact(v, EXP10[j]) && v < EXP10[19]
  {
    var p := Pow(10, j);
    Exp10IsPow(j);
    Exp10IsPow(19);
    PowPositive(10, j);
    PowMonotone(10, j + 1, 19);
    assert Pow(10, j + 1) == 10 * p;
    DivMod(v, p);
    Bracket(p, v, v / p, v % p, 0, 10);
    MulMonotone(v / p + 1, 10, p);
  }
}
