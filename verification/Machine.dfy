/** Machine words of the i386 and the rounding of mem.h. */
module Machine {
  const WORD_LIMIT: int := 0x1_0000_0000
  const PAGE_SIZE: int := 4096

  type Word = x: int | 0 <= x < WORD_LIMIT

  /** `align` of mem.h: `addr` rounded up to a multiple of `byte`. */
  function Align(addr: nat, byte: nat): nat
    requires byte > 0
  {
    addr - addr % byte + byte * (if addr % byte != 0 then 1 else 0)
  }

  /** `align` gives the least multiple of `byte` that is not below `addr`. */
  lemma AlignIsLeast(addr: nat, byte: nat)
    requires byte > 0
    ensures Align(addr, byte) % byte == 0
    ensures addr <= Align(addr, byte) < addr + byte
    ensures forall m: nat :: addr <= m && m % byte == 0 ==> Align(addr, byte) <= m
  {
    var q := addr / byte;
    assert addr == q * byte + addr % byte;
    if addr % byte == 0 {
    } else {
      assert Align(addr, byte) == (q + 1) * byte;
      MultipleMod(q + 1, byte);
    }
    forall m: nat | addr <= m && m % byte == 0 ensures Align(addr, byte) <= m {
      var n := m / byte;
      assert m == n * byte;
      if addr % byte != 0 && n <= q {
        MulMonotone(n, q, byte);
        assert false;
      }
      if addr % byte != 0 {
        MulMonotone(q + 1, n, byte);
      }
    }
  }

  lemma MultipleMod(n: nat, byte: nat)
    requires byte > 0
    ensures (n * byte) % byte == 0
  {
    if n > 0 {
      MultipleMod(n - 1, byte);
      assert n * byte == (n - 1) * byte + byte;
      AddByte((n - 1) * byte, byte);
    }
  }

  lemma AddByte(x: nat, byte: nat)
    requires byte > 0
    ensures (x + byte) % byte == x % byte
  {
    var q := x / byte;
    assert x + byte == (q + 1) * byte + x % byte;
    DivUnique(x + byte, byte, q + 1, x % byte);
  }

  lemma DivUnique(x: nat, byte: nat, q: nat, r: nat)
    requires byte > 0 && r < byte && x == q * byte + r
    ensures x / byte == q && x % byte == r
  {
    var q', r' := x / byte, x % byte;
    assert x == q' * byte + r';
    if q' < q {
      MulMonotone(q' + 1, q, byte);
    } else if q < q' {
      MulMonotone(q + 1, q', byte);
    }
  }

  lemma MulMonotone(a: nat, b: nat, byte: nat)
    requires a <= b
    ensures a * byte <= b * byte
  {
  }
}
