/** Powers of two, division and shifts on natural numbers. */
module NumberLaws {
  import opened Words

  lemma {:induction false} Pow2Add(m: nat, n: nat)
    ensures Pow2(m + n) == Pow2(m) * Pow2(n)
  {
    if m == 0 {
    } else {
      Pow2Add(m - 1, n);
      assert Pow2(m + n) == 2 * Pow2(m - 1 + n);
      assert 2 * (Pow2(m - 1) * Pow2(n)) == (2 * Pow2(m - 1)) * Pow2(n);
    }
  }

  lemma HalveMod(x: nat, y: nat)
    requires y > 0
    ensures x % (2 * y) == x % 2 + 2 * ((x / 2) % y)
  {
    var q, r := x / 2 / y, (x / 2) % y;
    assert x == 2 * (q * y + r) + x % 2;
    assert 2 * (q * y) == q * (2 * y);
    DivModUnique(x, 2 * y, q, 2 * r + x % 2);
  }

  lemma MulGe(k: int, y: int)
    requires k >= 1 && y > 0
    ensures k * y >= y
  {
  }

  lemma DivModUnique(x: int, y: int, q: int, r: int)
    requires y > 0 && x == q * y + r && 0 <= r < y
    ensures x / y == q && x % y == r
  {
    var p := x / y;
    assert x == p * y + x % y;
    if q < p {
      MulGe(p - q, y);
    } else if p < q {
      MulGe(q - p, y);
    }
  }

  lemma DoubleMod(x: nat, y: nat)
    requires y > 0
    ensures (2 * x) % (2 * y) == 2 * (x % y)
  {
    HalveMod(2 * x, y);
  }

  lemma ShiftMore(x: nat, ofs: nat)
    requires ofs > 0
    ensures x * Pow2(ofs) == 2 * (x * Pow2(ofs - 1))
  {
  }

  lemma OrHalves(x: nat, y: nat)
    ensures OrBits(x, y) == (if x % 2 == 1 || y % 2 == 1 then 1 else 0) + 2 * OrBits(x / 2, y / 2)
  {
  }

  /** Or of numbers that share no bit position is their sum. */
  lemma {:induction false} OrIsSum(lo: nat, hi: nat, k: nat)
    requires lo < Pow2(k)
    ensures OrBits(hi * Pow2(k), lo) == hi * Pow2(k) + lo
  {
    if k == 0 {
    } else {
      OrIsSum(lo / 2, hi, k - 1);
      ShiftMore(hi, k);
      OrHalves(hi * Pow2(k), lo);
    }
  }

  lemma Pow2Values()
    ensures Pow2(8) == 0x100 && Pow2(16) == 0x1_0000 && Pow2(32) == 0x1_0000_0000
    ensures Pow2(64) == 0x1_0000_0000_0000_0000
  {
    assert Pow2(4) == 16;
    Pow2Add(4, 4);
    Pow2Add(8, 8);
    Pow2Add(16, 16);
    Pow2Add(32, 32);
  }

  lemma {:induction false} ShiftUpIs(v: nat, n: nat)
    ensures ShiftUp(v, n) == v * Pow2(n)
    decreases n
  {
    if n == 0 {
    } else {
      ShiftUpIs(2 * v, n - 1);
      assert (2 * v) * Pow2(n - 1) == v * (2 * Pow2(n - 1));
    }
  }

  lemma {:induction false} ShiftDownIs(v: nat, n: nat)
    ensures ShiftDown(v, n) == v / Pow2(n)
    decreases n
  {
    if n == 0 {
    } else {
      ShiftDownIs(v / 2, n - 1);
      HalveDiv(v, Pow2(n - 1));
    }
  }

  lemma HalveDiv(x: nat, y: nat)
    requires y > 0
    ensures x / 2 / y == x / (2 * y)
  {
    var q, r := x / 2 / y, (x / 2) % y;
    assert x == 2 * (q * y + r) + x % 2;
    assert 2 * (q * y) == q * (2 * y);
    DivModUnique(x, 2 * y, q, 2 * r + x % 2);
  }

  lemma {:induction false} Pow2Less(m: nat, n: nat)
    requires m <= n
    ensures Pow2(m) <= Pow2(n)
  {
    if m < n { Pow2Less(m, n - 1); }
  }

  lemma SmallMod(a: nat, y: nat)
    requires a < y
    ensures a % y == a
  {
  }
}
