/** What the words' arithmetic computes, in terms of numbers and of single bits. */
module WordLaws {
  import opened Words
  import opened NumberLaws
  import opened Options

  /** Bit k of a number. */
  predicate Bit(v: nat, k: nat) { if k == 0 then v % 2 == 1 else Bit(v / 2, k - 1) }

  lemma {:induction false} NoBits(k: nat)
    ensures !Bit(0, k)
  {
    if k > 0 { NoBits(k - 1); }
  }

  /** And, or and exclusive or work bit by bit. */
  lemma {:induction false} AndIs(a: nat, b: nat, k: nat)
    ensures Bit(AndBits(a, b), k) <==> Bit(a, k) && Bit(b, k)
    decreases k
  {
    if a == 0 || b == 0 {
      NoBits(k);
    } else if k > 0 {
      AndIs(a / 2, b / 2, k - 1);
    }
  }

  lemma {:induction false} OrIs(a: nat, b: nat, k: nat)
    ensures Bit(OrBits(a, b), k) <==> Bit(a, k) || Bit(b, k)
    decreases k
  {
    if a == 0 || b == 0 {
      NoBits(k);
    } else if k > 0 {
      OrIs(a / 2, b / 2, k - 1);
    }
  }

  lemma {:induction false} XorIs(a: nat, b: nat, k: nat)
    ensures Bit(XorBits(a, b), k) <==> Bit(a, k) != Bit(b, k)
    decreases k
  {
    if a == 0 || b == 0 {
      NoBits(k);
    } else if k > 0 {
      XorIs(a / 2, b / 2, k - 1);
    }
  }

  lemma {:induction false} MulIs(a: nat, b: nat)
    ensures MulBits(a, b) == a * b
  {
    if b == 0 {
    } else {
      MulIs(a, b / 2);
      Distribute(a, b / 2, b % 2);
      assert b == 2 * (b / 2) + b % 2;
    }
  }

  lemma Distribute(a: nat, h: nat, r: nat)
    ensures a * (2 * h + r) == 2 * (a * h) + a * r
  {
  }

  /** The signed value is the representative of the word between minus half the range and half the range. */
  lemma SignedIs(x: Word)
    ensures 0 <= 2 * Signed(x) + Range(x.w) < 2 * Range(x.w)
    ensures Cut(x.w, Signed(x)) == x
  {
  }

  lemma {:induction false} ShiftDownFloors(v: int, n: nat)
    ensures Pow2(n) * ShiftDown(v, n) <= v < Pow2(n) * ShiftDown(v, n) + Pow2(n)
    decreases n
  {
    if n == 0 {
    } else {
      ShiftDownFloors(v / 2, n - 1);
      Twice(Pow2(n - 1), ShiftDown(v / 2, n - 1), v / 2);
    }
  }

  lemma Twice(p: nat, d: int, h: int)
    requires p * d <= h < p * d + p
    ensures (2 * p) * d <= 2 * h && 2 * h + 1 < (2 * p) * d + 2 * p
  {
    assert (2 * p) * d == 2 * (p * d);
  }

  /** An arithmetic shift is the division of the signed value by a power of two, rounded down. */
  lemma ArithmeticShiftIs(a: Word, b: Word) returns (q: int)
    requires a.w == b.w && b.bits < BitCount(a.w)
    ensures Compute(BinOp.AShr, a, b) == Some(Cut(a.w, q))
    ensures Pow2(b.bits) * q <= Signed(a) < Pow2(b.bits) * q + Pow2(b.bits)
  {
    q := ShiftDown(Signed(a), b.bits);
    ShiftDownFloors(Signed(a), b.bits);
  }

  lemma CutSigned(w: Width, v: int)
    requires 0 <= 2 * v + Range(w) < 2 * Range(w)
    ensures Signed(Cut(w, v)) == v && (v >= 0 ==> Cut(w, v).bits == v)
  {
    assert Cut(w, v).bits == if v >= 0 then v else v + Range(w);
  }

  lemma RangeGrows(w: Width, v: Width)
    requires BitCount(v) <= BitCount(w)
    ensures Range(v) <= Range(w)
  {
  }

  lemma CutFits(w: Width, v: nat)
    requires v < Range(w)
    ensures Cut(w, v).bits == v
  {
  }

  /** Widening keeps the number: the signed one by copies of the sign, the unsigned one by zeros. */
  lemma WidenKeeps(w: Width, x: Word)
    requires BitCount(x.w) <= BitCount(w)
    ensures Widen(false, w, x).bits == x.bits && Signed(Widen(true, w, x)) == Signed(x)
  {
    SignedIs(x);
    RangeGrows(w, x.w);
    CutFits(w, x.bits);
    CutSigned(w, Signed(x));
  }
}
