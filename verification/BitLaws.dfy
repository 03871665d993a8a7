/** The bit identities behind the multi-instruction translations. */
module BitLaws {
  import opened Options
  import opened Words
  import opened NumberLaws
  import opened Tcg
  import opened Translation

  /** And with k ones keeps the k low bits. */
  lemma {:induction false} AndMask(a: nat, k: nat)
    ensures AndBits(a, Pow2(k) - 1) == a % Pow2(k)
  {
    if k == 0 {
    } else {
      AndMask(a / 2, k - 1);
      HalveMod(a, Pow2(k - 1));
      assert (Pow2(k) - 1) / 2 == Pow2(k - 1) - 1 && (Pow2(k) - 1) % 2 == 1;
    }
  }

  /** Shifting left inside a word of ofs + len bits keeps the len low bits only. */
  lemma {:induction false} ShiftCut(b: nat, ofs: nat, len: nat)
    ensures (b * Pow2(ofs)) % Pow2(ofs + len) == (b % Pow2(len)) * Pow2(ofs)
  {
    if ofs == 0 {
    } else {
      ShiftCut(b, ofs - 1, len);
      ShiftMore(b, ofs);
      ShiftMore(b % Pow2(len), ofs);
      DoubleMod(b * Pow2(ofs - 1), Pow2(ofs - 1 + len));
    }
  }

  /** n ones with a hole of len zeros at ofs, bit by bit. */
  function HoleMask(n: nat, ofs: nat, len: nat): nat
    requires ofs + len <= n
  {
    if ofs > 0 then 1 + 2 * HoleMask(n - 1, ofs - 1, len)
    else if len > 0 then 2 * HoleMask(n - 1, 0, len - 1)
    else Pow2(n) - 1
  }

  /** The same mask as the translator computes it. */
  lemma {:induction false} HoleMaskIs(n: nat, ofs: nat, len: nat)
    requires ofs + len <= n
    ensures HoleMask(n, ofs, len) == Pow2(n) - 1 - (Pow2(len) - 1) * Pow2(ofs)
  {
    if ofs > 0 {
      HoleMaskIs(n - 1, ofs - 1, len);
      ShiftMore(Pow2(len) - 1, ofs);
    } else if len > 0 {
      HoleMaskIs(n - 1, 0, len - 1);
    }
  }

  /** a with the hole cleared, bit by bit. */
  function Hole(a: nat, ofs: nat, len: nat): nat {
    if ofs > 0 then a % 2 + 2 * Hole(a / 2, ofs - 1, len)
    else if len > 0 then 2 * Hole(a / 2, 0, len - 1)
    else a
  }

  lemma AndHalves(x: nat, y: nat)
    ensures AndBits(x, y) == (if x % 2 == 1 && y % 2 == 1 then 1 else 0) + 2 * AndBits(x / 2, y / 2)
  {
  }

  /** And with the mask clears the hole. */
  lemma {:induction false} AndHole(a: nat, n: nat, ofs: nat, len: nat)
    requires ofs + len <= n && a < Pow2(n)
    ensures AndBits(a, HoleMask(n, ofs, len)) == Hole(a, ofs, len)
  {
    var m := HoleMask(n, ofs, len);
    if ofs > 0 {
      AndHole(a / 2, n - 1, ofs - 1, len);
      AndHalves(a, m);
      assert m / 2 == HoleMask(n - 1, ofs - 1, len) && m % 2 == 1;
    } else if len > 0 {
      AndHole(a / 2, n - 1, 0, len - 1);
      AndHalves(a, m);
      assert m / 2 == HoleMask(n - 1, 0, len - 1) && m % 2 == 0;
    } else {
      AndMask(a, n);
      SmallMod(a, Pow2(n));
    }
  }

  /** The len low bits of b at position ofs, bit by bit. */
  function Field(b: nat, ofs: nat, len: nat): nat {
    if ofs > 0 then 2 * Field(b, ofs - 1, len)
    else if len > 0 then b % 2 + 2 * Field(b / 2, 0, len - 1)
    else 0
  }

  lemma {:induction false} FieldIs(b: nat, ofs: nat, len: nat)
    ensures Field(b, ofs, len) == (b % Pow2(len)) * Pow2(ofs)
  {
    if ofs > 0 {
      FieldIs(b, ofs - 1, len);
      ShiftMore(b % Pow2(len), ofs);
    } else if len > 0 {
      FieldIs(b / 2, 0, len - 1);
      HalveMod(b, Pow2(len - 1));
    }
  }

  lemma HoleHalves(a: nat, ofs: nat, len: nat)
    ensures ofs > 0 ==> Hole(a, ofs, len) / 2 == Hole(a / 2, ofs - 1, len) && Hole(a, ofs, len) % 2 == a % 2
    ensures ofs == 0 && len > 0 ==> Hole(a, 0, len) / 2 == Hole(a / 2, 0, len - 1) && Hole(a, 0, len) % 2 == 0
  {
  }

  lemma FieldHalves(b: nat, ofs: nat, len: nat)
    ensures ofs > 0 ==> Field(b, ofs, len) / 2 == Field(b, ofs - 1, len) && Field(b, ofs, len) % 2 == 0
    ensures ofs == 0 && len > 0 ==> Field(b, 0, len) / 2 == Field(b / 2, 0, len - 1) && Field(b, 0, len) % 2 == b % 2
  {
  }

  /** Filling the hole with or is depositing. */
  lemma {:induction false} OrFills(a: nat, b: nat, ofs: nat, len: nat)
    ensures OrBits(Hole(a, ofs, len), Field(b, ofs, len)) == Deposit(a, b, ofs, len)
  {
    OrHalves(Hole(a, ofs, len), Field(b, ofs, len));
    HoleHalves(a, ofs, len);
    FieldHalves(b, ofs, len);
    if ofs > 0 {
      OrFills(a / 2, b, ofs - 1, len);
    } else if len > 0 {
      OrFills(a / 2, b / 2, 0, len - 1);
    }
  }

  lemma {:induction false} DepositFits(a: nat, b: nat, ofs: nat, len: nat, n: nat)
    requires a < Pow2(n) && ofs + len <= n
    ensures Deposit(a, b, ofs, len) < Pow2(n)
  {
    if ofs > 0 {
      DepositFits(a / 2, b, ofs - 1, len, n - 1);
    } else if len > 0 {
      DepositFits(a / 2, b / 2, 0, len - 1, n - 1);
    }
  }

  /** Xor with k ones is the complement. */
  lemma {:induction false} XorOnes(x: nat, k: nat)
    requires x < Pow2(k)
    ensures XorBits(Pow2(k) - 1, x) == Pow2(k) - 1 - x
  {
    if k == 0 {
    } else {
      XorOnes(x / 2, k - 1);
      assert (Pow2(k) - 1) / 2 == Pow2(k - 1) - 1 && (Pow2(k) - 1) % 2 == 1;
    }
  }

  // ----- on words -----

  lemma Small32(v: nat)
    requires v < Pow2(32)
    ensures Cut(W32, v) == Num(W32, v)
  {
    Pow2Values();
  }

  lemma MaskWord(b: Word, len: nat)
    requires b.w == W32 && len < 32
    ensures Compute(BinOp.And, b, Cut(W32, Pow2(len) - 1)) == Some(Cut(W32, b.bits % Pow2(len)))
  {
    Pow2Less(len, 32);
    Small32(Pow2(len) - 1);
    AndMask(b.bits, len);
  }

  lemma Shl32(v: nat, ofs: nat)
    requires ofs < 32 && v < Pow2(32)
    ensures Compute(BinOp.Shl, Cut(W32, v), Cut(W32, ofs)) == Some(Cut(W32, ShiftUp(v, ofs)))
  {
    Small32(v);
    Tiny(W32, ofs);
  }

  lemma Tiny(w: Width, n: nat)
    requires n < 64 && (w == W32 || w == W64)
    ensures Cut(w, n) == Num(w, n)
  {
  }

  lemma ShiftWord(v: nat, b: nat, ofs: nat, len: nat)
    requires ofs < 32 && ofs + len <= 32 && v == b % Pow2(len) && v < Pow2(32)
    ensures Compute(BinOp.Shl, Cut(W32, v), Cut(W32, ofs)) == Some(Cut(W32, Field(b, ofs, len)))
  {
    Shl32(v, ofs);
    assert ShiftUp(v, ofs) == Field(b, ofs, len) by {
      ShiftUpIs(v, ofs);
      FieldIs(b, ofs, len);
    }
  }

  lemma FieldTop(b: nat, ofs: nat, len: nat)
    requires ofs + len == 32
    ensures ShiftUp(b, ofs) % 0x1_0000_0000 == Field(b, ofs, len) < 0x1_0000_0000
  {
    Pow2Values();
    ShiftUpIs(b, ofs);
    ShiftCut(b, ofs, len);
    FieldIs(b, ofs, len);
  }

  lemma ShiftTop(b: Word, ofs: nat, len: nat)
    requires b.w == W32 && ofs < 32 && ofs + len == 32
    ensures Compute(BinOp.Shl, b, Cut(W32, ofs)) == Some(Cut(W32, Field(b.bits, ofs, len)))
  {
    Tiny(W32, ofs);
    FieldTop(b.bits, ofs, len);
  }

  lemma {:induction false} FieldFits(b: nat, ofs: nat, len: nat, n: nat)
    requires ofs + len <= n
    ensures Field(b, ofs, len) < Pow2(n)
  {
    if ofs > 0 { FieldFits(b, ofs - 1, len, n - 1); } else if len > 0 { FieldFits(b / 2, 0, len - 1, n - 1); }
  }

  lemma {:induction false} HoleFits(a: nat, ofs: nat, len: nat, n: nat)
    requires ofs + len <= n && a < Pow2(n)
    ensures Hole(a, ofs, len) < Pow2(n)
  {
    if ofs > 0 { HoleFits(a / 2, ofs - 1, len, n - 1); } else if len > 0 { HoleFits(a / 2, 0, len - 1, n - 1); }
  }

  lemma {:induction false} HoleMaskFits(n: nat, ofs: nat, len: nat)
    requires ofs + len <= n
    ensures HoleMask(n, ofs, len) < Pow2(n)
  {
    if ofs > 0 { HoleMaskFits(n - 1, ofs - 1, len); } else if len > 0 { HoleMaskFits(n - 1, 0, len - 1); }
  }

  lemma HoleWord(a: Word, ofs: nat, len: nat)
    requires a.w == W32 && ofs + len <= 32
    ensures Compute(BinOp.And, a, KeepMask(ofs, len)) == Some(Cut(W32, Hole(a.bits, ofs, len)))
  {
    Pow2Values();
    HoleMaskIs(32, ofs, len);
    HoleMaskFits(32, ofs, len);
    Small32(HoleMask(32, ofs, len));
    AndHole(a.bits, 32, ofs, len);
  }

  lemma OrWord(a: Word, b: Word, ofs: nat, len: nat)
    requires a.w == W32 && ofs + len <= 32
    ensures Compute(BinOp.Or, Cut(W32, Hole(a.bits, ofs, len)), Cut(W32, Field(b.bits, ofs, len)))
         == Some(Deposited(a, b, ofs, len))
  {
    Pow2Values();
    HoleFits(a.bits, ofs, len, 32);
    FieldFits(b.bits, ofs, len, 32);
    Small32(Hole(a.bits, ofs, len));
    Small32(Field(b.bits, ofs, len));
    OrFills(a.bits, b.bits, ofs, len);
  }

  lemma DepositAll(a: nat, b: nat)
    requires a < Pow2(32) && b < Pow2(32)
    ensures Deposit(a, b, 0, 32) == b
  {
    DepositLow(a, b, 32);
  }

  lemma {:induction false} DepositLow(a: nat, b: nat, n: nat)
    requires a < Pow2(n) && b < Pow2(n)
    ensures Deposit(a, b, 0, n) == b
  {
    if n == 0 {
    } else {
      DepositLow(a / 2, b / 2, n - 1);
    }
  }

  // ----- pairs of words -----

  /** (hi << 32) | lo */
  function Pair(hi: Word, lo: Word): Word { Cut(W64, hi.bits * 0x1_0000_0000 + lo.bits) }

  function PairSum(al: Word, ah: Word, bl: Word, bh: Word): Word { Cut(W64, Pair(ah, al).bits + Pair(bh, bl).bits) }

  function Upper(x: Word): Word { Cut(W64, x.bits / 0x1_0000_0000) }

  lemma PairAdd(al: Word, ah: Word, bl: Word, bh: Word)
    ensures Compute(BinOp.Add, Pair(ah, al), Pair(bh, bl)) == Some(PairSum(al, ah, bl, bh))
  {
  }

  lemma ShiftBy32(v: nat)
    ensures ShiftUp(v, 32) == v * 0x1_0000_0000 && ShiftDown(v, 32) == v / 0x1_0000_0000
  {
    Pow2Values();
    ShiftUpIs(v, 32);
    ShiftDownIs(v, 32);
  }

  lemma PairShl(hi: Word)
    requires hi.w == W32
    ensures Compute(BinOp.Shl, Widen(false, W64, hi), Cut(W64, 32)) == Some(Num(W64, hi.bits * 0x1_0000_0000))
  {
    var h := Widen(false, W64, hi);
    assert h == Num(W64, hi.bits);
    Tiny(W64, 32);
    ShiftBy32(hi.bits);
    Small64(hi.bits * 0x1_0000_0000);
  }

  lemma Small64(v: nat)
    requires v < 0x1_0000_0000_0000_0000
    ensures Cut(W64, v) == Num(W64, v)
  {
  }

  lemma PairOr(hi: Word, lo: Word)
    requires hi.w == W32 && lo.w == W32
    ensures Compute(BinOp.Or, Num(W64, hi.bits * 0x1_0000_0000), Widen(false, W64, lo)) == Some(Pair(hi, lo))
  {
    assert Widen(false, W64, lo) == Num(W64, lo.bits);
    assert OrBits(hi.bits * 0x1_0000_0000, lo.bits) == hi.bits * 0x1_0000_0000 + lo.bits by {
      Pow2Values();
      OrIsSum(lo.bits, hi.bits, 32);
    }
  }

  lemma SumArith(al: nat, ah: nat, bl: nat, bh: nat, s: nat)
    requires al < 0x1_0000_0000 && ah < 0x1_0000_0000 && bl < 0x1_0000_0000 && bh < 0x1_0000_0000
    requires s == (ah * 0x1_0000_0000 + al + (bh * 0x1_0000_0000 + bl)) % 0x1_0000_0000_0000_0000
    ensures s % 0x1_0000_0000 == (al + bl) % 0x1_0000_0000
    ensures s / 0x1_0000_0000
         == (ah + bh + if al + bl >= 0x1_0000_0000 then 1 else 0) % 0x1_0000_0000
  {
    var carry := if al + bl >= 0x1_0000_0000 then 1 else 0;
    var low, high := al + bl - carry * 0x1_0000_0000, ah + bh + carry;
    assert s == (if high < 0x1_0000_0000 then high else high - 0x1_0000_0000) * 0x1_0000_0000 + low;
  }

  /** The 64-bit sum's halves are the sum of the low halves and the sum of the high halves with the carry. */
  lemma PairBits(hi: Word, lo: Word)
    requires hi.w == W32 && lo.w == W32
    ensures Pair(hi, lo).bits == hi.bits * 0x1_0000_0000 + lo.bits
  {
  }

  lemma SameCut(x: nat, y: nat)
    requires x % 0x1_0000_0000 == y % 0x1_0000_0000
    ensures Cut(W32, x) == Cut(W32, y)
  {
  }

  lemma ModTwice(x: nat)
    ensures x % 0x1_0000_0000 % 0x1_0000_0000 == x % 0x1_0000_0000
  {
  }

  lemma SumBits(al: Word, ah: Word, bl: Word, bh: Word, sum: Word)
    requires al.w == W32 && ah.w == W32 && bl.w == W32 && bh.w == W32
    requires sum == PairSum(al, ah, bl, bh)
    ensures sum.bits
         == (ah.bits * 0x1_0000_0000 + al.bits + (bh.bits * 0x1_0000_0000 + bl.bits)) % 0x1_0000_0000_0000_0000
    ensures Upper(sum).bits == sum.bits / 0x1_0000_0000
  {
    PairBits(ah, al);
    PairBits(bh, bl);
  }

  lemma SumWord(al: Word, ah: Word, bl: Word, bh: Word, sum: Word)
    requires al.w == W32 && ah.w == W32 && bl.w == W32 && bh.w == W32
    requires sum == PairSum(al, ah, bl, bh)
    ensures Cut(W32, sum.bits) == SumLow(al, bl)
    ensures Cut(W32, Upper(sum).bits) == SumHigh(al, ah, bl, bh)
  {
    SumBits(al, ah, bl, bh, sum);
    SumArith(al.bits, ah.bits, bl.bits, bh.bits, sum.bits);
    var high := ah.bits + bh.bits + if al.bits + bl.bits >= 0x1_0000_0000 then 1 else 0;
    SameCut(sum.bits, al.bits + bl.bits);
    ModTwice(high);
    SameCut(Upper(sum).bits, high);
  }

  lemma HighHalf(sum: Word)
    requires sum.w == W64
    ensures Compute(BinOp.LShr, sum, Cut(W64, 32)) == Some(Upper(sum))
  {
    Tiny(W64, 32);
    ShiftBy32(sum.bits);
    Small64(sum.bits / 0x1_0000_0000);
  }
}
