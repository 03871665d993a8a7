/** Numbers as sequences of bytes, lowest first. */
module LittleEndian {
  import opened Words
  import opened NumberLaws

  ghost predicate Bytes(s: seq<nat>) { forall i :: 0 <= i < |s| ==> s[i] < 0x100 }

  function Value(s: seq<nat>): nat {
    if s == [] then 0 else s[0] + 256 * Value(s[1..])
  }

  function Split(v: nat, n: nat): (s: seq<nat>)
    ensures |s| == n && Bytes(s) && forall i :: 0 <= i < n ==> s[i] == ByteOf(v, i)
  {
    if n == 0 then [] else [v % 256] + Split(v / 256, n - 1)
  }

  lemma {:induction false} ValueJoin(s: seq<nat>, t: seq<nat>)
    ensures Value(s + t) == Value(s) + Pow256(|s|) * Value(t)
  {
    if s == [] {
      assert s + t == t;
    } else {
      assert (s + t)[1..] == s[1..] + t;
      ValueJoin(s[1..], t);
      Scale(Pow256(|s| - 1), Value(t));
    }
  }

  lemma Scale(p: nat, v: nat)
    ensures 256 * (p * v) == (256 * p) * v
  {
  }

  lemma {:induction false} ValueBound(s: seq<nat>)
    requires Bytes(s)
    ensures Value(s) < Pow256(|s|)
  {
    if s == [] {
    } else {
      ValueBound(s[1..]);
    }
  }

  /** A number of n bytes is the value of its bytes. */
  lemma {:induction false} ValueOfSplit(v: nat, n: nat)
    requires v < Pow256(n)
    ensures Value(Split(v, n)) == v
  {
    if n == 0 {
    } else {
      ValueOfSplit(v / 256, n - 1);
      assert Split(v, n)[1..] == Split(v / 256, n - 1);
    }
  }

  lemma {:induction false} Pow256Is(n: nat)
    ensures Pow256(n) == Pow2(8 * n)
  {
    if n == 0 {
    } else {
      Pow256Is(n - 1);
      Pow2Add(8, 8 * (n - 1));
      Pow2Values();
      assert 8 + 8 * (n - 1) == 8 * n;
    }
  }

  lemma {:induction false} Pow256Add(m: nat, n: nat)
    ensures Pow256(m + n) == Pow256(m) * Pow256(n)
  {
    if m == 0 {
    } else {
      Pow256Add(m - 1, n);
      Scale(Pow256(m - 1), Pow256(n));
      assert m + n - 1 == m - 1 + n;
    }
  }

  /** Shifting right by whole bytes drops the first ones. */
  lemma DropBytes(s: seq<nat>, r: nat)
    requires Bytes(s) && r <= |s|
    ensures ShiftDown(Value(s), 8 * r) == Value(s[r..])
  {
    assert s == s[..r] + s[r..];
    ValueJoin(s[..r], s[r..]);
    ValueBound(s[..r]);
    ShiftDownIs(Value(s), 8 * r);
    Pow256Is(r);
    DivModUnique(Value(s), Pow256(r), Value(s[r..]), Value(s[..r]));
  }

  /** Shifting left by k bytes within |s| + k - r bytes keeps the first r ones. */
  lemma RaiseBytes(s: seq<nat>, r: nat, k: nat)
    requires Bytes(s) && r <= |s|
    ensures ShiftUp(Value(s), 8 * k) % Pow2(8 * (r + k)) == Value(s[..r]) * Pow2(8 * k)
  {
    assert s == s[..r] + s[r..];
    ValueJoin(s[..r], s[r..]);
    ValueBound(s[..r]);
    ShiftUpIs(Value(s), 8 * k);
    Pow256Is(k);
    Pow256Is(r + k);
    Pow256Add(r, k);
    RaiseArith(Value(s), Value(s[..r]), Value(s[r..]), Pow256(r), Pow256(k));
  }

  lemma RaiseArith(v: nat, lo: nat, hi: nat, p: nat, q: nat)
    requires v == lo + p * hi && lo < p && q > 0
    ensures (v * q) % (p * q) == lo * q
  {
    assert v * q == hi * (p * q) + lo * q;
    Below(lo, p, q);
    DivModUnique(v * q, p * q, hi, lo * q);
  }

  lemma Below(lo: nat, p: nat, q: nat)
    requires lo < p && q > 0
    ensures lo * q < p * q && p * q > 0
  {
  }

  lemma {:induction false} OrCommutes(a: nat, b: nat)
    ensures OrBits(a, b) == OrBits(b, a)
  {
    if a > 0 && b > 0 { OrCommutes(a / 2, b / 2); }
  }

  /** Two aligned words, shifted and or-ed, give the word that starts r bytes into the first. */
  lemma Recombine(s: seq<nat>, t: seq<nat>, r: nat, m: nat)
    requires Bytes(s) && Bytes(t) && |s| == |t| == r + m
    ensures OrBits(ShiftDown(Value(s), 8 * r), ShiftUp(Value(t), 8 * m) % Pow2(8 * (r + m))) == Value(s[r..] + t[..r])
  {
    DropBytes(s, r);
    RaiseBytes(t, r, m);
    ValueBound(s[r..]);
    Pow256Is(m);
    ValueJoin(s[r..], t[..r]);
    OrOfParts(Value(s[r..]), Value(t[..r]), 8 * m, Value(t[..r]) * Pow2(8 * m));
    Commute(Value(t[..r]), Pow2(8 * m));
  }

  lemma OrOfParts(lo: nat, hi: nat, k: nat, up: nat)
    requires lo < Pow2(k) && up == hi * Pow2(k)
    ensures OrBits(lo, up) == lo + up
  {
    OrIsSum(lo, hi, k);
    OrCommutes(lo, up);
  }

  lemma Commute(x: nat, y: nat)
    ensures x * y == y * x
  {
  }

  /** A byte below a shifted 16-bit number, within 32 bits. */
  lemma WideOr(lo: nat, v: nat)
    requires lo < 0x100 && v < 0x1_0000
    ensures OrBits(lo, ShiftUp(v, 8) % Pow2(32)) == lo + 256 * v
  {
    Pow2Values();
    ShiftUpIs(v, 8);
    var up := ShiftUp(v, 8);
    TimesByte(v, Pow2(8));
    SmallMod(up, Pow2(32));
    OrOfParts(lo, v, 8, up);
  }

  lemma TimesByte(v: nat, p: nat)
    requires p == 0x100
    ensures v * p == 256 * v
  {
  }
}
