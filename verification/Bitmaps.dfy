/** Bitmaps: words of bits, low bit first. */
module Bitmaps {
  type Bits = seq<bool>

  function CountSet(w: Bits): (n: nat)
    ensures n <= |w|
  {
    if w == [] then 0 else (if w[0] then 1 else 0) + CountSet(w[1..])
  }

  lemma {:induction false} CountConcat(a: Bits, b: Bits)
    ensures CountSet(a + b) == CountSet(a) + CountSet(b)
  {
    if a == [] {
      assert a + b == b;
    } else {
      assert (a + b)[0] == a[0] && (a + b)[1..] == a[1..] + b;
      CountConcat(a[1..], b);
    }
  }

  lemma CountAround(w: Bits, i: nat, b: bool)
    requires i < |w|
    ensures CountSet(w[i := b]) == CountSet(w[..i]) + (if b then 1 else 0) + CountSet(w[i + 1..])
  {
    assert w[i := b] == w[..i] + ([b] + w[i + 1..]);
    CountConcat(w[..i], [b] + w[i + 1..]);
    CountConcat([b], w[i + 1..]);
    assert [b][1..] == [];
  }

  /** Flipping one bit changes the count by one. */
  lemma CountFlip(w: Bits, i: nat)
    requires i < |w|
    ensures CountSet(w[i := true]) == CountSet(w) + (if w[i] then 0 else 1)
    ensures CountSet(w[i := false]) + (if w[i] then 1 else 0) == CountSet(w)
  {
    CountAround(w, i, true);
    CountAround(w, i, false);
    assert w == w[i := w[i]];
  }

  lemma {:induction false} CountAll(w: Bits)
    ensures CountSet(w) == |w| <==> forall i :: 0 <= i < |w| ==> w[i]
    ensures CountSet(w) == 0 <==> forall i :: 0 <= i < |w| ==> !w[i]
  {
    if w == [] {
    } else {
      CountAll(w[1..]);
      assert forall i :: 0 < i < |w| ==> w[i] == w[1..][i - 1];
    }
  }

  predicate AnySet(w: Bits) { exists i :: 0 <= i < |w| && w[i] }

  /** bit_scan_forward: the lowest set bit. */
  method BitScanForward(w: Bits) returns (found: bool, index: nat)
    ensures found == AnySet(w)
    ensures found ==> index < |w| && w[index] && forall i :: 0 <= i < index ==> !w[i]
  {
    index := 0;
    while index < |w|
      invariant index <= |w| && forall i :: 0 <= i < index ==> !w[i]
    {
      if w[index] { return true, index; }
      index := index + 1;
    }
    found := false;
  }

  function Ones(n: nat): (w: Bits)
    ensures |w| == n && forall i :: 0 <= i < n ==> w[i]
  {
    seq(n, _ => true)
  }

  function OneAt(n: nat, i: nat): (w: Bits)
    ensures |w| == n && forall j :: 0 <= j < n ==> w[j] == (j == i)
  {
    seq(n, j => j == i)
  }
}
