/** Accesses through a page table: bytes at addresses of a state, wherever their pages are in host memory. */
module Pages {
  import opened Expressions
  import opened MemoryCache
  import opened AddressSpaces
  import opened SymbolicBytes
  import opened Options
  import Words

  /** The host page of each page, if there is one. The identity for host addresses. */
  type PageTable = nat -> Option<nat>

  /** The host address of each address, if there is one. */
  type Hosts = nat -> Option<nat>

  function HostAddress(pages: PageTable, a: nat): Option<nat> {
    var p := pages(a - a % PAGE);
    if p.Some? then Some(p.value + a % PAGE) else None
  }

  function HostsOf(pages: PageTable): Hosts { (a: nat) => HostAddress(pages, a) }

  ghost predicate Adjacent(t: Hosts, a: nat, k: nat) {
    a % OBJECT + k < OBJECT ==> t(a + k) == if t(a) == None then None else Some(t(a).value + k)
  }

  ghost predicate SameOffset(t: Hosts, a: nat) {
    t(a).Some? ==> t(a).value % OBJECT == a % OBJECT && t(a).value % PAGE == a % PAGE
  }

  /** Hosts are given page by page. */
  ghost predicate PageWise(t: Hosts) {
    && (forall a, k {:trigger Adjacent(t, a, k)} :: Adjacent(t, a, k))
    && (forall a {:trigger SameOffset(t, a)} :: SameOffset(t, a))
  }

  lemma HostsPageWise(pages: PageTable)
    requires forall p: nat {:trigger pages(p)} :: pages(p).Some? ==> pages(p).value % PAGE == 0
    ensures PageWise(HostsOf(pages))
  {
    var t := HostsOf(pages);
    forall a: nat, k: nat ensures Adjacent(t, a, k) {
      if a % OBJECT + k < OBJECT { WithinPage(a, k); }
    }
    forall a: nat ensures SameOffset(t, a) {
      if t(a).Some? { OffsetKept(pages(a - a % PAGE).value, a); }
    }
  }

  /** The host address of byte i of an access. */
  function Nth(t: Hosts, a: nat, i: nat): Option<nat> { t(a + i) }

  /** How many of the n bytes are mapped, up to the first one that is not. */
  function Reach(t: Hosts, a: nat, n: nat): (k: nat)
    ensures k <= n && (k < n ==> Nth(t, a, k) == None) && forall i: nat :: i < k ==> Nth(t, a, i).Some?
  {
    if n == 0 then 0
    else
      var k := Reach(t, a, n - 1);
      if k == n - 1 && Nth(t, a, k).Some? then n else k
  }

  lemma {:induction false} ReachIs(t: Hosts, a: nat, n: nat, k: nat)
    requires k <= n && (k < n ==> Nth(t, a, k) == None) && forall i: nat :: i < k ==> Nth(t, a, i).Some?
    ensures Reach(t, a, n) == k
  {
    if n > 0 { ReachIs(t, a, n - 1, if k == n then n - 1 else k); }
  }

  ghost predicate BackedAt(m: Memory, t: Hosts, a: nat, i: nat) { Nth(t, a, i).Some? ==> m.Ram(Nth(t, a, i).value) }

  /** Every mapped byte of the access is in an object of memory. */
  ghost predicate Backed(m: Memory, t: Hosts, a: nat, n: nat) {
    forall i: nat {:trigger BackedAt(m, t, a, i)} :: i < n ==> BackedAt(m, t, a, i)
  }

  /** An access within an object is mapped as a whole, contiguously, or not at all. */
  lemma Contiguous(t: Hosts, a: nat, n: nat)
    requires PageWise(t) && 0 < n <= OBJECT - a % OBJECT
    ensures Reach(t, a, n) == if t(a).Some? then n else 0
    ensures t(a).Some? ==> t(a).value % OBJECT == a % OBJECT
    ensures t(a).Some? ==> forall i: nat :: i < n ==> Nth(t, a, i) == Some(t(a).value + i)
  {
    forall i: nat | i < n ensures Nth(t, a, i) == if t(a).Some? then Some(t(a).value + i) else None {
      assert Adjacent(t, a, i);
    }
    assert SameOffset(t, a);
    assert Nth(t, a, 0) == t(a);
    ReachIs(t, a, n, if t(a).Some? then n else 0);
  }

  /** Within an object, the bytes are a part of it. */
  lemma GatheredWithin(m: Memory, t: Hosts, a: nat, n: nat, page: nat, offset: nat)
    requires 0 < n <= OBJECT - offset && (page + offset) % OBJECT == offset && Reach(t, a, n) == n && Backed(m, t, a, n)
    requires forall i: nat :: i < n ==> Nth(t, a, i) == Some(page + offset + i)
    ensures page % OBJECT == 0 && Base(page + offset) == page && page in m.bound && |m.Object(page)| == OBJECT
    ensures Gathered(m, t, a, n) == m.Object(page)[offset..offset + n]
  {
    assert Nth(t, a, 0) == Some(page + offset) && BackedAt(m, t, a, 0);
    Whole(page, offset);
    GatheredInObject(m, t, a, n, page, offset);
  }

  lemma GatheredInObject(m: Memory, t: Hosts, a: nat, n: nat, page: nat, offset: nat)
    requires page % OBJECT == 0 && offset + n <= OBJECT == |m.Object(page)| && Reach(t, a, n) == n
    requires forall i: nat :: i < n ==> Nth(t, a, i) == Some(page + offset + i)
    ensures Gathered(m, t, a, n) == m.Object(page)[offset..offset + n]
  {
    var s, o := Gathered(m, t, a, n), m.Object(page);
    forall i | 0 <= i < n ensures s[i] == o[offset + i] {
      AtInObject(m, page, offset + i, page + offset + i);
    }
  }

  lemma Whole(page: nat, offset: nat)
    requires offset < OBJECT && (page + offset) % OBJECT == offset
    ensures page % OBJECT == 0 && Base(page + offset) == page
  {
  }

  lemma BackedByte(s: Snapshot, s': Snapshot, t: Hosts, a: nat, n: nat, i: nat)
    requires Backed(s.memory, t, a, n) && i < n && Kept(s, s')
    ensures t(a + i).Some? ==> s'.memory.Ram(t(a + i).value)
  {
    assert Nth(t, a, i) == t(a + i) && BackedAt(s.memory, t, a, i);
    if t(a + i).Some? { assert KeptBinding(s, s', Base(t(a + i).value)); }
  }

  lemma BackedLess(m: Memory, t: Hosts, a: nat, n: nat, k: nat)
    requires Backed(m, t, a, n) && k <= n
    ensures Backed(m, t, a, k)
  {
  }

  lemma BackedRest(s: Snapshot, s': Snapshot, t: Hosts, a: nat, n: nat, k: nat)
    requires Backed(s.memory, t, a, n) && k <= n && Kept(s, s')
    ensures Backed(s'.memory, t, a + k, n - k)
  {
    var b, l := a + k, n - k;
    forall i: nat | i < l ensures BackedAt(s'.memory, t, b, i) {
      assert Nth(t, b, i) == t(a + (k + i));
      BackedByte(s, s', t, a, n, k + i);
    }
  }

  lemma OneByteAccess(m: Memory, t: Hosts, a: nat)
    requires t(a).Some? ==> m.Ram(t(a).value)
    ensures Backed(m, t, a, 1) && Reach(t, a, 1) == if t(a).Some? then 1 else 0
  {
    assert Nth(t, a, 0) == t(a);
    ReachIs(t, a, 1, if t(a).Some? then 1 else 0);
  }

  lemma WrittenOne(m: Memory, m': Memory, t: Hosts, a: nat, e: Expr, h0: nat)
    requires t(a) == Some(h0) && e.Const? && e.value < 0x100 && Written(m, m', t, a, Parts(e, 1), 1)
    ensures Became(m, m', h0, [e])
  {
    assert Nth(t, a, 0) == t(a) && Parts(e, 1)[0] == e;
    forall h: nat ensures BecameAt(m, m', h0, [e], h) {
      assert WrittenAt(m, m', t, a, Parts(e, 1), 1, h);
      assert Overwritten(m, t, a, Parts(e, 1), 0, h) == m.At(h);
    }
  }

  lemma JoinMore(m: Memory, t: Hosts, a: nat, i: nat)
    requires Reach(t, a, i) == i && Nth(t, a, i).Some?
    ensures Reach(t, a, i + 1) == i + 1
    ensures var byte := m.At(Nth(t, a, i).value);
      Joined(Gathered(m, t, a, i + 1)) == if i > 0 then Concat(byte, Joined(Gathered(m, t, a, i)), i) else byte
  {
    assert Gathered(m, t, a, i + 1)[..i] == Gathered(m, t, a, i);
  }

  lemma WithinPage(a: nat, k: nat)
    requires a % OBJECT + k < OBJECT
    ensures (a + k) % PAGE == a % PAGE + k && (a + k) - (a + k) % PAGE == a - a % PAGE
  {
    var r := a % PAGE;
    Smaller(a, r);
    Advance(a / PAGE, r, a, k);
  }

  lemma Smaller(a: nat, r: nat)
    requires r == a % PAGE
    ensures r % OBJECT == a % OBJECT && r - r % OBJECT <= PAGE - OBJECT
  {
  }

  lemma Advance(q: nat, r: nat, a: nat, k: nat)
    requires a == q * PAGE + r && r + k < PAGE
    ensures (a + k) % PAGE == r + k
  {
  }

  lemma OffsetKept(p: nat, a: nat)
    requires p % PAGE == 0
    ensures (p + a % PAGE) % OBJECT == a % OBJECT && (p + a % PAGE) % PAGE == a % PAGE
  {
    var r := a % PAGE;
    Advance(p / PAGE, 0, p, r);
    Smaller(a, r);
    Smaller(p + r, r);
  }

  /** The bytes at an address. */
  ghost function Gathered(m: Memory, t: Hosts, a: nat, n: nat): (s: seq<Expr>)
    requires Reach(t, a, n) == n
    ensures |s| == n && forall i :: 0 <= i < n ==> s[i] == m.At(Nth(t, a, i).value)
  {
    seq(n, i requires 0 <= i < n => m.At(Nth(t, a, i).value))
  }

  /** The byte at host address h once bytes have been written at the first k addresses from a on, one
      after the other. */
  ghost function Overwritten(m: Memory, t: Hosts, a: nat, bytes: seq<Expr>, k: nat, h: nat): Expr
    requires k <= |bytes|
  {
    if k == 0 then m.At(h)
    else if Nth(t, a, k - 1) == Some(h) then bytes[k - 1]
    else Overwritten(m, t, a, bytes, k - 1, h)
  }

  ghost predicate WrittenAt(m: Memory, m': Memory, t: Hosts, a: nat, bytes: seq<Expr>, k: nat, h: nat)
    requires k <= |bytes|
  {
    m'.At(h) == Overwritten(m, t, a, bytes, k, h)
  }

  /** The first k bytes have been written at an address, and the rest of memory has not changed. */
  ghost predicate Written(m: Memory, m': Memory, t: Hosts, a: nat, bytes: seq<Expr>, k: nat)
    requires k <= |bytes|
  {
    forall h: nat {:trigger WrittenAt(m, m', t, a, bytes, k, h)} :: WrittenAt(m, m', t, a, bytes, k, h)
  }

  lemma WrittenNone(m: Memory, m': Memory, t: Hosts, a: nat, bytes: seq<Expr>)
    requires Unaltered(m, m')
    ensures Written(m, m', t, a, bytes, 0)
  {
    forall h: nat ensures WrittenAt(m, m', t, a, bytes, 0, h) {
    }
  }

  lemma WrittenMore(m: Memory, m1: Memory, m2: Memory, t: Hosts, a: nat, bytes: seq<Expr>, k: nat, h1: nat)
    requires k < |bytes| && Written(m, m1, t, a, bytes, k) && Nth(t, a, k) == Some(h1) && Became(m1, m2, h1, [bytes[k]])
    ensures Written(m, m2, t, a, bytes, k + 1)
  {
    var l := k + 1;
    forall h: nat ensures WrittenAt(m, m2, t, a, bytes, l, h) {
      assert WrittenAt(m, m1, t, a, bytes, k, h) && BecameAt(m1, m2, h1, [bytes[k]], h);
    }
  }

  lemma WrittenContiguous(m: Memory, m': Memory, t: Hosts, a: nat, bytes: seq<Expr>, h0: nat)
    requires Became(m, m', h0, bytes) && forall i: nat :: i < |bytes| ==> Nth(t, a, i) == Some(h0 + i)
    ensures Written(m, m', t, a, bytes, |bytes|)
  {
    forall h: nat ensures WrittenAt(m, m', t, a, bytes, |bytes|, h) {
      assert BecameAt(m, m', h0, bytes, h);
      OverwrittenContiguous(m, t, a, bytes, h0, |bytes|, h);
    }
  }

  lemma {:induction false} OverwrittenContiguous(m: Memory, t: Hosts, a: nat, bytes: seq<Expr>, h0: nat, k: nat, h: nat)
    requires k <= |bytes| && forall i: nat :: i < |bytes| ==> Nth(t, a, i) == Some(h0 + i)
    ensures Overwritten(m, t, a, bytes, k, h) == if h0 <= h < h0 + k then bytes[h - h0] else m.At(h)
  {
    if k == 0 {
    } else {
      assert Nth(t, a, k - 1) == Some(h0 + (k - 1));
      OverwrittenContiguous(m, t, a, bytes, h0, k - 1, h);
    }
  }

  /** Bytes of one access of at most a page are at different host addresses, even if two pages share a host page. */
  lemma HostsDiffer(t: Hosts, a: nat, i: nat, j: nat)
    requires PageWise(t) && i < j < i + PAGE && Nth(t, a, i).Some? && Nth(t, a, j).Some?
    ensures Nth(t, a, i) != Nth(t, a, j)
  {
    assert SameOffset(t, a + i) && SameOffset(t, a + j);
    OffsetsDiffer(a + i, a + j);
  }

  lemma OffsetsDiffer(x: nat, y: nat)
    requires x < y < x + PAGE
    ensures x % PAGE != y % PAGE
  {
  }

  lemma {:induction false} OverwrittenByte(m: Memory, t: Hosts, a: nat, bytes: seq<Expr>, k: nat, i: nat)
    requires i < k <= |bytes| <= PAGE && PageWise(t) && forall j: nat :: j < k ==> Nth(t, a, j).Some?
    ensures Overwritten(m, t, a, bytes, k, Nth(t, a, i).value) == bytes[i]
  {
    assert Nth(t, a, i).Some? && Nth(t, a, k - 1).Some?;
    if i < k - 1 {
      HostsDiffer(t, a, i, k - 1);
      OverwrittenByte(m, t, a, bytes, k - 1, i);
    }
  }

  /** Reading back what was written gives its value, wherever the access lies. */
  lemma ReadsBack(m: Memory, m': Memory, t: Hosts, a: nat, e: Expr, n: nat, asg: Assignment)
    requires PageWise(t) && 0 < n <= PAGE && Reach(t, a, n) == n && Written(m, m', t, a, Parts(e, n), n)
    requires Eval(e, asg) < Words.Pow256(n)
    ensures Eval(Joined(Gathered(m', t, a, n)), asg) == Eval(e, asg)
  {
    SameBytes(m, m', t, a, Parts(e, n), n);
    JoinedParts(e, n, asg);
  }

  lemma SameBytes(m: Memory, m': Memory, t: Hosts, a: nat, bytes: seq<Expr>, n: nat)
    requires PageWise(t) && n == |bytes| <= PAGE && Reach(t, a, n) == n && Written(m, m', t, a, bytes, n)
    ensures Gathered(m', t, a, n) == bytes
  {
    forall i | 0 <= i < n ensures Gathered(m', t, a, n)[i] == bytes[i] {
      OverwrittenByte(m, t, a, bytes, n, i);
      assert WrittenAt(m, m', t, a, bytes, n, Nth(t, a, i).value);
    }
  }
}
