/** Emulated loads and stores through the TLB of a target with 32-bit addresses. */
module Mmu {
  import opened Words
  import opened LittleEndian

  const ADDRESSES := 0x1_0000_0000
  const TARGET_PAGE := 0x1000
  const RAM_OBJECT := 0x80
  const TLB_SIZE := 0x100
  const INVALID := -1

  /** The pages an entry may be used for, INVALID if none, and where its page is in host memory. */
  datatype Entry = Entry(addrRead: int, addrWrite: int, hostPage: nat)

  function PageOf(a: nat): nat { a - a % TARGET_PAGE }

  function IndexOf(a: nat): nat { (a / RAM_OBJECT / (TARGET_PAGE / RAM_OBJECT)) % TLB_SIZE }

  /** Byte k from an address on; the address space wraps around. */
  function Next(a: nat, k: nat): nat { (a + k) % ADDRESSES }

  predicate Size(n: nat) { n == 1 || n == 2 || n == 4 || n == 8 }

  /** Does the access leave its 128-byte object? */
  predicate Crosses(a: nat, n: nat) { a % RAM_OBJECT + n > RAM_OBJECT }

  /** The low bits of an address that an aligned access of n bytes would have clear. */
  function Misalignment(a: nat, n: nat): (r: nat)
    requires Size(n)
    ensures r < n && r <= a
  {
    if n == 1 then 0 else if n == 2 then a % 2 else if n == 4 then a % 4 else a % 8
  }

  /** An aligned access never leaves its object, so the two halves of an unaligned load do not split again. */
  lemma AlignedStays(a: nat, n: nat)
    requires Size(n) && Misalignment(a, n) == 0
    ensures !Crosses(a, n)
  {
    if n == 2 { Multiple2(a); }
    if n == 4 { Multiple4(a); }
    if n == 8 { Multiple8(a); }
  }

  lemma Multiple2(a: nat)
    requires a % 2 == 0
    ensures a % RAM_OBJECT <= 126 && ((a + 2) % ADDRESSES) % 2 == 0
  {
    var x := a + 2;
    var q, r := x / ADDRESSES, x % ADDRESSES;
    assert x == 2 * (x / 2) && r == 2 * (x / 2 - q * 0x8000_0000);
  }

  lemma Multiple4(a: nat)
    requires a % 4 == 0
    ensures a % RAM_OBJECT <= 124 && ((a + 4) % ADDRESSES) % 4 == 0
  {
    var x := a + 4;
    var q, r := x / ADDRESSES, x % ADDRESSES;
    assert x == 4 * (x / 4) && r == 4 * (x / 4 - q * 0x4000_0000);
  }

  lemma Multiple8(a: nat)
    requires a % 8 == 0
    ensures a % RAM_OBJECT <= 120 && ((a + 8) % ADDRESSES) % 8 == 0
  {
    var x := a + 8;
    var q, r := x / ADDRESSES, x % ADDRESSES;
    assert x == 8 * (x / 8) && r == 8 * (x / 8 - q * 0x2000_0000);
  }

  /** So an access that leaves its object starts inside an aligned word. */
  lemma CrossingIsUnaligned(a: nat, n: nat)
    requires Size(n) && Crosses(a, n)
    ensures Misalignment(a, n) > 0
  {
    if Misalignment(a, n) == 0 { AlignedStays(a, n); }
  }

  lemma WordsAligned(a: nat, n: nat)
    requires Size(n)
    ensures var addr1 := a - Misalignment(a, n);
      Misalignment(addr1, n) == 0 && Misalignment((addr1 + n) % ADDRESSES, n) == 0
  {
    if n == 2 { Aligned2(a); }
    if n == 4 { Aligned4(a); }
    if n == 8 { Aligned8(a); }
  }

  lemma Aligned2(a: nat)
    ensures (a - a % 2) % 2 == 0 && ((a - a % 2 + 2) % ADDRESSES) % 2 == 0
  {
    Multiple2(a - a % 2);
  }

  lemma Aligned4(a: nat)
    ensures (a - a % 4) % 4 == 0 && ((a - a % 4 + 4) % ADDRESSES) % 4 == 0
  {
    Multiple4(a - a % 4);
  }

  lemma Aligned8(a: nat)
    ensures (a - a % 8) % 8 == 0 && ((a - a % 8 + 8) % ADDRESSES) % 8 == 0
  {
    Multiple8(a - a % 8);
  }

  /** Within an object, the page stays the same and the offset advances. */
  lemma SamePage(a: nat, k: nat)
    requires a % RAM_OBJECT + k < RAM_OBJECT
    ensures PageOf(a + k) == PageOf(a) && (a + k) % TARGET_PAGE == a % TARGET_PAGE + k
  {
    var t := a % TARGET_PAGE;
    ObjectInPage(a);
    assert t + k < TARGET_PAGE;
    assert a + k == (a - t) + (t + k);
  }

  lemma ObjectInPage(a: nat)
    ensures a % TARGET_PAGE % RAM_OBJECT == a % RAM_OBJECT
    ensures a % TARGET_PAGE - a % TARGET_PAGE % RAM_OBJECT <= TARGET_PAGE - RAM_OBJECT
  {
  }

  /** Bytes less than a page apart have different offsets in their pages. */
  lemma OffsetsDiffer(a: nat, i: nat, k: nat)
    requires i < k < 8
    ensures Next(a, i) % TARGET_PAGE != Next(a, k) % TARGET_PAGE
  {
    OffsetOfNext(a, i);
    OffsetOfNext(a, k);
  }

  lemma OffsetOfNext(a: nat, k: nat)
    ensures Next(a, k) % TARGET_PAGE == (a + k) % TARGET_PAGE
  {
    var q := (a + k) / ADDRESSES;
    assert a + k == q * ADDRESSES + Next(a, k);
    assert q * ADDRESSES == q * 0x10_0000 * TARGET_PAGE;
  }

  /** The first word shifted down, or-ed with the second shifted up within a width. */
  function Combined(value1: nat, value2: nat, shift: nat, shift2: nat, width: nat): nat {
    OrBits(ShiftDown(value1, shift), ShiftUp(value2, shift2) % Pow2(width))
  }

  class Machine {
    const translate: nat -> nat    // the host page of each target page
    const tlb: array<Entry>
    const ram: array<nat>

    /** Nothing is in the TLB yet. */
    constructor (translate: nat -> nat, bytes: seq<nat>)
      requires forall p :: translate(p) % TARGET_PAGE == 0 && translate(p) + TARGET_PAGE <= |bytes|
      requires forall i :: 0 <= i < |bytes| ==> bytes[i] < 0x100
      ensures Valid() && fresh(tlb) && fresh(ram) && this.translate == translate && ram[..] == bytes
    {
      this.translate := translate;
      tlb := new Entry[TLB_SIZE](_ => Entry(INVALID, INVALID, 0));
      ram := new nat[|bytes|](i requires 0 <= i < |bytes| => bytes[i]);
    }

    function Host(a: nat): nat { translate(PageOf(a)) + a % TARGET_PAGE }

    ghost predicate GoodEntry(i: nat)
      requires i < tlb.Length
      reads tlb
    {
      && (tlb[i].addrRead == INVALID || (tlb[i].addrRead >= 0 && tlb[i].hostPage == translate(tlb[i].addrRead)))
      && (tlb[i].addrWrite == INVALID || (tlb[i].addrWrite >= 0 && tlb[i].hostPage == translate(tlb[i].addrWrite)))
    }

    ghost predicate Valid()
      reads tlb, ram
    {
      && tlb.Length == TLB_SIZE && (forall i {:trigger GoodEntry(i)} :: 0 <= i < tlb.Length ==> GoodEntry(i))
      && Memory()
    }

    /** Host memory has every page, and consists of bytes. */
    ghost predicate Memory()
      reads ram
    {
      && (forall p :: translate(p) % TARGET_PAGE == 0 && translate(p) + TARGET_PAGE <= ram.Length)
      && (forall h :: 0 <= h < ram.Length ==> ram[h] < 0x100)
    }

    /** The n bytes at an address. */
    ghost function Loaded(a: nat, n: nat): (s: seq<nat>)
      requires Memory()
      reads ram
      ensures |s| == n && Bytes(s)
    {
      seq(n, k requires 0 <= k < n reads ram requires Host(Next(a, k)) < ram.Length => ram[Host(Next(a, k))])
    }

    lemma HostInRam(a: nat)
      requires Memory()
      ensures Host(a) < ram.Length && Host(a) % TARGET_PAGE == a % TARGET_PAGE
    {
      assert translate(PageOf(a)) + TARGET_PAGE <= ram.Length;
    }

    /** Within one object, target addresses and host addresses advance together, and nothing wraps. */
    lemma HostWithinObject(a: nat, n: nat, k: nat)
      requires a < ADDRESSES && !Crosses(a, n) && k < n
      ensures Next(a, k) == a + k && Host(Next(a, k)) == Host(a) + k
    {
      SamePage(a, k);
      assert a + k < ADDRESSES;
    }

    /** Bytes at different places of an access are at different host addresses. */
    lemma HostsDiffer(a: nat, i: nat, k: nat)
      requires Memory() && i < 8 && k < 8 && i != k
      ensures Host(Next(a, i)) != Host(Next(a, k))
    {
      HostInRam(Next(a, i));
      HostInRam(Next(a, k));
      if i < k { OffsetsDiffer(a, i, k); } else { OffsetsDiffer(a, k, i); }
    }

    /** The entry for a page, filled in if it does not hold the page. */
    method Lookup(a: nat, isWrite: bool) returns (base: nat)
      requires Valid() && a < ADDRESSES
      modifies tlb
      ensures Valid() && base == translate(PageOf(a))
    {
      var index := IndexOf(a);
      while true
        invariant Valid()
        decreases if (if isWrite then tlb[index].addrWrite else tlb[index].addrRead) == PageOf(a) then 0 else 1
      {
        var tlbAddr := if isWrite then tlb[index].addrWrite else tlb[index].addrRead;
        assert GoodEntry(index);
        if PageOf(a) == tlbAddr { return tlb[index].hostPage; }
        TlbFill(a, index, isWrite);
      }
    }

    /** Install the page of an address. Loads and stores may use the page once they have asked for it. */
    method TlbFill(a: nat, index: nat, isWrite: bool)
      requires Valid() && index < TLB_SIZE
      modifies tlb
      ensures Valid() && (if isWrite then tlb[index].addrWrite else tlb[index].addrRead) == PageOf(a)
    {
      ghost var before := tlb[..];
      tlb[index] := if isWrite then Entry(INVALID, PageOf(a), translate(PageOf(a)))
        else Entry(PageOf(a), INVALID, translate(PageOf(a)));
      forall i | 0 <= i < tlb.Length ensures GoodEntry(i) {
        assert old(GoodEntry(i));
      }
    }

    /** n contiguous bytes of host memory, lowest first. */
    method ReadHost(h: nat, n: nat) returns (v: nat)
      requires Valid() && h + n <= ram.Length
      ensures v == Value(ram[h..h + n])
    {
      v := 0;
      var i := n;
      while i > 0
        invariant 0 <= i <= n && v == Value(ram[h + i..h + n])
      {
        i := i - 1;
        v := ram[h + i] + 256 * v;
        assert ram[h + i..h + n][1..] == ram[h + i + 1..h + n];
      }
    }

    method WriteHost(h: nat, n: nat, v: nat)
      requires Valid() && h + n <= ram.Length
      modifies ram
      ensures Valid()
      ensures forall i :: 0 <= i < ram.Length ==> ram[i] == if h <= i < h + n then ByteOf(v, i - h) else old(ram[i])
    {
      var bytes := Split(v, n);
      for k := 0 to n
        invariant Valid()
        invariant forall i :: 0 <= i < ram.Length ==> ram[i] == if h <= i < h + k then bytes[i - h] else old(ram[i])
      {
        ram[h + k] := bytes[k];
      }
    }

    /** A load of 1, 2, 4 or 8 bytes: the little-endian value of the bytes. Only a zero-extended 16-bit load that leaves
        its object differs: it picks up a third byte. */
    method Load(a: nat, n: nat, zeroExtend: bool) returns (value: nat)
      requires Valid() && a < ADDRESSES && Size(n) && (zeroExtend ==> n == 2)
      modifies tlb
      ensures Valid() && value == Value(Loaded(a, if zeroExtend && Crosses(a, n) then 3 else n))
      decreases if Crosses(a, n) then 1 else 0, 1
    {
      var base := Lookup(a, false);
      if Crosses(a, n) {
        value := LoadSplit(a, n, zeroExtend);
      } else {
        value := LoadDirect(a, n, base + a % TARGET_PAGE);
      }
    }

    method LoadSplit(a: nat, n: nat, zeroExtend: bool) returns (value: nat)
      requires Valid() && a < ADDRESSES && Size(n) && (zeroExtend ==> n == 2) && Crosses(a, n)
      modifies tlb
      ensures Valid() && value == Value(Loaded(a, if zeroExtend then 3 else n))
      decreases 1, 0
    {
      var addr1, addr2, r := WordsAround(a, n);
      var value1 := Load(addr1, n, zeroExtend);
      var value2 := Load(addr2, n, zeroExtend);
      value := Combine(a, n, r, addr1, addr2, value1, value2, zeroExtend);
    }

    method Combine(ghost a: nat, n: nat, r: nat, ghost addr1: nat, ghost addr2: nat, value1: nat, value2: nat,
                   zeroExtend: bool) returns (value: nat)
      requires Valid() && a < ADDRESSES && n <= 8 && 0 < r < n && addr1 + r == a && addr2 == (addr1 + n) % ADDRESSES
      requires (zeroExtend ==> n == 2) && value1 == Value(Loaded(addr1, n)) && value2 == Value(Loaded(addr2, n))
      ensures value == Value(Loaded(a, if zeroExtend then 3 else n))
    {
      var shift, shift2 := r * 8, n * 8 - r * 8;
      var width := if zeroExtend then 32 else n * 8;
      value := Combined(value1, value2, shift, shift2, width);
      if zeroExtend {
        CombineWide(a, n, addr1, addr2, shift, shift2, width);
      } else {
        CombineHalves(a, n, r, addr1, addr2, shift, shift2, width);
      }
    }

    /** The two aligned words an access touches, and where it starts in the first. */
    method WordsAround(a: nat, n: nat) returns (addr1: nat, addr2: nat, r: nat)
      requires a < ADDRESSES && Size(n) && Crosses(a, n)
      ensures 0 < r < n && addr1 + r == a && addr2 == (addr1 + n) % ADDRESSES && !Crosses(addr1, n)
      ensures !Crosses(addr2, n)
    {
      CrossingIsUnaligned(a, n);
      WordsAligned(a, n);
      r := Misalignment(a, n);
      addr1 := a - r;
      addr2 := (addr1 + n) % ADDRESSES;
      AlignedStays(addr1, n);
      AlignedStays(addr2, n);
    }

    method LoadDirect(a: nat, n: nat, h: nat) returns (value: nat)
      requires Valid() && a < ADDRESSES && Size(n) && !Crosses(a, n) && h == Host(a)
      ensures value == Value(Loaded(a, n))
    {
      HostWithinObject(a, n, n - 1);
      HostInRam(Next(a, n - 1));
      value := ReadHost(h, n);
      forall k | 0 <= k < n ensures ram[h..h + n][k] == Loaded(a, n)[k] {
        HostWithinObject(a, n, k);
      }
      assert ram[h..h + n] == Loaded(a, n);
    }

    /** Two aligned loads around an address hold the bytes at it. */
    lemma CombineHalves(a: nat, n: nat, r: nat, addr1: nat, addr2: nat, shift: nat, shift2: nat, width: nat)
      requires Memory() && a < ADDRESSES && n <= 8 && 0 < r < n && addr1 + r == a && addr2 == (addr1 + n) % ADDRESSES
      requires shift == 8 * r && shift2 == 8 * (n - r) && width == 8 * n
      ensures Combined(Value(Loaded(addr1, n)), Value(Loaded(addr2, n)), shift, shift2, width) == Value(Loaded(a, n))
    {
      assert r + (n - r) == n;
      Recombine(Loaded(addr1, n), Loaded(addr2, n), r, n - r);
      JoinLoaded(a, n, r, addr1, addr2);
    }

    /** The zero-extended form keeps 32 bits of the second half, so its upper byte stays. */
    lemma CombineWide(a: nat, n: nat, addr1: nat, addr2: nat, shift: nat, shift2: nat, width: nat)
      requires Memory() && 0 < a < ADDRESSES && n == 2 && addr1 == a - 1 && addr2 == (addr1 + n) % ADDRESSES
      requires shift == 8 && shift2 == 8 && width == 32
      ensures Combined(Value(Loaded(addr1, n)), Value(Loaded(addr2, n)), shift, shift2, width) == Value(Loaded(a, 3))
    {
      var s, t := Loaded(addr1, 2), Loaded(addr2, 2);
      DropBytes(s, 1);
      assert s[1..][1..] == [] && Value(s[1..]) == s[1];
      ValueBound(t);
      LowIs(0, 0);
      WideOr(s[1], Value(t));
      WideBytes(a, addr1, addr2);
    }

    lemma WideBytes(a: nat, addr1: nat, addr2: nat)
      requires Memory() && 0 < a < ADDRESSES && addr1 == a - 1 && addr2 == (addr1 + 2) % ADDRESSES
      ensures Loaded(a, 3) == [Loaded(addr1, 2)[1]] + Loaded(addr2, 2)
    {
      assert Next(addr1, 1) == Next(a, 0);
      NextWraps(a + 1, 0);
      NextWraps(a + 1, 1);
      assert Next(a + 1, 0) == Next(a, 1) && Next(a + 1, 1) == Next(a, 2);
    }

    lemma JoinLoaded(a: nat, n: nat, r: nat, addr1: nat, addr2: nat)
      requires Memory() && a < ADDRESSES && r <= n && addr1 + r == a && addr2 == (addr1 + n) % ADDRESSES
      ensures Loaded(addr1, n)[r..] + Loaded(addr2, n)[..r] == Loaded(a, n)
    {
      var s := Loaded(addr1, n)[r..] + Loaded(addr2, n)[..r];
      forall k | 0 <= k < n ensures s[k] == Loaded(a, n)[k] {
        if k < n - r {
          assert Next(addr1, r + k) == Next(a, k);
        } else {
          NextWraps(addr1 + n, k - (n - r));
          assert Next(addr1 + n, k - (n - r)) == Next(a, k);
        }
      }
    }

    /** It is the 16-bit value exactly when that third byte is zero. */
    lemma WideLoadIsRight(a: nat)
      requires Memory()
      ensures Value(Loaded(a, 3)) == Value(Loaded(a, 2)) <==> Loaded(a, 3)[2] == 0
    {
      assert Loaded(a, 3) == Loaded(a, 2) + [Loaded(a, 3)[2]];
      ValueJoin(Loaded(a, 2), [Loaded(a, 3)[2]]);
      LowIs(0, 0);
      assert [Loaded(a, 3)[2]][1..] == [];
    }

    lemma NextWraps(b: nat, k: nat)
      ensures Next(b % ADDRESSES, k) == Next(b, k)
    {
    }

    /** A store of 1, 2, 4 or 8 bytes writes byte k of the value to the k-th address, and nothing else. */
    method Store(a: nat, v: nat, n: nat)
      requires Valid() && a < ADDRESSES && Size(n)
      modifies tlb, ram
      ensures Valid()
      ensures forall k :: 0 <= k < n ==> ram[Host(Next(a, k))] == ByteOf(v, k)
      ensures forall h :: 0 <= h < ram.Length && Outside(a, n, h) ==> ram[h] == old(ram[h])
      decreases if Crosses(a, n) then 1 else 0, 1
    {
      var base := Lookup(a, true);
      if Crosses(a, n) {
        StoreSplit(a, v, n);
      } else {
        StoreDirect(a, v, n, base + a % TARGET_PAGE);
      }
    }

    /** h is none of the host addresses of an access. */
    ghost predicate Outside(a: nat, n: nat, h: nat) { forall k :: 0 <= k < n ==> h != Host(Next(a, k)) }

    /** One byte at a time, from the last one down. */
    method StoreSplit(a: nat, v: nat, n: nat)
      requires Valid() && a < ADDRESSES && Size(n) && Crosses(a, n)
      modifies tlb, ram
      ensures Valid()
      ensures forall k :: 0 <= k < n ==> ram[Host(Next(a, k))] == ByteOf(v, k)
      ensures forall h :: 0 <= h < ram.Length && Outside(a, n, h) ==> ram[h] == old(ram[h])
      decreases 1, 0
    {
      var i := n;
      while i > 0
        invariant 0 <= i <= n && Valid()
        invariant forall k :: i <= k < n ==> ram[Host(Next(a, k))] == ByteOf(v, k)
        invariant forall h :: 0 <= h < ram.Length && Outside(a, n, h) ==> ram[h] == old(ram[h])
      {
        i := i - 1;
        StoreByte(a, v, n, i);
      }
    }

    method StoreByte(a: nat, v: nat, n: nat, i: nat)
      requires Valid() && a < ADDRESSES && Size(n) && i < n
      modifies tlb, ram
      ensures Valid() && ram[Host(Next(a, i))] == ByteOf(v, i)
      ensures forall k :: 0 <= k < n && k != i ==> ram[Host(Next(a, k))] == old(ram[Host(Next(a, k))])
      ensures forall h :: 0 <= h < ram.Length && Outside(a, n, h) ==> ram[h] == old(ram[h])
      decreases 0, 2
    {
      var b := Next(a, i);
      var byte := ByteOf(v, i);
      Store(b, byte, 1);
      assert Next(b, 0) == b;
      ByteOfByte(v, i);
      forall k | 0 <= k < n && k != i ensures ram[Host(Next(a, k))] == old(ram[Host(Next(a, k))]) {
        HostsDiffer(a, i, k);
        HostInRam(Next(a, k));
        assert Outside(b, 1, Host(Next(a, k)));
      }
      forall h | 0 <= h < ram.Length && Outside(a, n, h) ensures ram[h] == old(ram[h]) {
        assert Outside(b, 1, h);
      }
    }

    lemma {:induction false} ByteOfByte(v: nat, i: nat)
      ensures ByteOf(ByteOf(v, i), 0) == ByteOf(v, i)
    {
      if i == 0 {
      } else {
        ByteOfByte(v / 256, i - 1);
      }
    }

    method StoreDirect(a: nat, v: nat, n: nat, h: nat)
      requires Valid() && a < ADDRESSES && Size(n) && !Crosses(a, n) && h == Host(a)
      modifies ram
      ensures Valid()
      ensures forall k :: 0 <= k < n ==> ram[Host(Next(a, k))] == ByteOf(v, k)
      ensures forall g :: 0 <= g < ram.Length && Outside(a, n, g) ==> ram[g] == old(ram[g])
    {
      HostWithinObject(a, n, n - 1);
      HostInRam(Next(a, n - 1));
      WriteHost(h, n, v);
      forall k | 0 <= k < n ensures ram[Host(Next(a, k))] == ByteOf(v, k) {
        HostWithinObject(a, n, k);
      }
      forall g | 0 <= g < ram.Length && Outside(a, n, g) ensures ram[g] == old(ram[g]) {
        if h <= g < h + n { HostWithinObject(a, n, g - h); }
      }
    }

    /** Memory that holds the bytes of a value at an address gives the value back. */
    lemma LoadedBack(a: nat, v: nat, n: nat)
      requires Memory() && v < Pow256(n) && (forall k :: 0 <= k < n ==> Host(Next(a, k)) < ram.Length)
      requires forall k :: 0 <= k < n ==> ram[Host(Next(a, k))] == ByteOf(v, k)
      ensures Value(Loaded(a, n)) == v
    {
      assert Loaded(a, n) == Split(v, n);
      ValueOfSplit(v, n);
    }
  }
  /** In memory all of whose bytes are 1, the zero-extended 16-bit load at 127 gives three of them. */
  method WideLoad() returns (m: Machine, value: nat)
    ensures m.Valid() && value == 0x1_0101 && Value(m.Loaded(127, 2)) == 0x101
  {
    m := new Machine(_ => 0, seq(TARGET_PAGE, _ => 1));
    ghost var three, two := m.Loaded(127, 3), m.Loaded(127, 2);
    forall k | 0 <= k < 3 ensures three[k] == 1 {
      assert m.ram[..][m.Host(Next(127, k))] == 1;
    }
    assert two == three[..2];
    value := m.Load(127, 2, true);
    assert m.Loaded(127, 3) == three && m.Loaded(127, 2) == two;
    assert three == [1, 1, 1] && two == [1, 1];
    assert [1, 1, 1][1..] == [1, 1] && [1, 1][1..] == [1] && [1][1..] == [];
  }
}
