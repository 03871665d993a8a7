/** The slab allocator: one block allocator per size class, told apart by the signature of their pages. */
module Slab {
  import CircularLists
  import opened SlabPages
  import opened SlabHeaders
  import opened SlabLists
  import opened SlabBlocks
  import Words

  /** The size class of a request, 0 if there is none. */
  function Log(size: nat): (i: nat)
    ensures i == 0 <==> size < 4 || size > 256
    ensures i != 0 ==> 3 <= i <= 8
  {
    if 4 <= size <= 8 then 3
    else if 9 <= size <= 16 then 4
    else if 17 <= size <= 32 then 5
    else if 33 <= size <= 64 then 6
    else if 65 <= size <= 128 then 7
    else if 129 <= size <= 256 then 8
    else 0
  }

  /** The class is the smallest one from 8 bytes up whose blocks can hold the request. */
  lemma LogIsTightest(size: nat)
    requires Log(size) != 0
    ensures size <= Words.Pow2(Log(size)) && (Log(size) > 3 ==> Words.Pow2(Log(size) - 1) < size)
  {
    assert Words.Pow2(2) == 4 && Words.Pow2(3) == 8;
    assert Words.Pow2(4) == 16 && Words.Pow2(5) == 32 && Words.Pow2(6) == 64;
    assert Words.Pow2(7) == 128 && Words.Pow2(8) == 256;
  }

  /** Two byte ranges with nothing in common. */
  predicate Disjoint(a: nat, n: nat, b: nat, m: nat) { a + n <= b || b + m <= a }

  /** Different blocks of one class, and blocks of classes with no page in common, do not overlap. */
  lemma BlocksApart(own: set<nat>, a: nat, size: nat, own': set<nat>, a': nat, size': nat)
    requires InPageOf(own, a, size) && InPageOf(own', a', size')
    requires own !! own' || (size == size' && a != a')
    ensures Disjoint(a, size, a', size')
  {
    if PageOf(a) != PageOf(a') {
      PagesApart(a, a');
    } else {
      assert PageOf(a) in own && PageOf(a) in own';
      var base := PageOf(a) + HEADER_SIZE;
      MultiplesApart(a - base, a' - base, size);
    }
  }

  lemma PagesApart(a: nat, a': nat)
    requires PageOf(a) != PageOf(a')
    ensures PageOf(a) + PAGE_SIZE <= PageOf(a') || PageOf(a') + PAGE_SIZE <= PageOf(a)
  {
  }

  lemma MultiplesApart(x: nat, y: nat, size: nat)
    requires size > 0 && x % size == 0 && y % size == 0 && x != y
    ensures x + size <= y || y + size <= x
  {
    var i, j := x / size, y / size;
    Exact(x, size);
    Exact(y, size);
    if i < j { NextMultiple(i, j, size); } else { NextMultiple(j, i, size); }
  }

  lemma Exact(x: nat, size: nat)
    requires size > 0 && x % size == 0
    ensures x == (x / size) * size
  {
  }

  lemma NextMultiple(i: nat, j: nat, size: nat)
    requires i < j
    ensures i * size + size <= j * size
  {
    Times(i + 1, j, size);
    assert (i + 1) * size == i * size + size;
  }

  /** Maps that agree off mine agree on a set that mine does not meet. */
  lemma SamePart(hs: map<nat, Hdr>, hs': map<nat, Hdr>, mine: set<nat>, mine': set<nat>, other: set<nat>)
    requires hs - mine == hs' - mine' && other !! mine && other !! mine' && other <= hs.Keys
    ensures other <= hs'.Keys && Part(hs', other) == Part(hs, other)
  {
    forall p | p in other ensures p in hs' && hs'[p] == hs[p] {
      assert p in hs - mine;
    }
  }

  /** Two allocators that share nothing but the page memory. */
  ghost predicate Apart(x: BlockAllocator, y: BlockAllocator)
    reads x, x.lists, y, y.lists
  {
    x != y && x.lists != y.lists && x.lists.links !! y.lists.links && x.own !! y.own
  }

  ghost predicate Works(b: BlockAllocator, pages: PageAllocator, mem: PageMemory)
    reads b, mem, b.lists, b.lists.links
  {
    b.pages == pages && b.mem == mem && b.Valid()
  }

  /** Allocators for consecutive block sizes from 2^minPo2 on. */
  ghost predicate Classes(bas: seq<BlockAllocator>, minPo2: nat) {
    forall i :: 0 <= i < |bas| ==> bas[i].magic == minPo2 + i && bas[i].blockSize == Words.Pow2(minPo2 + i)
  }

  /** An allocator that shares no page with the one whose pages changed still works, and has the same live blocks. */
  lemma OtherWorks(d: BlockAllocator, pages: PageAllocator, mem: PageMemory, tallies: Books, hs: map<nat, Hdr>,
                   mine: set<nat>, mine': set<nat>)
    requires d.pages == pages && d.mem == mem && d.Shaped() && d.own <= hs.Keys && d.own !! mine && d.own !! mine'
    requires hs - mine == mem.headers - mine' && d.Tallies() == tallies
    requires Sound(tallies.(headers := Part(hs, d.own)), d.Signature(), d.blocksPerPage)
    ensures Works(d, pages, mem) && d.Live() == LiveBlocks(Part(hs, d.own), d.blocksPerPage, d.blockSize)
  {
    SamePart(hs, mem.headers, mine, mine', d.own);
    assert d.State() == tallies.(headers := Part(hs, d.own));
  }

  /** Every formatted page carries the magic number of a class. */
  ghost predicate Signed(hs: map<nat, Hdr>, minPo2: nat, maxPo2: nat) {
    forall p :: p in hs ==> SIGNATURE + minPo2 <= hs[p].signature <= SIGNATURE + maxPo2
  }

  lemma StillSigned(hs: map<nat, Hdr>, hs': map<nat, Hdr>, mine: set<nat>, mine': set<nat>, signature: nat,
                    minPo2: nat, maxPo2: nat)
    ensures hs - mine == hs' - mine' ==> hs'.Keys <= hs.Keys + mine'
    requires Signed(hs, minPo2, maxPo2) && hs - mine == hs' - mine'
    requires SIGNATURE + minPo2 <= signature <= SIGNATURE + maxPo2
    requires forall p :: p in mine' ==> p in hs' && hs'[p].signature == signature
    ensures Signed(hs', minPo2, maxPo2)
  {
    forall p | p in hs' ensures p in hs || p in mine' {
      if p !in mine' { assert p in hs' - mine'; }
    }
    forall p | p in hs' ensures SIGNATURE + minPo2 <= hs'[p].signature <= SIGNATURE + maxPo2 {
      if p !in mine' { assert p in hs' - mine'; }
    }
  }

  lemma OwnSignature(b: BlockAllocator)
    requires b.Valid()
    ensures forall p :: p in b.own ==> b.mem.headers[p].signature == b.Signature()
  {
    forall p | p in b.own ensures b.mem.headers[p].signature == b.Signature() {
      assert GoodHeader(b.State(), p, b.Signature(), b.blocksPerPage);
    }
  }

  /** A live block lies in a page of its allocator. */
  lemma LiveInPage(b: BlockAllocator, a: nat)
    requires b.Valid() && a in b.Live()
    ensures InPageOf(b.own, a, b.blockSize)
  {
    Aligned(b.State(), b.Signature(), b.blocksPerPage);
    var p, i := Locate(b.OwnHeaders(), b.blocksPerPage, b.blockSize, a);
    BlockIsInPage(b.own, p, i, b.blockSize);
  }

  lemma BoundOfSizes(k: nat)
    requires SizeAllowed(k)
    ensures k < MAGICS
  {
    BlockSizes(k);
  }

  /** Working allocators, no two of which share anything but the page memory. */
  ghost predicate Independent(all: seq<BlockAllocator>, pages: PageAllocator, mem: PageMemory)
    reads all, mem, ListsOf(all), LinksOf(all)
  {
    && (forall b {:trigger Works(b, pages, mem)} :: b in all ==> Works(b, pages, mem))
    && (forall b, d {:trigger Apart(b, d)} :: b in all && d in all && b != d ==> Apart(b, d))
  }

  ghost function ListsOf(all: seq<BlockAllocator>): set<PageLists>
    reads all
  {
    set b | b in all :: b.lists
  }

  ghost function LinksOf(all: seq<BlockAllocator>): set<CircularLists.Link>
    reads all, ListsOf(all)
  {
    set b, x | b in all && x in b.lists.links :: x
  }

  ghost function PartsOf(all: seq<BlockAllocator>, pages: PageAllocator, mem: PageMemory): (parts: set<object>)
    reads all, ListsOf(all)
  {
    {pages, mem} + (set b | b in all) + ListsOf(all) + LinksOf(all)
  }

  /** A new allocator, apart from those there are. */
  method NewClass(pages: PageAllocator, mem: PageMemory, po2: nat, ghost all: seq<BlockAllocator>)
    returns (b: BlockAllocator)
    requires pages.Valid() && SizeAllowed(po2) && Independent(all, pages, mem)
    ensures b.magic == po2 && b.blockSize == Words.Pow2(po2) && b.own == {} && Independent(all + [b], pages, mem)
    ensures b.freeBlocksCount == 0 && fresh(b) && fresh(b.lists) && fresh(b.lists.links)
  {
    b := new BlockAllocator(pages, mem, po2, po2);
    forall d | d in all ensures Works(d, pages, mem) && Apart(b, d) && Apart(d, b) {
      assert old(Works(d, pages, mem));
    }
    forall x, y | x in all && y in all && x != y ensures Apart(x, y) {
      assert old(Apart(x, y));
    }
  }

  /** One new allocator per class. */
  method NewClasses(pages: PageAllocator, mem: PageMemory, minPo2: nat, count: nat) returns (all: seq<BlockAllocator>)
    requires pages.Valid() && forall k :: minPo2 <= k < minPo2 + count ==> SizeAllowed(k)
    ensures |all| == count && Classes(all, minPo2) && Independent(all, pages, mem)
    ensures forall b :: b in all ==> b.freeBlocksCount == 0 && fresh(b) && fresh(b.lists) && fresh(b.lists.links)
  {
    all := [];
    for n := 0 to count
      invariant |all| == n && Classes(all, minPo2) && Independent(all, pages, mem)
      invariant forall b :: b in all ==> b.freeBlocksCount == 0 && fresh(b) && fresh(b.lists) && fresh(b.lists.links)
    {
      var b := NewClass(pages, mem, minPo2 + n, all);
      all := all + [b];
    }
  }

  /** The page allocator, the page memory and the classes of a new heap. */
  method NewHeap(minPo2: nat, count: nat) returns (pa: PageAllocator, pm: PageMemory, all: seq<BlockAllocator>)
    requires forall k :: minPo2 <= k < minPo2 + count ==> SizeAllowed(k)
    ensures pa.Valid() && pa.live == {} && pa.regions == map[] && pm.headers == map[]
    ensures |all| == count && Classes(all, minPo2) && Independent(all, pa, pm)
    ensures fresh(PartsOf(all, pa, pm)) && forall b :: b in all ==> b.freeBlocksCount == 0
  {
    pa := new PageAllocator();
    pm := new PageMemory();
    all := NewClasses(pa, pm, minPo2, count);
  }

  class SlabAllocator {
    const minPo2: nat
    const maxPo2: nat
    const pages: PageAllocator
    const mem: PageMemory
    const bas: seq<BlockAllocator>   // one per size class

    ghost predicate Valid()
      reads this, bas, pages, mem, ListsOf(bas), LinksOf(bas)
    {
      && minPo2 <= maxPo2 < MAGICS && |bas| == maxPo2 - minPo2 + 1 && Classes(bas, minPo2)
      && pages.Valid() && mem.headers.Keys <= pages.live && Signed(mem.headers, minPo2, maxPo2)
      && Independent(bas, pages, mem)
    }

    /** All that the allocator is made of. */
    ghost function Parts(): set<object>
      reads this, bas, ListsOf(bas)
    {
      PartsOf(bas, pages, mem)
    }

    constructor (minPo2: nat, maxPo2: nat)
      requires minPo2 <= maxPo2 && forall k :: minPo2 <= k <= maxPo2 ==> SizeAllowed(k)
      ensures Valid() && this.minPo2 == minPo2 && this.maxPo2 == maxPo2 && pages.live == {}
      ensures pages.regions == map[]
      ensures fresh(Parts()) && forall b :: b in bas ==> b.freeBlocksCount == 0
    {
      var pa, pm, all := NewHeap(minPo2, maxPo2 - minPo2 + 1);
      this.minPo2, this.maxPo2, pages, mem, bas := minPo2, maxPo2, pa, pm, all;
      BoundOfSizes(maxPo2);
    }

    /** One class allocates, from pages that were its own or nobody's. */
    method AllocOne(b: BlockAllocator, os: nat) returns (ret: nat, faulted: bool)
      requires Works(b, pages, mem) && pages.Valid() && mem.headers.Keys <= pages.live && pages.MayOpen(os)
      modifies b, mem, b.lists, b.lists.links, pages
      ensures faulted <==> old(b.freeBlocksCount) == 0 && old(pages.Misled(os))
      ensures faulted ==> !pages.Valid()
      ensures !faulted ==>
        && Works(b, pages, mem) && b.Foreign() == old(b.Foreign()) && pages.Valid() && mem.headers.Keys <= pages.live
        && fresh(b.lists.links - old(b.lists.links))
        && forall p :: p in b.own ==> p in old(b.own) || p !in old(pages.live)
      ensures !faulted ==>
        && (ret == 0 <==> old(b.freeBlocksCount) == 0 && old(pages.regions) == map[] && os == 0)
        && b.Live() == old(b.Live()) + (if ret == 0 then {} else {ret})
        && (ret != 0 ==> ret !in old(b.Live()) && InPageOf(b.own, ret, b.blockSize))
    {
      ghost var np;
      ret, faulted, np := b.Alloc(os);
    }

    /** One class allocates; the others keep working. */
    method AllocAlone(b: BlockAllocator, os: nat) returns (ret: nat, faulted: bool)
      requires b in bas && pages.Valid() && mem.headers.Keys <= pages.live && pages.MayOpen(os)
      requires forall d {:trigger Works(d, pages, mem)} :: d in bas ==> Works(d, pages, mem)
      requires forall d {:trigger Apart(b, d)} :: d in bas && d != b ==> Apart(b, d)
      modifies b, mem, b.lists, b.lists.links, pages
      ensures faulted <==> old(b.freeBlocksCount) == 0 && old(pages.Misled(os))
      ensures faulted ==> !pages.Valid()
      ensures !faulted ==>
        && b.Foreign() == old(b.Foreign()) && pages.Valid() && mem.headers.Keys <= pages.live
        && (forall d :: d in bas ==> Works(d, pages, mem))
        && fresh(b.lists.links - old(b.lists.links))
        && (forall p :: p in b.own ==> p in old(b.own) || p !in old(pages.live))
        && forall d :: d in bas && d != b ==> d.Live() == old(d.Live())
      ensures !faulted ==>
        && (ret == 0 <==> old(b.freeBlocksCount) == 0 && old(pages.regions) == map[] && os == 0)
        && b.Live() == old(b.Live()) + (if ret == 0 then {} else {ret})
        && (ret != 0 ==> ret !in old(b.Live()) && InPageOf(b.own, ret, b.blockSize))
    {
      assert Works(b, pages, mem);
      ret, faulted := AllocOne(b, os);
      if faulted { return; }
      forall d | d in bas && d != b ensures Works(d, pages, mem) && d.Live() == old(d.Live()) {
        assert old(Works(d, pages, mem)) && old(Apart(b, d));
        OtherWorks(d, pages, mem, old(d.Tallies()), old(mem.headers), old(b.own), b.own);
      }
    }

    method AllocFrom(b: BlockAllocator, os: nat) returns (ret: nat, faulted: bool)
      requires Valid() && b in bas && pages.MayOpen(os)
      modifies b, mem, b.lists, b.lists.links, pages
      ensures faulted <==> old(b.freeBlocksCount) == 0 && old(pages.Misled(os))
      ensures faulted ==> !pages.Valid()
      ensures !faulted ==> Valid() && forall d :: d in bas && d != b ==> d.Live() == old(d.Live())
      ensures !faulted ==>
        && (ret == 0 <==> old(b.freeBlocksCount) == 0 && old(pages.regions) == map[] && os == 0)
        && b.Live() == old(b.Live()) + (if ret == 0 then {} else {ret})
        && (ret != 0 ==> ret !in old(b.Live()) && InPageOf(b.own, ret, b.blockSize))
    {
      ret, faulted := AllocSigned(b, os);
      if faulted { return; }
      forall x, y | x in bas && y in bas && x != y ensures Apart(x, y) {
        assert old(Apart(x, y)) && (x != b ==> old(Apart(b, x))) && (y != b ==> old(Apart(b, y)));
      }
    }

    method AllocSigned(b: BlockAllocator, os: nat) returns (ret: nat, faulted: bool)
      requires b in bas && pages.Valid() && mem.headers.Keys <= pages.live && pages.MayOpen(os)
      requires Signed(mem.headers, minPo2, maxPo2) && minPo2 <= b.magic <= maxPo2
      requires forall d {:trigger Works(d, pages, mem)} :: d in bas ==> Works(d, pages, mem)
      requires forall d {:trigger Apart(b, d)} :: d in bas && d != b ==> Apart(b, d)
      modifies b, mem, b.lists, b.lists.links, pages
      ensures faulted <==> old(b.freeBlocksCount) == 0 && old(pages.Misled(os))
      ensures faulted ==> !pages.Valid()
      ensures !faulted ==>
        && Signed(mem.headers, minPo2, maxPo2) && pages.Valid() && mem.headers.Keys <= pages.live
        && (forall d :: d in bas ==> Works(d, pages, mem))
        && (forall d :: d in bas && d != b ==> Apart(b, d) && Apart(d, b))
        && forall d :: d in bas && d != b ==> d.Live() == old(d.Live())
      ensures !faulted ==>
        && (ret == 0 <==> old(b.freeBlocksCount) == 0 && old(pages.regions) == map[] && os == 0)
        && b.Live() == old(b.Live()) + (if ret == 0 then {} else {ret})
        && (ret != 0 ==> ret !in old(b.Live()) && InPageOf(b.own, ret, b.blockSize))
    {
      ret, faulted := AllocAlone(b, os);
      if faulted { return; }
      assert Works(b, pages, mem);
      OwnSignature(b);
      StillSigned(old(mem.headers), mem.headers, old(b.own), b.own, b.Signature(), minPo2, maxPo2);
      forall d | d in bas && d != b ensures Apart(b, d) && Apart(d, b) {
        assert old(Apart(b, d)) && old(Works(d, pages, mem));
      }
    }

    /** Does a request have a size class? */
    ghost predicate Served(size: nat) { Log(size) != 0 && minPo2 <= Log(size) <= maxPo2 }

    /** No block of the request's class is free, and there is no page to be had from the regions. */
    ghost predicate NeedsRegion(size: nat)
      requires Served(size) && |bas| == maxPo2 - minPo2 + 1
      reads this, bas, pages
    {
      bas[Log(size) - minPo2].freeBlocksCount == 0 && pages.regions == map[]
    }

    /** A block of the request's size class; 0 if there is no such class, or if the class has no free block, no region
        has a free page and the system gives none. If it says so by MAP_FAILED, the allocator faults instead; this is
        the one way to lose the heap. */
    method Alloc(size: nat, os: nat) returns (ret: nat, faulted: bool)
      requires Valid() && pages.MayOpen(os)
      modifies Parts()
      ensures faulted <==> Served(size) && old(NeedsRegion(size)) && os == MAP_FAILED
      ensures Valid() <==> !faulted
      ensures !faulted && !Served(size) ==> ret == 0
      ensures !faulted && Served(size) ==> (ret == 0 <==> old(NeedsRegion(size)) && os == 0)
      ensures !faulted && ret == 0 ==> forall d :: d in bas ==> d.Live() == old(d.Live())
      ensures !faulted && ret != 0 ==>
        && size <= Words.Pow2(Log(size))
        && (var b := bas[Log(size) - minPo2];
            && b.blockSize == Words.Pow2(Log(size)) && InPageOf(b.own, ret, b.blockSize)
            && ret !in old(b.Live()) && b.Live() == old(b.Live()) + {ret}
            && forall d :: d in bas && d != b ==> d.Live() == old(d.Live()))
    {
      var i := Log(size);
      if i == 0 || i < minPo2 || i > maxPo2 { return 0, false; }
      LogIsTightest(size);
      ret, faulted := AllocFrom(bas[i - minPo2], os);
    }

    /** Where the signature of its page sends an address; null if the page carries none of ours. */
    method GetSlab(addr: nat) returns (b: BlockAllocator?)
      requires Valid()
      ensures b == null <==> PageOf(addr) !in mem.headers
      ensures b != null ==> b in bas
      ensures forall d :: d in bas && addr in d.Live() ==> b == d
    {
      var page := PageOf(addr);
      forall d | d in bas && addr in d.Live()
        ensures page in mem.headers && mem.headers[page].signature == SIGNATURE + d.magic
      {
        assert Works(d, pages, mem);
        OwnSignature(d);
        LiveInPage(d, addr);
      }
      if page !in mem.headers { return null; }
      var signature := mem.headers[page].signature;
      if signature - signature % MAGICS != SIGNATURE { return null; }
      var m := signature % MAGICS;
      assert minPo2 <= m <= maxPo2;
      b := bas[m - minPo2];
    }

    /** One class takes a block back; the others keep working. */
    method FreeAlone(b: BlockAllocator, addr: nat)
      requires Valid() && b in bas && addr in b.Live()
      modifies b, mem, b.lists, b.lists.links
      ensures b.Foreign() == old(b.Foreign())
      ensures forall d :: d in bas ==> Works(d, pages, mem)
      ensures b.own == old(b.own) && b.lists.links == old(b.lists.links)
      ensures forall d :: d in bas && d != b ==> d.Live() == old(d.Live())
      ensures b.Live() == old(b.Live()) - {addr}
    {
      assert Works(b, pages, mem);
      b.Free(addr);
      forall d | d in bas && d != b ensures Works(d, pages, mem) && d.Live() == old(d.Live()) {
        assert old(Works(d, pages, mem)) && old(Apart(b, d));
        OtherWorks(d, pages, mem, old(d.Tallies()), old(mem.headers), old(b.own), b.own);
      }
    }

    /** A block belongs to one class only. */
    lemma LiveOnce(b: BlockAllocator, addr: nat)
      requires Valid() && b in bas && addr in b.Live()
      ensures forall d :: d in bas && d != b ==> addr !in d.Live()
    {
      forall d | d in bas && d != b ensures addr !in d.Live() {
        assert Works(b, pages, mem) && Works(d, pages, mem) && Apart(b, d);
        LiveInPage(b, addr);
        if addr in d.Live() { LiveInPage(d, addr); }
      }
    }

    method FreeFrom(b: BlockAllocator, addr: nat)
      requires Valid() && b in bas && addr in b.Live()
      modifies b, mem, b.lists, b.lists.links
      ensures Valid()
      ensures forall d :: d in bas && d != b ==> d.Live() == old(d.Live())
      ensures b.Live() == old(b.Live()) - {addr}
    {
      assert Works(b, pages, mem);
      FreeAlone(b, addr);
      assert Works(b, pages, mem) && b.own <= old(mem.headers.Keys);
      OwnSignature(b);
      StillSigned(old(mem.headers), mem.headers, b.own, b.own, b.Signature(), minPo2, maxPo2);
      forall x, y | x in bas && y in bas && x != y ensures Apart(x, y) {
        assert old(Apart(x, y));
      }
    }

    /** Give back a live block; false for an address in a page that is not ours. */
    method Free(addr: nat) returns (ok: bool)
      requires Valid()
      requires PageOf(addr) in mem.headers ==> exists d :: d in bas && addr in d.Live()
      modifies Parts()
      ensures Valid() && ok == (PageOf(addr) in old(mem.headers))
      ensures forall d :: d in bas ==> d.Live() == old(d.Live()) - {addr}
    {
      var b := GetSlab(addr);
      if b == null {
        forall d | d in bas ensures addr !in d.Live() {
        }
        return false;
      }
      LiveOnce(b, addr);
      FreeFrom(b, addr);
      ok := true;
    }

    /** No two live blocks overlap, whatever their classes. */
    lemma LiveBlocksApart(b: BlockAllocator, x: nat, d: BlockAllocator, y: nat)
      requires Valid() && b in bas && d in bas && x in b.Live() && y in d.Live() && (b != d || x != y)
      ensures Disjoint(x, b.blockSize, y, d.blockSize)
    {
      assert Works(b, pages, mem) && Works(d, pages, mem);
      assert b != d ==> Apart(b, d);
      LiveInPage(b, x);
      LiveInPage(d, y);
      BlocksApart(b.own, x, b.blockSize, d.own, y, d.blockSize);
    }
  }

  lemma SmallBlocks()
    ensures Words.Pow2(3) == 8 && SizeAllowed(3)
  {
    QuotIsDivision(PAGE_SIZE - HEADER_SIZE, 8);
  }

  /** The first request of all, when the system cannot map a region. */
  method NothingMapped() returns (s: SlabAllocator, ret: nat, faulted: bool)
    ensures faulted && !s.Valid()
  {
    SmallBlocks();
    s := new SlabAllocator(3, 3);
    ret, faulted := s.Alloc(8, MAP_FAILED);
  }
}
