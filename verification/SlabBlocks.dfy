/** The block allocator: fixed-size blocks carved out of pages. */
module SlabBlocks {
  import opened Bitmaps
  import opened SlabPages
  import opened SlabHeaders
  import opened SlabLists
  import NumberLaws
  import Words

  /** The block sizes the constructor's assertions let through, with their number of blocks per page. */
  lemma BlockSizes(n: nat)
    requires SizeAllowed(n)
    ensures 3 <= n <= 10 && 8 <= Words.Pow2(n) <= 1024
    ensures 3 <= BlocksPerPage(Words.Pow2(n))
  {
    assert Words.Pow2(2) == 4 && Words.Pow2(3) == 8;
    assert Words.Pow2(7) == 16 * Words.Pow2(3) && Words.Pow2(10) == 8 * Words.Pow2(7) && Words.Pow2(11) == 2048;
    if n > 10 { NumberLaws.Pow2Less(11, n); }
    if n > 3 { NumberLaws.Pow2Less(3, n); }
    if n < 10 { NumberLaws.Pow2Less(n, 10); }
    assert n < 3 ==> n == 0 || n == 1 || n == 2;
    QuotIsDivision(PAGE_SIZE - HEADER_SIZE, Words.Pow2(n));
    BlocksAtMost(Words.Pow2(n));
  }

  /** And no others. */
  lemma AllowedSizes(n: nat)
    ensures SizeAllowed(n) <==> 3 <= n <= 10
  {
    if SizeAllowed(n) {
      BlockSizes(n);
    } else if 3 <= n <= 10 {
      assert Words.Pow2(3) == 8 && Words.Pow2(7) == 16 * Words.Pow2(3) && Words.Pow2(10) == 8 * Words.Pow2(7);
      NumberLaws.Pow2Less(3, n);
      NumberLaws.Pow2Less(n, 10);
      QuotIsDivision(PAGE_SIZE - HEADER_SIZE, Words.Pow2(n));
      FewBlocks(Words.Pow2(n));
    }
  }

  lemma FewBlocks(size: nat)
    requires 8 <= size
    ensures (PAGE_SIZE - HEADER_SIZE) / size < MASK_BITS
  {
    var q := (PAGE_SIZE - HEADER_SIZE) / size;
    assert q * size <= PAGE_SIZE - HEADER_SIZE;
    assert q >= MASK_BITS ==> q * size >= MASK_BITS * 8;
  }

  lemma BlocksAtMost(size: nat)
    requires 0 < size <= 1024
    ensures 3 <= (PAGE_SIZE - HEADER_SIZE) / size
  {
    var q := (PAGE_SIZE - HEADER_SIZE) / size;
    assert q * size + (PAGE_SIZE - HEADER_SIZE) % size == PAGE_SIZE - HEADER_SIZE;
    assert q <= 2 ==> q * size <= 2 * size;
  }

  /** Integer division, by repeated subtraction. */
  function Quot(room: nat, size: nat): nat {
    if size == 0 || room < size then 0 else 1 + Quot(room - size, size)
  }

  function BlocksPerPage(size: nat): nat { Quot(PAGE_SIZE - HEADER_SIZE, size) }

  lemma {:induction false} QuotIsDivision(room: nat, size: nat)
    requires size > 0
    ensures Quot(room, size) == room / size
  {
    if room >= size {
      QuotIsDivision(room - size, size);
      OneMore(room, size);
    }
  }

  lemma OneMore(room: nat, size: nat)
    requires 0 < size <= room
    ensures room / size == 1 + (room - size) / size
  {
    var q := (room - size) / size;
    assert room - size == q * size + (room - size) % size;
    assert room == (q + 1) * size + (room - size) % size;
    QuotientOf(room, q + 1, (room - size) % size, size);
  }

  lemma QuotientOf(n: nat, q: nat, r: nat, size: nat)
    requires n == q * size + r && r < size
    ensures n / size == q
  {
    var k := n / size;
    assert n == k * size + n % size;
    if k < q { Times(k + 1, q, size); } else if q < k { Times(q + 1, k, size); }
    assert (k + 1) * size == k * size + size && (q + 1) * size == q * size + size;
  }

  function BlockAt(p: nat, i: nat, size: nat): nat { p + HEADER_SIZE + i * size }

  function PageOf(a: nat): nat { a - a % PAGE_SIZE }

  function IndexOf(a: nat, size: nat): nat
    requires a % PAGE_SIZE >= HEADER_SIZE
  {
    Quot(a % PAGE_SIZE - HEADER_SIZE, size)
  }

  /** A block lies between the header and the end of its page, and its address gives back its page and index. */
  lemma BlockPlace(p: nat, i: nat, size: nat)
    requires p % PAGE_SIZE == 0 && size > 0 && i < BlocksPerPage(size)
    ensures p + HEADER_SIZE <= BlockAt(p, i, size) && BlockAt(p, i, size) + size <= p + PAGE_SIZE
    ensures PageOf(BlockAt(p, i, size)) == p
    ensures BlockAt(p, i, size) % PAGE_SIZE >= HEADER_SIZE && IndexOf(BlockAt(p, i, size), size) == i
  {
    QuotIsDivision(PAGE_SIZE - HEADER_SIZE, size);
    FitsIn(PAGE_SIZE - HEADER_SIZE, i, size);
    InPage(p, HEADER_SIZE + i * size);
    QuotOfMultiple(i, size);
  }

  lemma InPage(p: nat, off: nat)
    requires p % PAGE_SIZE == 0 && off < PAGE_SIZE
    ensures (p + off) % PAGE_SIZE == off
  {
  }

  lemma {:induction false} QuotOfMultiple(i: nat, size: nat)
    requires size > 0
    ensures i * size >= 0 && Quot(i * size, size) == i
  {
    if i == 0 {
    } else {
      QuotOfMultiple(i - 1, size);
      assert i * size == (i - 1) * size + size;
    }
  }

  lemma FitsIn(total: nat, i: nat, size: nat)
    requires size > 0 && i < total / size
    ensures i * size + size <= total
  {
    var q := total / size;
    assert total == q * size + total % size;
    Times(i + 1, q, size);
    assert (i + 1) * size == i * size + size;
  }

  lemma Times(a: nat, b: nat, size: nat)
    requires a <= b
    ensures a * size <= b * size
  {
    assert (b - a) * size >= 0;
  }

  ghost predicate Taken(hs: map<nat, Hdr>, blocks: nat, p: nat, i: nat) {
    p in hs && i < blocks && i < |hs[p].mask| && !hs[p].mask[i]
  }

  ghost predicate Vacant(hs: map<nat, Hdr>, blocks: nat, p: nat, i: nat) {
    p in hs && i < blocks && i < |hs[p].mask| && hs[p].mask[i] && hs[p].freeCount > 0
  }

  /** The blocks handed out: those with a clear mask bit. */
  ghost function LiveBlocks(hs: map<nat, Hdr>, blocks: nat, size: nat): set<nat> {
    set p, i | p in hs && 0 <= i < blocks && Taken(hs, blocks, p, i) :: BlockAt(p, i, size)
  }

  lemma ExpandKeepsLive(hs: map<nat, Hdr>, p: nat, signature: nat, blocks: nat, size: nat)
    requires p !in hs && blocks < MASK_BITS
    ensures LiveBlocks(hs[p := Fresh(signature, blocks)], blocks, size) == LiveBlocks(hs, blocks, size)
  {
    FreshFormatted(signature, blocks);
    var hs' := hs[p := Fresh(signature, blocks)];
    assert forall q, j :: Taken(hs', blocks, q, j) <==> Taken(hs, blocks, q, j);
  }

  ghost predicate PageAligned(hs: map<nat, Hdr>) { forall p :: p in hs ==> p % PAGE_SIZE == 0 }

  /** The block of bit i of page p, and no other, changes between free and live with that bit. */
  lemma LiveAfterTake(hs: map<nat, Hdr>, blocks: nat, size: nat, p: nat, i: nat)
    requires size > 0 && blocks == BlocksPerPage(size) && PageAligned(hs)
    requires Vacant(hs, blocks, p, i)
    ensures BlockAt(p, i, size) !in LiveBlocks(hs, blocks, size)
    ensures LiveBlocks(hs[p := Take(hs[p], i)], blocks, size) == LiveBlocks(hs, blocks, size) + {BlockAt(p, i, size)}
  {
    var hs' := hs[p := Take(hs[p], i)];
    assert Taken(hs', blocks, p, i);
    assert forall q, j :: Taken(hs', blocks, q, j) <==> Taken(hs, blocks, q, j) || (q == p && j == i);
    BlockPlace(p, i, size);
    forall q, j | Taken(hs, blocks, q, j) ensures BlockAt(q, j, size) != BlockAt(p, i, size) {
      BlockPlace(q, j, size);
    }
  }

  lemma LiveAfterGive(hs: map<nat, Hdr>, blocks: nat, size: nat, p: nat, i: nat)
    requires size > 0 && blocks == BlocksPerPage(size) && PageAligned(hs)
    requires Taken(hs, blocks, p, i)
    ensures LiveBlocks(hs[p := Give(hs[p], i)], blocks, size) == LiveBlocks(hs, blocks, size) - {BlockAt(p, i, size)}
  {
    var hs' := hs[p := Give(hs[p], i)];
    assert forall q, j :: Taken(hs', blocks, q, j) <==> Taken(hs, blocks, q, j) && !(q == p && j == i);
    BlockPlace(p, i, size);
    forall q, j | Taken(hs, blocks, q, j) && !(q == p && j == i) ensures BlockAt(q, j, size) != BlockAt(p, i, size) {
      BlockPlace(q, j, size);
    }
  }

  /** a block of the given size that lies inside one of the pages, past its header, and is one of its blocks. */
  ghost predicate InPageOf(own: set<nat>, a: nat, size: nat) {
    && PageOf(a) in own && PageOf(a) + HEADER_SIZE <= a && a + size <= PageOf(a) + PAGE_SIZE
    && size > 0 && (a - PageOf(a) - HEADER_SIZE) % size == 0
  }

  lemma BlockIsInPage(own: set<nat>, p: nat, i: nat, size: nat)
    requires p in own && p % PAGE_SIZE == 0 && size > 0 && i < BlocksPerPage(size)
    ensures InPageOf(own, BlockAt(p, i, size), size) && BlockAt(p, i, size) != 0
  {
    BlockPlace(p, i, size);
    assert BlockAt(p, i, size) - p - HEADER_SIZE == i * size;
    QuotIsDivision(i * size, size);
    QuotOfMultiple(i, size);
    assert i * size == (i * size / size) * size + i * size % size;
  }

  /** A listed page has a header, whose rank is the list it is in. */
  lemma PageListed(b: Books, signature: nat, blocks: nat, k: nat, i: nat)
    requires Sound(b, signature, blocks) && blocks > 0 && k < 3 && i < |b.lists[k]|
    ensures var p := b.lists[k][i];
      p in b.headers && p > 0 && p % PAGE_SIZE == 0 && Formatted(b.headers[p], signature, blocks)
      && Rank(b.headers[p], blocks) == k
      && (k < BUSY ==> b.freePages > 0)
      && (b.headers[p].freeCount > 0 ==> b.freeBlocks > 0)
      && (k == BUSY ==> b.busyPages > 0)
  {
    Listings(b, blocks);
    Counts(b, blocks);
    assert GoodHeader(b, b.lists[k][i], signature, blocks);
    assert b.lists[k][i] in b.lists[k];
    FreeExists(b.lists[k], b.headers);
  }

  lemma Aligned(b: Books, signature: nat, blocks: nat)
    requires Sound(b, signature, blocks)
    ensures PageAligned(b.headers)
  {
    forall p | p in b.headers ensures p % PAGE_SIZE == 0 {
      assert GoodHeader(b, p, signature, blocks);
    }
  }

  lemma TakeSound(b: Books, b': Books, signature: nat, blocks: nat, size: nat, k: nat, fb: nat)
    requires Sound(b, signature, blocks) && size > 0 && blocks == BlocksPerPage(size)
    requires k < 3 && b.lists[k] != [] && Vacant(b.headers, blocks, b.lists[k][0], fb)
    requires Reclassified(b, b', k, 0, Take(b.headers[b.lists[k][0]], fb), blocks)
    ensures var a := BlockAt(b.lists[k][0], fb, size);
      a !in LiveBlocks(b.headers, blocks, size)
      && LiveBlocks(b'.headers, blocks, size) == LiveBlocks(b.headers, blocks, size) + {a}
    ensures Sound(b', signature, blocks)
  {
    Aligned(b, signature, blocks);
    assert GoodHeader(b, b.lists[k][0], signature, blocks);
    var p := b.lists[k][0];
    TakeFormatted(b.headers[p], signature, blocks, fb);
    SoundKept(b, b', k, 0, Take(b.headers[p], fb), signature, blocks);
    LiveAfterTake(b.headers, blocks, size, p, fb);
  }

  /** The list and position of a page. */
  lemma Where(b: Books, blocks: nat, p: nat) returns (k: nat, i: nat)
    requires Partition(b, blocks) && p in b.headers
    ensures k < 3 && i < |b.lists[k]| && b.lists[k][i] == p && k == Rank(b.headers[p], blocks)
  {
    Listings(b, blocks);
    k := Rank(b.headers[p], blocks);
    assert p in b.lists[k];
    i :| i < |b.lists[k]| && b.lists[k][i] == p;
  }

  /** A live block's address gives the page and the bit that issued it. */
  lemma Locate(hs: map<nat, Hdr>, blocks: nat, size: nat, a: nat) returns (p: nat, i: nat)
    requires size > 0 && blocks == BlocksPerPage(size) && PageAligned(hs) && a in LiveBlocks(hs, blocks, size)
    ensures Taken(hs, blocks, p, i) && a == BlockAt(p, i, size)
    ensures a % PAGE_SIZE >= HEADER_SIZE && p == PageOf(a) && i == IndexOf(a, size)
  {
    p, i :| p in hs && 0 <= i < blocks && Taken(hs, blocks, p, i) && a == BlockAt(p, i, size);
    assert p % PAGE_SIZE == 0;
    BlockPlace(p, i, size);
  }

  /** What a live block tells about its header and the counters. */
  lemma LiveBlockFacts(b: Books, signature: nat, blocks: nat, p: nat, index: nat, k: nat, i: nat)
    requires Sound(b, signature, blocks) && blocks > 0 && Taken(b.headers, blocks, p, index)
    requires k < 3 && i < |b.lists[k]| && b.lists[k][i] == p
    ensures Rank(b.headers[p], blocks) == k && b.headers[p].signature == signature
    ensures b.headers[p].freeCount < blocks && b.takenBlocks > 0 && (k == BUSY ==> b.busyPages > 0)
  {
    PageListed(b, signature, blocks, k, i);
    GiveFormatted(b.headers[p], signature, blocks, index);
    TakenCounted(b, signature, blocks, p);
  }

  lemma TakenCounted(b: Books, signature: nat, blocks: nat, p: nat)
    requires Sound(b, signature, blocks) && p in b.headers && b.headers[p].freeCount < blocks
    ensures b.takenBlocks > 0
  {
    Counts(b, blocks);
    forall q | q in b.headers ensures Formatted(b.headers[q], signature, blocks) {
      assert GoodHeader(b, q, signature, blocks);
    }
    var k, i := Where(b, blocks, p);
    TakenPositive(b.lists[0], b.headers, signature, blocks, p);
    TakenPositive(b.lists[1], b.headers, signature, blocks, p);
    TakenPositive(b.lists[2], b.headers, signature, blocks, p);
  }

  lemma {:induction false} TakenPositive(s: seq<nat>, hs: map<nat, Hdr>, signature: nat, blocks: nat, p: nat)
    requires forall q :: q in s ==> q in hs && Formatted(hs[q], signature, blocks)
    requires p in hs && hs[p].freeCount < blocks
    ensures TakenIn(s, hs, blocks) >= if p in s then 1 else 0
  {
    if s == [] {
    } else {
      assert hs[s[0]].freeCount <= blocks;
      TakenPositive(s[1..], hs, signature, blocks, p);
    }
  }

  lemma GiveSound(b: Books, b': Books, signature: nat, blocks: nat, size: nat, k: nat, i: nat, index: nat)
    requires Sound(b, signature, blocks) && size > 0 && blocks == BlocksPerPage(size)
    requires k < 3 && i < |b.lists[k]| && Taken(b.headers, blocks, b.lists[k][i], index)
    requires Reclassified(b, b', k, i, Give(b.headers[b.lists[k][i]], index), blocks)
    ensures var a := BlockAt(b.lists[k][i], index, size);
      LiveBlocks(b'.headers, blocks, size) == LiveBlocks(b.headers, blocks, size) - {a}
    ensures Sound(b', signature, blocks)
  {
    Aligned(b, signature, blocks);
    assert GoodHeader(b, b.lists[k][i], signature, blocks);
    var p := b.lists[k][i];
    GiveFormatted(b.headers[p], signature, blocks, index);
    SoundKept(b, b', k, i, Give(b.headers[p], index), signature, blocks);
    LiveAfterGive(b.headers, blocks, size, p, index);
  }

  /** The blocks of a totally free page are free, and all of them are counted. */
  lemma TotallyFreeBlocks(b: Books, signature: nat, blocks: nat, i: nat)
    requires Sound(b, signature, blocks) && blocks > 0 && i < |b.lists[TOTALLY_FREE]|
    ensures b.freeBlocks >= blocks
    ensures forall j :: !Taken(b.headers, blocks, b.lists[TOTALLY_FREE][i], j)
  {
    Listings(b, blocks);
    Counts(b, blocks);
    assert GoodHeader(b, b.lists[TOTALLY_FREE][i], signature, blocks);
    var s := b.lists[TOTALLY_FREE];
    assert s[i] in s;
    CountAll(b.headers[s[i]].mask[..blocks]);
    TotalsWithout(s, i, b.headers, blocks);
    assert forall j :: 0 <= j < blocks ==> b.headers[s[i]].mask[j] == b.headers[s[i]].mask[..blocks][j];
  }

  lemma ShrinkKeepsLive(hs: map<nat, Hdr>, p: nat, blocks: nat, size: nat)
    requires forall j :: !Taken(hs, blocks, p, j)
    ensures LiveBlocks(hs - {p}, blocks, size) == LiveBlocks(hs, blocks, size)
  {
    assert forall q, j :: Taken(hs - {p}, blocks, q, j) <==> Taken(hs, blocks, q, j);
  }

  lemma ForeignDropped(hs: map<nat, Hdr>, own: set<nat>, p: nat)
    requires p in own
    ensures (hs - {p}) - (own - {p}) == hs - own
  {
  }

  ghost function Part(hs: map<nat, Hdr>, own: set<nat>): map<nat, Hdr> {
    hs - (hs.Keys - own)
  }

  lemma ForeignKept(hs: map<nat, Hdr>, own: set<nat>, p: nat, h: Hdr)
    ensures p in own ==> hs[p := h] - own == hs - own
    ensures p !in hs ==> hs[p := h] - (own + {p}) == hs - own
  {
  }

  function Last(s: seq<nat>): nat
    requires s != []
  {
    s[|s| - 1]
  }

  ghost predicate LowestBlock(h: Hdr, fb: nat) { fb < |h.mask| && h.mask[fb] && forall i :: 0 <= i < fb ==> !h.mask[i] }

  /** a is the lowest free block of the first partly used page, or, if there is none, of the first totally free one. */
  ghost predicate NextBlock(b: Books, size: nat, a: nat) {
    && |b.lists| == 3
    && (var s := if b.lists[FREE] != [] then b.lists[FREE] else b.lists[TOTALLY_FREE];
        s != [] && s[0] in b.headers && exists fb :: LowestBlock(b.headers[s[0]], fb) && a == BlockAt(s[0], fb, size))
  }

  /** The headers at the start of the formatted pages. */
  class PageMemory {
    var headers: map<nat, Hdr>

    constructor ()
      ensures headers == map[]
    {
      headers := map[];
    }
  }

  /** What the constructor of a block allocator asserts. */
  predicate SizeAllowed(k: nat) { Words.Pow2(k) < 2048 && BlocksPerPage(Words.Pow2(k)) < MASK_BITS }

  class BlockAllocator {
    const pages: PageAllocator
    const mem: PageMemory
    const lists: PageLists
    const magic: nat
    const blockSize: nat
    const blocksPerPage: nat

    var freePagesCount: nat
    var busyPagesCount: nat
    var freeBlocksCount: nat
    var allocatedBlocksCount: nat
    ghost var own: set<nat>    // the pages of this allocator

    function Signature(): nat { SIGNATURE + magic }

    ghost function OwnHeaders(): map<nat, Hdr>
      reads this, mem
    {
      Part(mem.headers, own)
    }

    ghost function State(): Books
      requires |lists.rings| == 3
      reads this, mem, lists
    {
      Books(lists.Contents(), OwnHeaders(), freePagesCount, busyPagesCount, freeBlocksCount, allocatedBlocksCount)
    }

    ghost function Live(): set<nat>
      reads this, mem
    {
      LiveBlocks(OwnHeaders(), blocksPerPage, blockSize)
    }

    /** The books without the headers. */
    ghost function Tallies(): Books
      requires |lists.rings| == 3
      reads this, lists
    {
      Books(lists.Contents(), map[], freePagesCount, busyPagesCount, freeBlocksCount, allocatedBlocksCount)
    }

    /** What does not depend on the page memory. */
    ghost predicate Shaped()
      reads this, lists, lists.links
    {
      && 8 <= blockSize <= 1024 && 3 <= blocksPerPage < MASK_BITS && blocksPerPage == BlocksPerPage(blockSize)
      && lists.Valid()
    }

    ghost predicate Valid()
      reads this, mem, lists, lists.links
    {
      && Shaped() && own <= mem.headers.Keys
      && Sound(State(), Signature(), blocksPerPage)
    }

    constructor (pages: PageAllocator, mem: PageMemory, blockSizePo2: nat, magic: nat)
      requires SizeAllowed(blockSizePo2)
      ensures Valid() && own == {} && Live() == {} && fresh(lists) && fresh(lists.links)
      ensures this.pages == pages && this.mem == mem && this.magic == magic && blockSize == Words.Pow2(blockSizePo2)
      ensures freeBlocksCount == 0
    {
      this.pages, this.mem, this.magic := pages, mem, magic;
      blockSize := Words.Pow2(blockSizePo2);
      blocksPerPage := (PAGE_SIZE - HEADER_SIZE) / Words.Pow2(blockSizePo2);
      freePagesCount, busyPagesCount, freeBlocksCount, allocatedBlocksCount := 0, 0, 0, 0;
      lists := new PageLists();
      own := {};
      new;
      BlockSizes(blockSizePo2);
      QuotIsDivision(PAGE_SIZE - HEADER_SIZE, blockSize);
      NothingYet(Signature(), blocksPerPage);
      assert OwnHeaders() == map[];
    }

    /** The headers of the pages of the other allocators. */
    ghost function Foreign(): map<nat, Hdr>
      reads this, mem
    {
      mem.headers - own
    }

    /** p, unless 0, is a page just taken from the page allocator. */
    twostate predicate Grown(p: nat)
      reads this, pages
    {
      if p == 0 then own == old(own) && pages.live == old(pages.live)
      else p !in old(pages.live) && own == old(own) + {p} && pages.live == old(pages.live) + {p}
    }

    /** Nothing but the pages of this allocator is formatted, and the page allocator has handed all of them out. */
    ghost predicate Backed()
      reads this, mem, pages
    {
      pages.Valid() && own <= pages.live && Foreign().Keys <= pages.live
    }

    /** One more page. If the answer of a system that cannot map is taken for a page, its header lies beyond the last
        address, and writing it faults. */
    method Expand(os: nat) returns (newPage: nat, faulted: bool)
      requires Valid() && Backed() && pages.MayOpen(os)
      modifies this, mem, lists, lists.links, pages
      ensures faulted <==> old(pages.Misled(os))
      ensures if faulted then !pages.Valid() else Backed()
      ensures Valid() && fresh(lists.links - old(lists.links)) && Live() == old(Live())
      ensures newPage == 0 <==> old(pages.regions) == map[] && os == 0
      ensures freeBlocksCount == old(freeBlocksCount) + (if newPage == 0 || faulted then 0 else blocksPerPage)
      ensures Foreign() == old(Foreign()) && (!faulted ==> Grown(newPage))
    {
      newPage := pages.AllocPage(os);
      if newPage == 0 { return newPage, false; }
      if newPage == MAP_FAILED { return newPage, true; }
      ghost var b := State();
      Unlisted(b, blocksPerPage, newPage);
      FormatPage(newPage);
      ExpandKeepsSound(b, State(), newPage, Signature(), blocksPerPage);
      ExpandKeepsLive(b.headers, newPage, Signature(), blocksPerPage, blockSize);
      faulted := false;
    }

    /** Write the header of a new page and list it as totally free. */
    method FormatPage(newPage: nat)
      requires lists.Valid() && own <= mem.headers.Keys
      requires newPage > 0 && newPage % PAGE_SIZE == 0 && newPage !in mem.headers
      requires newPage !in State().lists[0] && newPage !in State().lists[1] && newPage !in State().lists[2]
      modifies this, mem, lists, lists.links
      ensures lists.Valid() && fresh(lists.links - old(lists.links)) && own == old(own) + {newPage}
      ensures Foreign() == old(Foreign())
      ensures mem.headers == old(mem.headers)[newPage := Fresh(Signature(), blocksPerPage)]
      ensures Expanded(old(State()), State(), newPage, Signature(), blocksPerPage)
    {
      ForeignKept(mem.headers, own, newPage, Fresh(Signature(), blocksPerPage));
      mem.headers := mem.headers[newPage := Fresh(Signature(), blocksPerPage)];
      lists.Append(newPage);
      own := own + {newPage};
      freePagesCount := freePagesCount + 1;
      freeBlocksCount := freeBlocksCount + blocksPerPage;
      assert OwnHeaders() == old(OwnHeaders())[newPage := Fresh(Signature(), blocksPerPage)];
    }

    method Alloc(os: nat) returns (ret: nat, faulted: bool, ghost newPage: nat)
      requires Valid() && Backed() && pages.MayOpen(os)
      modifies this, mem, lists, lists.links, pages
      ensures faulted <==> old(freeBlocksCount) == 0 && old(pages.Misled(os))
      ensures if faulted then !pages.Valid() else Backed()
      ensures Valid() && fresh(lists.links - old(lists.links)) && Foreign() == old(Foreign())
      ensures faulted ==> Live() == old(Live())
      ensures !faulted ==>
        (ret == 0 <==> old(freeBlocksCount) == 0 && old(pages.regions) == map[] && os == 0)
      ensures !faulted && ret == 0 ==> Live() == old(Live())
      ensures !faulted && ret != 0 ==>
        ret !in old(Live()) && Live() == old(Live()) + {ret} && InPageOf(own, ret, blockSize)
      ensures newPage != 0 ==> old(freeBlocksCount) == 0
      ensures old(freeBlocksCount) > 0 ==> NextBlock(old(State()), blockSize, ret)
      ensures !faulted ==> Grown(newPage)
    {
      newPage, faulted := 0, false;
      if freeBlocksCount == 0 {
        var page;
        page, faulted := Expand(os);
        if faulted || page == 0 { return 0, faulted, 0; }
        newPage := page;
      }
      ret := AllocFree();
    }

    /** A block of the first partly free page, or else of the first totally free one. */
    method AllocFree() returns (ret: nat)
      requires Valid() && freeBlocksCount > 0
      modifies this, mem, lists, lists.links
      ensures Valid() && lists.links == old(lists.links) && own == old(own)
      ensures ret != 0 && ret !in old(Live()) && Live() == old(Live()) + {ret} && InPageOf(own, ret, blockSize)
      ensures Foreign() == old(Foreign()) && NextBlock(old(State()), blockSize, ret)
    {
      NoFreeBlocks(State(), Signature(), blocksPerPage);
      var totally, page := lists.First(false);
      if totally {
        var none;
        none, page := lists.First(true);
        assert !none;
      }
      ret := AllocIn(page, if totally then TOTALLY_FREE else FREE);
    }

    /** Take the lowest free block of the first page of list k. */
    method AllocIn(page: nat, ghost k: nat) returns (ret: nat)
      requires Valid() && k < BUSY && State().lists[k] != [] && State().lists[k][0] == page
      modifies this, mem, lists, lists.links
      ensures Valid() && lists.links == old(lists.links) && own == old(own)
      ensures ret != 0 && ret !in old(Live()) && Live() == old(Live()) + {ret} && InPageOf(own, ret, blockSize)
      ensures Foreign() == old(Foreign()) && page in old(own)
      ensures exists fb :: LowestBlock(old(mem.headers)[page], fb) && ret == BlockAt(page, fb, blockSize)
    {
      var fb := PickBlock(page, k);
      ghost var b := State();
      ret := BlockAt(page, fb, blockSize);
      TakeBlock(page, fb, k);
      TakeSound(b, State(), Signature(), blocksPerPage, blockSize, k, fb);
      BlockIsInPage(own, page, fb, blockSize);
    }

    method PickBlock(page: nat, ghost k: nat) returns (fb: nat)
      requires Valid() && k < BUSY && State().lists[k] != [] && State().lists[k][0] == page
      ensures page in own && page % PAGE_SIZE == 0 && Rank(mem.headers[page], blocksPerPage) == k
      ensures fb < blocksPerPage && LowestBlock(mem.headers[page], fb)
      ensures 0 < mem.headers[page].freeCount <= blocksPerPage && freePagesCount > 0 && freeBlocksCount > 0
    {
      PageListed(State(), Signature(), blocksPerPage, k, 0);
      fb := FindFree(mem.headers[page], Signature(), blocksPerPage);
      TakeFormatted(mem.headers[page], Signature(), blocksPerPage, fb);
    }

    /** Clear the mask bit and move the page to the list its new count calls for. */
    method TakeBlock(page: nat, fb: nat, ghost k: nat)
      requires lists.Valid() && own <= mem.headers.Keys && page in own && blocksPerPage >= 3
      requires k < BUSY && State().lists[k] != [] && State().lists[k][0] == page
      requires Rank(mem.headers[page], blocksPerPage) == k
      requires fb < |mem.headers[page].mask| && 0 < mem.headers[page].freeCount <= blocksPerPage
      requires freePagesCount > 0 && freeBlocksCount > 0
      modifies this, mem, lists, lists.links
      ensures lists.Valid() && lists.links == old(lists.links) && own == old(own)
      ensures Foreign() == old(Foreign())
      ensures mem.headers == old(mem.headers)[page := Take(old(mem.headers)[page], fb)]
      ensures Reclassified(old(State()), State(), k, 0, Take(old(mem.headers)[page], fb), blocksPerPage)
    {
      var h := Take(mem.headers[page], fb);
      ForeignKept(mem.headers, own, page, h);
      mem.headers := mem.headers[page := h];
      assert OwnHeaders() == old(OwnHeaders())[page := h];
      freeBlocksCount := freeBlocksCount - 1;
      RelistTaken(page, h.freeCount, k);
      allocatedBlocksCount := allocatedBlocksCount + 1;
    }

    method RelistTaken(page: nat, freeCount: nat, ghost k: nat)
      requires lists.Valid() && freePagesCount > 0 && blocksPerPage >= 3
      requires k < BUSY && lists.Contents()[k] != [] && lists.Contents()[k][0] == page
      requires k == TOTALLY_FREE <==> freeCount == blocksPerPage - 1
      modifies this`freePagesCount, this`busyPagesCount, lists, lists.links
      ensures lists.Valid() && lists.links == old(lists.links)
      ensures lists.Contents() ==
        if freeCount == 0 then Moved(old(lists.Contents()), k, 0, BUSY)
        else if k == TOTALLY_FREE then Moved(old(lists.Contents()), k, 0, FREE)
        else old(lists.Contents())
      ensures freePagesCount == old(freePagesCount) - (if freeCount == 0 then 1 else 0)
      ensures busyPagesCount == old(busyPagesCount) + (if freeCount == 0 then 1 else 0)
    {
      if freeCount == blocksPerPage - 1 {
        lists.TotallyFreeToFree(page, 0);
      }
      if freeCount == 0 {
        lists.FreeToBusy(page, 0);
        freePagesCount := freePagesCount - 1;
        busyPagesCount := busyPagesCount + 1;
      }
    }

    /** Give back a live block; its address leads to its page and its bit. */
    method Free(a: nat)
      requires Valid() && a in Live()
      modifies this, mem, lists, lists.links
      ensures Valid() && lists.links == old(lists.links) && own == old(own) && Foreign() == old(Foreign())
      ensures Live() == old(Live()) - {a}
    {
      ghost var b := State();
      Aligned(b, Signature(), blocksPerPage);
      ghost var p, bit := Locate(b.headers, blocksPerPage, blockSize, a);
      var page, index := PageOf(a), IndexOf(a, blockSize);
      ghost var k, i := Where(b, blocksPerPage, page);
      LiveBlockFacts(b, Signature(), blocksPerPage, page, index, k, i);
      assert mem.headers[page].signature == SIGNATURE + magic;
      GiveBlock(page, index, k, i);
      GiveSound(b, State(), Signature(), blocksPerPage, blockSize, k, i, index);
    }

    /** Set the mask bit and move the page to the list its new count calls for. */
    method GiveBlock(page: nat, index: nat, ghost k: nat, ghost i: nat)
      requires lists.Valid() && own <= mem.headers.Keys && page in own && blocksPerPage >= 3
      requires k < 3 && i < |State().lists[k]| && State().lists[k][i] == page
      requires Rank(mem.headers[page], blocksPerPage) == k
      requires index < |mem.headers[page].mask| && mem.headers[page].freeCount < blocksPerPage
      requires k == BUSY ==> busyPagesCount > 0
      requires allocatedBlocksCount > 0
      modifies this, mem, lists, lists.links
      ensures lists.Valid() && lists.links == old(lists.links) && own == old(own) && Foreign() == old(Foreign())
      ensures own <= mem.headers.Keys
      ensures Reclassified(old(State()), State(), k, i, Give(old(mem.headers)[page], index), blocksPerPage)
    {
      var h := Give(mem.headers[page], index);
      ForeignKept(mem.headers, own, page, h);
      mem.headers := mem.headers[page := h];
      assert OwnHeaders() == old(OwnHeaders())[page := h];
      freeBlocksCount := freeBlocksCount + 1;
      allocatedBlocksCount := allocatedBlocksCount - 1;
      RelistGiven(page, h.freeCount, k, i);
    }

    method RelistGiven(page: nat, freeCount: nat, ghost k: nat, ghost i: nat)
      requires lists.Valid() && blocksPerPage >= 3 && (k == BUSY ==> busyPagesCount > 0)
      requires 0 < k < 3 && i < |lists.Contents()[k]| && lists.Contents()[k][i] == page
      requires k == BUSY <==> freeCount == 1
      modifies this`freePagesCount, this`busyPagesCount, lists, lists.links
      ensures lists.Valid() && lists.links == old(lists.links)
      ensures lists.Contents() ==
        if freeCount == 1 then Moved(old(lists.Contents()), k, i, FREE)
        else if freeCount == blocksPerPage then Moved(old(lists.Contents()), k, i, TOTALLY_FREE)
        else old(lists.Contents())
      ensures freePagesCount == old(freePagesCount) + (if freeCount == 1 then 1 else 0)
      ensures busyPagesCount == old(busyPagesCount) - (if freeCount == 1 then 1 else 0)
    {
      if freeCount == 1 {
        lists.BusyToFree(page, i);
        freePagesCount := freePagesCount + 1;
        busyPagesCount := busyPagesCount - 1;
      }
      if freeCount == blocksPerPage {
        lists.FreeToTotallyFree(page, i);
      }
    }

    /** Give the last totally free page, if any, back to the page allocator. */
    method Shrink() returns (ghost page: nat)
      requires Valid() && Backed()
      modifies this, mem, lists, lists.links, pages
      ensures Valid() && Backed() && lists.links == old(lists.links) && Live() == old(Live())
      ensures Foreign() == old(Foreign())
      ensures page == 0 <==> old(State()).lists[TOTALLY_FREE] == []
      ensures page == 0 ==> own == old(own) && pages.live == old(pages.live)
      ensures page != 0 ==> page == Last(old(State()).lists[TOTALLY_FREE])
      ensures page != 0 ==> page in old(own) && own == old(own) - {page} && pages.live == old(pages.live) - {page}
    {
      var empty, first := lists.First(true);
      if empty { return 0; }
      var last := Retire();
      var released := pages.FreePage(last);
      page := last;
    }

    method Retire() returns (page: nat)
      requires Valid() && State().lists[TOTALLY_FREE] != []
      modifies this, mem, lists, lists.links
      ensures Valid() && lists.links == old(lists.links) && Live() == old(Live()) && Foreign() == old(Foreign())
      ensures page != 0 && page in old(own) && own == old(own) - {page}
      ensures page == Last(old(State()).lists[TOTALLY_FREE])
    {
      ghost var b := State();
      ghost var i := |b.lists[TOTALLY_FREE]| - 1;
      PageListed(b, Signature(), blocksPerPage, TOTALLY_FREE, i);
      TotallyFreeBlocks(b, Signature(), blocksPerPage, i);
      page := DropPage();
      ShrinkKeepsSound(b, State(), Signature(), blocksPerPage);
      ShrinkKeepsLive(b.headers, page, blocksPerPage, blockSize);
    }

    method DropPage() returns (page: nat)
      requires lists.Valid() && own <= mem.headers.Keys && State().lists[TOTALLY_FREE] != []
      requires var s := State().lists[TOTALLY_FREE]; s[|s| - 1] in own
      requires freePagesCount > 0 && freeBlocksCount >= blocksPerPage
      modifies this, mem, lists, lists.links
      ensures lists.Valid() && lists.links == old(lists.links) && Foreign() == old(Foreign()) && own <= mem.headers.Keys
      ensures page == Last(old(State()).lists[TOTALLY_FREE])
      ensures own == old(own) - {page}
      ensures Shrunk(old(State()), State(), blocksPerPage)
    {
      page := lists.DropTail();
      ForeignDropped(mem.headers, own, page);
      mem.headers := mem.headers - {page};
      own := own - {page};
      assert OwnHeaders() == old(OwnHeaders()) - {page};
      freePagesCount := freePagesCount - 1;
      freeBlocksCount := freeBlocksCount - blocksPerPage;
    }
  }
}
