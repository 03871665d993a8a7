/** The header of a slab page, and the books a block allocator keeps about its pages. */
module SlabHeaders {
  import opened Bitmaps
  import opened CircularLists
  import opened Sequences
  import opened SlabPages

  const HEADER_SIZE := 128
  const MASK_BITS := 512
  const WORD_BITS := 64
  const SIGNATURE := 0x11AABB00

  /** Magic numbers take the low byte of the signature. */
  const MAGICS := 0x100

  datatype Hdr = Hdr(signature: nat, freeCount: nat, mask: Bits)

  function Fresh(signature: nat, count: nat): Hdr { Hdr(signature, count, Ones(MASK_BITS)) }

  function Take(h: Hdr, b: nat): Hdr
    requires b < |h.mask| && h.freeCount > 0
  {
    h.(mask := h.mask[b := false], freeCount := h.freeCount - 1)
  }

  function Give(h: Hdr, b: nat): Hdr
    requires b < |h.mask|
  {
    h.(mask := h.mask[b := true], freeCount := h.freeCount + 1)
  }

  /** A header for `blocks` blocks: the count agrees with the mask, and the mask bits past the blocks stay set. */
  ghost predicate Formatted(h: Hdr, signature: nat, blocks: nat) {
    && h.signature == signature && |h.mask| == MASK_BITS && blocks < MASK_BITS
    && (forall i :: blocks <= i < MASK_BITS ==> h.mask[i])
    && h.freeCount == CountSet(h.mask[..blocks])
  }

  lemma FreshFormatted(signature: nat, blocks: nat)
    requires blocks < MASK_BITS
    ensures Formatted(Fresh(signature, blocks), signature, blocks)
    ensures forall i :: 0 <= i < blocks ==> Fresh(signature, blocks).mask[i]
  {
    CountAll(Ones(MASK_BITS)[..blocks]);
  }

  lemma TakeFormatted(h: Hdr, signature: nat, blocks: nat, b: nat)
    requires Formatted(h, signature, blocks) && b < blocks && h.mask[b]
    ensures 0 < h.freeCount <= blocks
    ensures Formatted(Take(h, b), signature, blocks)
  {
    var w := h.mask[..blocks];
    CountFlip(w, b);
    assert h.mask[b := false][..blocks] == w[b := false];
  }

  lemma GiveFormatted(h: Hdr, signature: nat, blocks: nat, b: nat)
    requires Formatted(h, signature, blocks) && b < blocks && !h.mask[b]
    ensures h.freeCount < blocks
    ensures Formatted(Give(h, b), signature, blocks)
  {
    var w := h.mask[..blocks];
    CountFlip(w, b);
    CountAll(w);
    assert h.mask[b := true][..blocks] == w[b := true];
  }

  /** The lowest free block. The padding bits never win, because some block is free. */
  method FindFree(h: Hdr, ghost signature: nat, maxBlocks: nat) returns (b: nat)
    requires Formatted(h, signature, maxBlocks) && h.freeCount > 0
    ensures b < maxBlocks && h.mask[b] && forall i :: 0 <= i < b ==> !h.mask[i]
  {
    CountAll(h.mask[..maxBlocks]);
    ghost var f :| 0 <= f < maxBlocks && h.mask[f];
    var c := maxBlocks / WORD_BITS;
    if maxBlocks % WORD_BITS != 0 { c := c + 1; }
    var i := 0;
    while true
      invariant 0 <= i < c && forall j :: 0 <= j < i * WORD_BITS ==> !h.mask[j]
      decreases c - i
    {
      var word := h.mask[i * WORD_BITS..(i + 1) * WORD_BITS];
      var found, index := BitScanForward(word);
      assert forall j :: i * WORD_BITS <= j < (i + 1) * WORD_BITS ==> h.mask[j] == word[j - i * WORD_BITS];
      if found { return index + i * WORD_BITS; }
      i := i + 1;
    }
  }

  // The lists of an allocator, by the number of free blocks in their pages.
  const TOTALLY_FREE := 0
  const FREE := 1
  const BUSY := 2

  function Rank(h: Hdr, blocks: nat): (k: nat)
    ensures k < 3
  {
    if h.freeCount == blocks then TOTALLY_FREE else if h.freeCount == 0 then BUSY else FREE
  }

  /** What a block allocator knows: its page lists, the headers of its pages, and four counters. */
  datatype Books = Books(lists: seq<seq<nat>>, headers: map<nat, Hdr>,
                         freePages: nat, busyPages: nat, freeBlocks: nat, takenBlocks: nat)

  /** Free and taken blocks of the listed pages. */
  ghost function FreeIn(s: seq<nat>, hs: map<nat, Hdr>): nat
    requires forall p :: p in s ==> p in hs
  {
    if s == [] then 0 else hs[s[0]].freeCount + FreeIn(s[1..], hs)
  }

  ghost function TakenIn(s: seq<nat>, hs: map<nat, Hdr>, blocks: nat): int
    requires forall p :: p in s ==> p in hs
  {
    if s == [] then 0 else blocks - hs[s[0]].freeCount + TakenIn(s[1..], hs, blocks)
  }

  /** List k holds exactly the pages of rank k, each once. */
  ghost predicate Listing(b: Books, k: nat, blocks: nat)
    requires k < |b.lists|
  {
    NoRepeats(b.lists[k]) && forall p :: p in b.lists[k] <==> p in b.headers && Rank(b.headers[p], blocks) == k
  }

  /** The three lists hold the pages of the allocator, each page once, in the list its free count says. */
  ghost predicate Partition(b: Books, blocks: nat) {
    && |b.lists| == 3
    && (forall k {:trigger Listing(b, k, blocks)} :: 0 <= k < |b.lists| ==> Listing(b, k, blocks))
    && (forall k, p :: 0 <= k < |b.lists| && p in b.lists[k] ==> p in b.headers)
  }

  lemma Listings(b: Books, blocks: nat)
    requires Partition(b, blocks)
    ensures forall k :: 0 <= k < 3 ==> NoRepeats(b.lists[k])
    ensures forall k, p :: 0 <= k < 3 ==> (p in b.lists[k] <==> p in b.headers && Rank(b.headers[p], blocks) == k)
  {
    assert Listing(b, 0, blocks) && Listing(b, 1, blocks) && Listing(b, 2, blocks);
  }

  /** Free and taken blocks of the first n lists. */
  ghost function FreeTotal(b: Books, n: nat): nat
    requires n <= |b.lists| && forall k, p :: 0 <= k < |b.lists| && p in b.lists[k] ==> p in b.headers
  {
    if n == 0 then 0 else FreeTotal(b, n - 1) + FreeIn(b.lists[n - 1], b.headers)
  }

  ghost function TakenTotal(b: Books, n: nat, blocks: nat): int
    requires n <= |b.lists| && forall k, p :: 0 <= k < |b.lists| && p in b.lists[k] ==> p in b.headers
  {
    if n == 0 then 0 else TakenTotal(b, n - 1, blocks) + TakenIn(b.lists[n - 1], b.headers, blocks)
  }

  ghost predicate Counted(b: Books, blocks: nat)
    requires Partition(b, blocks)
  {
    && b.freePages == |b.lists[TOTALLY_FREE]| + |b.lists[FREE]|
    && b.busyPages == |b.lists[BUSY]|
    && b.freeBlocks == FreeTotal(b, |b.lists|)
    && b.takenBlocks == TakenTotal(b, |b.lists|, blocks)
  }

  lemma Counts(b: Books, blocks: nat)
    requires Partition(b, blocks)
    ensures FreeTotal(b, |b.lists|) ==
      FreeIn(b.lists[0], b.headers) + FreeIn(b.lists[1], b.headers) + FreeIn(b.lists[2], b.headers)
    ensures TakenTotal(b, |b.lists|, blocks) ==
      TakenIn(b.lists[0], b.headers, blocks) + TakenIn(b.lists[1], b.headers, blocks)
      + TakenIn(b.lists[2], b.headers, blocks)
  {
    Listings(b, blocks);
    assert FreeTotal(b, 3) == FreeTotal(b, 2) + FreeIn(b.lists[2], b.headers);
    assert FreeTotal(b, 2) == FreeTotal(b, 1) + FreeIn(b.lists[1], b.headers);
    assert FreeTotal(b, 1) == FreeIn(b.lists[0], b.headers);
    assert TakenTotal(b, 3, blocks) == TakenTotal(b, 2, blocks) + TakenIn(b.lists[2], b.headers, blocks);
    assert TakenTotal(b, 2, blocks) == TakenTotal(b, 1, blocks) + TakenIn(b.lists[1], b.headers, blocks);
    assert TakenTotal(b, 1, blocks) == TakenIn(b.lists[0], b.headers, blocks);
  }

  ghost predicate GoodHeader(b: Books, p: nat, signature: nat, blocks: nat)
    requires p in b.headers
  {
    p > 0 && p % PAGE_SIZE == 0 && Formatted(b.headers[p], signature, blocks)
  }

  ghost predicate Sound(b: Books, signature: nat, blocks: nat) {
    && (forall p {:trigger GoodHeader(b, p, signature, blocks)} :: p in b.headers ==>
      GoodHeader(b, p, signature, blocks))
    && Partition(b, blocks) && Counted(b, blocks)
  }

  lemma NothingYet(signature: nat, blocks: nat)
    ensures Sound(Books([[], [], []], map[], 0, 0, 0, 0), signature, blocks)
  {
    var b := Books([[], [], []], map[], 0, 0, 0, 0);
    forall k | 0 <= k < |b.lists| ensures Listing(b, k, blocks) {
    }
    Counts(b, blocks);
  }

  lemma {:induction false} FrameTotals(s: seq<nat>, hs: map<nat, Hdr>, hs': map<nat, Hdr>, blocks: nat)
    requires forall p :: p in s ==> p in hs && p in hs' && hs'[p] == hs[p]
    ensures FreeIn(s, hs') == FreeIn(s, hs) && TakenIn(s, hs', blocks) == TakenIn(s, hs, blocks)
  {
    if s == [] {
    } else {
      FrameTotals(s[1..], hs, hs', blocks);
    }
  }

  lemma {:induction false} TotalsOfJoin(s: seq<nat>, t: seq<nat>, hs: map<nat, Hdr>, blocks: nat)
    requires forall p :: p in s + t ==> p in hs
    ensures (forall p :: p in s ==> p in hs) && (forall p :: p in t ==> p in hs)
    ensures FreeIn(s + t, hs) == FreeIn(s, hs) + FreeIn(t, hs)
    ensures TakenIn(s + t, hs, blocks) == TakenIn(s, hs, blocks) + TakenIn(t, hs, blocks)
  {
    assert forall p :: p in s || p in t ==> p in s + t;
    if s == [] {
      assert s + t == t;
    } else {
      assert (s + t)[1..] == s[1..] + t;
      TotalsOfJoin(s[1..], t, hs, blocks);
    }
  }

  /** One page's share of the totals. */
  lemma TotalsWithout(s: seq<nat>, k: nat, hs: map<nat, Hdr>, blocks: nat)
    requires k < |s| && forall p :: p in s ==> p in hs
    ensures forall p :: p in Without(s, k) ==> p in hs
    ensures FreeIn(s, hs) == FreeIn(Without(s, k), hs) + hs[s[k]].freeCount
    ensures TakenIn(s, hs, blocks) == TakenIn(Without(s, k), hs, blocks) + blocks - hs[s[k]].freeCount
  {
    assert s == s[..k] + ([s[k]] + s[k + 1..]);
    TotalsOfJoin(s[..k], [s[k]] + s[k + 1..], hs, blocks);
    TotalsOfJoin([s[k]], s[k + 1..], hs, blocks);
    assert [s[k]][1..] == [];
    TotalsOfJoin(s[..k], s[k + 1..], hs, blocks);
  }

  lemma TotalsOfPush(p: nat, s: seq<nat>, hs: map<nat, Hdr>, blocks: nat)
    requires p in hs && forall q :: q in s ==> q in hs
    ensures FreeIn([p] + s, hs) == hs[p].freeCount + FreeIn(s, hs)
    ensures TakenIn([p] + s, hs, blocks) == blocks - hs[p].freeCount + TakenIn(s, hs, blocks)
  {
    assert ([p] + s)[1..] == s;
  }

  /** One page's header replaced: the totals change by the difference of its counts. */
  lemma TotalsOfUpdate(s: seq<nat>, k: nat, hs: map<nat, Hdr>, h: Hdr, blocks: nat)
    requires k < |s| && NoRepeats(s) && forall p :: p in s ==> p in hs
    ensures FreeIn(s, hs[s[k] := h]) == FreeIn(s, hs) + h.freeCount - hs[s[k]].freeCount
    ensures TakenIn(s, hs[s[k] := h], blocks) == TakenIn(s, hs, blocks) - h.freeCount + hs[s[k]].freeCount
  {
    var hs' := hs[s[k] := h];
    TotalsWithout(s, k, hs, blocks);
    TotalsWithout(s, k, hs', blocks);
    FrameTotals(Without(s, k), hs, hs', blocks);
  }

  /** Entry i of list k moved to the head of list j. */
  function Moved(lists: seq<seq<nat>>, k: nat, i: nat, j: nat): (r: seq<seq<nat>>)
    requires |lists| == 3 && k < 3 && j < 3 && k != j && i < |lists[k]|
  {
    lists[k := Without(lists[k], i)][j := [lists[k][i]] + lists[j]]
  }

  lemma MembersOfMove(s: seq<nat>, i: nat)
    requires i < |s| && NoRepeats(s)
    ensures NoRepeats(Without(s, i)) && forall p :: p in Without(s, i) <==> p in s && p != s[i]
  {
    var t := Without(s, i);
    forall p | p in s && p != s[i] ensures p in t {
      var j :| 0 <= j < |s| && s[j] == p;
      assert t[if j < i then j else j - 1] == p;
    }
  }

  /** b with the header of entry i of list k replaced, and the page in the list its new count calls for. */
  ghost predicate Reclassified(b: Books, b': Books, k: nat, i: nat, h: Hdr, blocks: nat) {
    && |b.lists| == 3 && k < 3 && i < |b.lists[k]| && b.lists[k][i] in b.headers
    && b'.headers == b.headers[b.lists[k][i] := h]
    && (var j := Rank(h, blocks);
        && b'.lists == (if j == k then b.lists else Moved(b.lists, k, i, j))
        && b'.freePages == b.freePages - (if k == BUSY then 0 else 1) + (if j == BUSY then 0 else 1)
        && b'.busyPages == b.busyPages - (if k == BUSY then 1 else 0) + (if j == BUSY then 1 else 0))
    && b'.freeBlocks == b.freeBlocks + h.freeCount - b.headers[b.lists[k][i]].freeCount
    && b'.takenBlocks == b.takenBlocks - h.freeCount + b.headers[b.lists[k][i]].freeCount
  }

  lemma PartitionKept(b: Books, b': Books, k: nat, i: nat, h: Hdr, blocks: nat)
    requires Partition(b, blocks) && Reclassified(b, b', k, i, h, blocks)
    ensures Partition(b', blocks)
  {
    Listings(b, blocks);
    MembersOfMove(b.lists[k], i);
    var p, j := b.lists[k][i], Rank(h, blocks);
    forall l, q | 0 <= l < 3 ensures q in b'.lists[l] <==> q in b'.headers && Rank(b'.headers[q], blocks) == l {
      assert q in b.lists[l] <==> q in b.headers && Rank(b.headers[q], blocks) == l;
    }
    if j != k {
      assert p !in b.lists[j];
      assert NoRepeats([p] + b.lists[j]);
    }
    forall l | 0 <= l < |b'.lists| ensures Listing(b', l, blocks) {
    }
  }

  /** What one list contributes to the counters after the replacement. */
  lemma ShareKept(b: Books, b': Books, k: nat, i: nat, h: Hdr, blocks: nat, l: nat)
    requires Partition(b, blocks) && Reclassified(b, b', k, i, h, blocks) && Partition(b', blocks) && l < 3
    ensures var gain, loss := l == Rank(h, blocks), l == k;
      var was := b.headers[b.lists[k][i]].freeCount;
      && |b'.lists[l]| == |b.lists[l]| + (if gain then 1 else 0) - (if loss then 1 else 0)
      && FreeIn(b'.lists[l], b'.headers) ==
         FreeIn(b.lists[l], b.headers) + (if gain then h.freeCount else 0) - (if loss then was else 0)
      && TakenIn(b'.lists[l], b'.headers, blocks) ==
         TakenIn(b.lists[l], b.headers, blocks)
         + (if gain then blocks - h.freeCount else 0) - (if loss then blocks - was else 0)
  {
    Listings(b, blocks);
    Listings(b', blocks);
    var p, j := b.lists[k][i], Rank(h, blocks);
    if l == k {
      TotalsOfUpdate(b.lists[k], i, b.headers, h, blocks);
      if j != k { TotalsWithout(b.lists[k], i, b'.headers, blocks); }
    } else {
      assert p in b.lists[k];
      assert p !in b.lists[l];
      FrameTotals(b.lists[l], b.headers, b'.headers, blocks);
      if j == l { TotalsOfPush(p, b.lists[l], b'.headers, blocks); }
    }
  }

  lemma CountedKept(b: Books, b': Books, k: nat, i: nat, h: Hdr, blocks: nat)
    requires Partition(b, blocks) && Counted(b, blocks) && Reclassified(b, b', k, i, h, blocks) && Partition(b', blocks)
    ensures Counted(b', blocks)
  {
    CountsKept(b, b', k, i, h, blocks);
    ShareKept(b, b', k, i, h, blocks, 0);
    ShareKept(b, b', k, i, h, blocks, 1);
    ShareKept(b, b', k, i, h, blocks, 2);
  }

  /** How the totals over all three lists change. */
  lemma CountsKept(b: Books, b': Books, k: nat, i: nat, h: Hdr, blocks: nat)
    requires Partition(b, blocks) && Reclassified(b, b', k, i, h, blocks) && Partition(b', blocks)
    ensures var was := b.headers[b.lists[k][i]].freeCount;
      && FreeTotal(b', |b'.lists|) == FreeTotal(b, |b.lists|) + h.freeCount - was
      && TakenTotal(b', |b'.lists|, blocks) == TakenTotal(b, |b.lists|, blocks) + was - h.freeCount
  {
    Counts(b, blocks);
    Counts(b', blocks);
    var j, was := Rank(h, blocks), b.headers[b.lists[k][i]].freeCount;
    ShareKept(b, b', k, i, h, blocks, 0);
    ShareKept(b, b', k, i, h, blocks, 1);
    ShareKept(b, b', k, i, h, blocks, 2);
    OneGainOneLoss(FreeIn(b.lists[0], b.headers), FreeIn(b.lists[1], b.headers), FreeIn(b.lists[2], b.headers),
      FreeIn(b'.lists[0], b'.headers), FreeIn(b'.lists[1], b'.headers), FreeIn(b'.lists[2], b'.headers),
      j, k, h.freeCount, was);
    OneGainOneLoss(TakenIn(b.lists[0], b.headers, blocks), TakenIn(b.lists[1], b.headers, blocks),
      TakenIn(b.lists[2], b.headers, blocks), TakenIn(b'.lists[0], b'.headers, blocks),
      TakenIn(b'.lists[1], b'.headers, blocks), TakenIn(b'.lists[2], b'.headers, blocks),
      j, k, blocks - h.freeCount, blocks - was);
  }

  lemma OneGainOneLoss(x0: int, x1: int, x2: int, y0: int, y1: int, y2: int, j: nat, k: nat, gain: int, loss: int)
    requires j < 3 && k < 3
    requires y0 == x0 + (if 0 == j then gain else 0) - (if 0 == k then loss else 0)
    requires y1 == x1 + (if 1 == j then gain else 0) - (if 1 == k then loss else 0)
    requires y2 == x2 + (if 2 == j then gain else 0) - (if 2 == k then loss else 0)
    ensures y0 + y1 + y2 == x0 + x1 + x2 + gain - loss
  {
  }

  lemma SoundKept(b: Books, b': Books, k: nat, i: nat, h: Hdr, signature: nat, blocks: nat)
    requires Sound(b, signature, blocks) && Reclassified(b, b', k, i, h, blocks) && Formatted(h, signature, blocks)
    ensures Sound(b', signature, blocks)
  {
    PartitionKept(b, b', k, i, h, blocks);
    CountedKept(b, b', k, i, h, blocks);
    forall p | p in b'.headers ensures GoodHeader(b', p, signature, blocks) {
      assert GoodHeader(b, p, signature, blocks);
    }
  }

  lemma Unlisted(b: Books, blocks: nat, p: nat)
    requires Partition(b, blocks) && p !in b.headers
    ensures p !in b.lists[0] && p !in b.lists[1] && p !in b.lists[2]
  {
    Listings(b, blocks);
  }

  /** A fresh page at the end of the totally free list. */
  ghost predicate Expanded(b: Books, b': Books, p: nat, signature: nat, blocks: nat) {
    && |b.lists| == 3 && p !in b.headers && p > 0 && p % PAGE_SIZE == 0
    && b'.lists == b.lists[TOTALLY_FREE := b.lists[TOTALLY_FREE] + [p]]
    && b'.headers == b.headers[p := Fresh(signature, blocks)]
    && b'.freePages == b.freePages + 1 && b'.busyPages == b.busyPages
    && b'.freeBlocks == b.freeBlocks + blocks && b'.takenBlocks == b.takenBlocks
  }

  lemma ExpandKeepsPartition(b: Books, b': Books, p: nat, signature: nat, blocks: nat)
    requires Partition(b, blocks) && Expanded(b, b', p, signature, blocks)
    ensures Partition(b', blocks)
  {
    Listings(b, blocks);
    forall l, q | 0 <= l < 3 ensures q in b'.lists[l] <==> q in b'.headers && Rank(b'.headers[q], blocks) == l {
      assert q in b.lists[l] <==> q in b.headers && Rank(b.headers[q], blocks) == l;
    }
    forall l | 0 <= l < |b'.lists| ensures Listing(b', l, blocks) {
    }
  }

  lemma ExpandKeepsSound(b: Books, b': Books, p: nat, signature: nat, blocks: nat)
    requires Sound(b, signature, blocks) && 0 < blocks < MASK_BITS && Expanded(b, b', p, signature, blocks)
    ensures Sound(b', signature, blocks)
  {
    Counts(b, blocks);
    FreshFormatted(signature, blocks);
    ExpandKeepsPartition(b, b', p, signature, blocks);
    Counts(b', blocks);
    ExpandShare(b, b', p, signature, blocks, 0);
    ExpandShare(b, b', p, signature, blocks, 1);
    ExpandShare(b, b', p, signature, blocks, 2);
    forall q | q in b'.headers ensures GoodHeader(b', q, signature, blocks) {
      if q != p { assert GoodHeader(b, q, signature, blocks); }
    }
  }

  lemma ExpandShare(b: Books, b': Books, p: nat, signature: nat, blocks: nat, l: nat)
    requires Partition(b, blocks) && Expanded(b, b', p, signature, blocks) && Partition(b', blocks) && l < 3
    ensures FreeIn(b'.lists[l], b'.headers) == FreeIn(b.lists[l], b.headers) + (if l == 0 then blocks else 0)
    ensures TakenIn(b'.lists[l], b'.headers, blocks) == TakenIn(b.lists[l], b.headers, blocks)
  {
    Listings(b, blocks);
    Listings(b', blocks);
    FrameTotals(b.lists[l], b.headers, b'.headers, blocks);
    if l == 0 {
      TotalsOfJoin(b.lists[0], [p], b'.headers, blocks);
      assert [p][1..] == [];
    }
  }

  /** The last totally free page given up. */
  ghost predicate Shrunk(b: Books, b': Books, blocks: nat) {
    && |b.lists| == 3 && b.lists[TOTALLY_FREE] != []
    && (var s := b.lists[TOTALLY_FREE];
        && b'.lists == b.lists[TOTALLY_FREE := s[..|s| - 1]] && b'.headers == b.headers - {s[|s| - 1]})
    && b'.freePages == b.freePages - 1 && b'.busyPages == b.busyPages
    && b'.freeBlocks == b.freeBlocks - blocks && b'.takenBlocks == b.takenBlocks
  }

  lemma ShrinkKeepsPartition(b: Books, b': Books, blocks: nat)
    requires Partition(b, blocks) && Shrunk(b, b', blocks)
    ensures Partition(b', blocks)
  {
    Listings(b, blocks);
    var s := b.lists[TOTALLY_FREE];
    var n := |s| - 1;
    MembersOfMove(s, n);
    assert s[..n] == Without(s, n);
    assert s[n] in s;
    forall l, q | 0 <= l < 3 ensures q in b'.lists[l] <==> q in b'.headers && Rank(b'.headers[q], blocks) == l {
      assert q in b.lists[l] <==> q in b.headers && Rank(b.headers[q], blocks) == l;
    }
    forall l | 0 <= l < |b'.lists| ensures Listing(b', l, blocks) {
    }
  }

  lemma ShrinkKeepsSound(b: Books, b': Books, signature: nat, blocks: nat)
    requires Sound(b, signature, blocks) && blocks > 0 && Shrunk(b, b', blocks)
    ensures Sound(b', signature, blocks)
  {
    Counts(b, blocks);
    ShrinkKeepsPartition(b, b', blocks);
    Counts(b', blocks);
    ShrinkShare(b, b', blocks, 0);
    ShrinkShare(b, b', blocks, 1);
    ShrinkShare(b, b', blocks, 2);
    forall q | q in b'.headers ensures GoodHeader(b', q, signature, blocks) {
      assert GoodHeader(b, q, signature, blocks);
    }
  }

  lemma ShrinkShare(b: Books, b': Books, blocks: nat, l: nat)
    requires Partition(b, blocks) && Shrunk(b, b', blocks) && Partition(b', blocks) && l < 3
    ensures FreeIn(b'.lists[l], b'.headers) == FreeIn(b.lists[l], b.headers) - (if l == 0 then blocks else 0)
    ensures TakenIn(b'.lists[l], b'.headers, blocks) == TakenIn(b.lists[l], b.headers, blocks)
  {
    Listings(b, blocks);
    Listings(b', blocks);
    FrameTotals(b'.lists[l], b.headers, b'.headers, blocks);
    if l == 0 {
      var s := b.lists[0];
      var n := |s| - 1;
      assert s[..n] == Without(s, n) && s[n] in s;
      TotalsWithout(s, n, b.headers, blocks);
    }
  }

  /** No block is free exactly when the lists of pages with free blocks are empty. */
  lemma {:induction false} FreeExists(s: seq<nat>, hs: map<nat, Hdr>)
    requires forall p :: p in s ==> p in hs
    ensures FreeIn(s, hs) == 0 <==> forall p :: p in s ==> hs[p].freeCount == 0
  {
    if s == [] {
    } else {
      FreeExists(s[1..], hs);
      assert forall p :: p in s <==> p == s[0] || p in s[1..];
    }
  }

  lemma NoFreeBlocks(b: Books, signature: nat, blocks: nat)
    requires Sound(b, signature, blocks) && blocks > 0
    ensures b.freeBlocks == 0 <==> b.lists[TOTALLY_FREE] == [] && b.lists[FREE] == []
  {
    Listings(b, blocks);
    Counts(b, blocks);
    FreeExists(b.lists[0], b.headers);
    FreeExists(b.lists[1], b.headers);
    FreeExists(b.lists[2], b.headers);
    assert b.lists[0] != [] ==> b.lists[0][0] in b.lists[0];
    assert b.lists[1] != [] ==> b.lists[1][0] in b.lists[1];
  }
}
