/** The page allocator: 256 KB regions from the system, each split into 64 pages tracked by a bitmap. */
module SlabPages {
  import opened Options
  import opened Bitmaps

  const PAGE_SIZE := 0x1000
  const REGION_SIZE := 256 * 1024
  const REGION_PAGES := 64

  /** What mmap answers when it cannot map: the last address, not 0. */
  const MAP_FAILED := 0xffff_ffff_ffff_ffff

  /** Two regions that do not overlap. */
  predicate Clear(r: nat, q: nat) { r + REGION_SIZE <= q || q + REGION_SIZE <= r }

  predicate Contains(r: nat, p: nat) { r <= p < r + REGION_SIZE }

  function PageAt(r: nat, i: nat): nat { r + i * PAGE_SIZE }

  lemma PageIndex(r: nat, i: nat)
    requires i < REGION_PAGES
    ensures Contains(r, PageAt(r, i)) && (PageAt(r, i) - r) / PAGE_SIZE == i
  {
  }

  class PageAllocator {
    var regions: map<nat, Bits>  // regions with free and live pages; a set bit is a free page
    var busyRegions: set<nat>    // regions all of whose pages are live
    ghost var live: set<nat>     // pages handed out

    ghost predicate Valid()
      reads this
    {
      && GoodMaps(regions, busyRegions)
      && (forall p :: p in live <==> LiveIn(regions, busyRegions, p))
    }

    ghost function Held(): set<nat>
      reads this
    {
      regions.Keys + busyRegions
    }

    constructor ()
      ensures Valid() && live == {} && regions == map[]
    {
      regions, busyRegions, live := map[], {}, {};
    }

    /** os is the answer of the system when asked for a region: one that it maps, or MAP_FAILED, or 0, the answer of
        Windows when it has none left. */
    ghost predicate MayOpen(os: nat)
      reads this
    {
      os != 0 && os != MAP_FAILED ==> os % PAGE_SIZE == 0 && forall r :: r in Held() ==> Clear(os, r)
    }

    /** No region has a free page, and the system cannot map one: the answer is taken for a region. */
    ghost predicate Misled(os: nat)
      reads this
    {
      regions == map[] && os == MAP_FAILED
    }

    method AllocPage(os: nat) returns (page: nat)
      requires Valid() && MayOpen(os)
      modifies this
      ensures Valid() <==> !old(Misled(os))
      ensures page == MAP_FAILED <==> old(Misled(os))
      ensures page == MAP_FAILED ==> MAP_FAILED in regions
      ensures page == 0 <==> old(regions) == map[] && os == 0
      ensures page == 0 ==> live == old(live) && Held() == old(Held())
      ensures page !in {0, MAP_FAILED} ==> page !in old(live) && live == old(live) + {page} && page % PAGE_SIZE == 0
      ensures old(regions) != map[] ==> Held() == old(Held()) && LowestPage(old(regions), page)
      ensures page !in {0, MAP_FAILED} ==>
        exists r :: r in Held() && Contains(r, page) && (r in old(Held()) || r == os)
    {
      if regions == map[] {
        if os != 0 { OpenRegion(os); }
        return os;
      }
      Least(regions.Keys);
      var r :| r in regions && forall q :: q in regions ==> r <= q;
      CountAll(regions[r]);
      var found, index := BitScanForward(regions[r]);
      LowestIn(regions, busyRegions, r, index);
      TakePage(r, index);
      page := PageAt(r, index);
    }

    /** A new region, with its first page handed out. */
    method OpenRegion(os: nat)
      requires Valid() && regions == map[] && os > 0 && MayOpen(os)
      modifies this
      ensures Valid() <==> os != MAP_FAILED
      ensures Held() == old(Held()) + {os} && Contains(os, os) && os in regions
      ensures os != MAP_FAILED ==> os !in old(live) && live == old(live) + {os}
    {
      var w := Ones(REGION_PAGES)[0 := false];
      regions := map[os := w];
      assert os in regions.Keys + busyRegions;
      if os != MAP_FAILED {
        assert !Clear(os, os);
        NotLive(map[], busyRegions, os, 0);
        CountFlip(Ones(REGION_PAGES), 0);
        CountAll(Ones(REGION_PAGES));
        LiveGrows(old(regions), busyRegions, regions, busyRegions, os, 0);
        live := live + {os};
      }
    }

    /** Hand out a free page of region r; a region without free pages becomes busy. */
    method TakePage(r: nat, index: nat)
      requires Valid() && r in regions && index < REGION_PAGES && regions[r][index]
      modifies this
      ensures Valid() && Held() == old(Held())
      ensures var page := PageAt(r, index);
        page !in old(live) && live == old(live) + {page} && page > 0 && page % PAGE_SIZE == 0 && Contains(r, page)
    {
      PageIndex(r, index);
      var w := regions[r][index := false];
      if AnySet(w) {
        regions := regions[r := w];
      } else {
        busyRegions := busyRegions + {r};
        regions := regions - {r};
      }
      TakenLive(old(regions), old(busyRegions), regions, busyRegions, live, r, index);
      live := live + {PageAt(r, index)};
    }

    /** Take back a live page. A region none of whose pages is live goes back to the system. */
    method FreePage(page: nat) returns (released: Option<nat>)
      requires Valid() && page in live
      modifies this
      ensures Valid() && live == old(live) - {page}
      ensures released.None? ==> Held() == old(Held())
      ensures released.Some? ==>
        && released.value in old(Held()) && Held() == old(Held()) - {released.value}
        && forall i :: 0 <= i < REGION_PAGES ==> PageAt(released.value, i) !in live
    {
      ghost var r0, i0 :| LiveAt(regions, busyRegions, r0, i0) && page == PageAt(r0, i0);
      PageIndex(r0, i0);
      assert r0 in regions.Keys + busyRegions && Contains(r0, page);
      var r :| r in regions.Keys + busyRegions && Contains(r, page);
      assert r in Held() && r0 in Held() && !(Contains(r, page) && Contains(r0, page) && Clear(r, r0));
      var index: nat := (page - r) / PAGE_SIZE;
      LiveOnce(regions, busyRegions, r, index);
      if r in busyRegions {
        ReopenRegion(r, index);
        return None;
      }
      released := ReturnPage(r, index);
    }

    /** A partly used region with one more page freed. */
    method ReturnPage(r: nat, index: nat) returns (released: Option<nat>)
      requires Valid() && r in regions && index < REGION_PAGES && !regions[r][index]
      requires forall q: nat, j: nat :: LiveAt(regions, busyRegions, q, j) && PageAt(q, j) == PageAt(r, index) ==>
        q == r && j == index
      modifies this
      ensures Valid() && live == old(live) - {PageAt(r, index)}
      ensures released.None? ==> Held() == old(Held())
      ensures released.Some? ==>
        && released.value in old(Held()) && Held() == old(Held()) - {released.value}
        && forall i :: 0 <= i < REGION_PAGES ==> PageAt(released.value, i) !in live
    {
      assert r in Held();
      var w := regions[r][index := true];
      if CountSet(w) < REGION_PAGES {
        regions := regions[r := w];
        released := None;
      } else {
        regions := regions - {r};
        released := Some(r);
        NoneLiveIn(regions, busyRegions, r);
      }
      GiveLive(old(regions), busyRegions, regions, r, index);
      LiveShrinks(old(regions), busyRegions, regions, busyRegions, r, index);
      live := live - {PageAt(r, index)};
    }

    /** A busy region with one page freed. */
    method ReopenRegion(r: nat, index: nat)
      requires Valid() && r in busyRegions && index < REGION_PAGES
      requires forall q: nat, j: nat :: LiveAt(regions, busyRegions, q, j) && PageAt(q, j) == PageAt(r, index) ==>
        q == r && j == index
      modifies this
      ensures Valid() && Held() == old(Held()) && live == old(live) - {PageAt(r, index)}
    {
      busyRegions := busyRegions - {r};
      var w := OneAt(REGION_PAGES, index);
      regions := regions[r := w];
      CountOne(REGION_PAGES, index);
      assert Held() == old(Held());
      LiveShrinks(old(regions), old(busyRegions), regions, busyRegions, r, index);
      live := live - {PageAt(r, index)};
    }

    /** Does the address lie in one of our regions? */
    method BelongsToUs(addr: nat) returns (inreg: bool)
      requires Valid()
      ensures inreg <==> exists r :: r in Held() && Contains(r, addr)
    {
      var todo := regions.Keys + busyRegions;
      while todo != {}
        invariant todo <= Held()
        invariant forall r :: r in Held() - todo ==> !Contains(r, addr)
        decreases todo
      {
        var r :| r in todo;
        if Contains(r, addr) { return true; }
        todo := todo - {r};
      }
      return false;
    }
  }

  /** Regions do not overlap; those with a bitmap are neither full nor empty. */
  ghost predicate GoodMaps(rs: map<nat, Bits>, bs: set<nat>) {
    && (forall r :: r in rs ==> |rs[r]| == REGION_PAGES && 0 < CountSet(rs[r]) < REGION_PAGES && r !in bs)
    && (forall r, q :: r in rs.Keys + bs && q in rs.Keys + bs && r != q ==> Clear(r, q))
    && (forall r :: r in rs.Keys + bs ==> r > 0 && r % PAGE_SIZE == 0)
  }

  /** p is a free page, and no free page has a lower address. */
  ghost predicate LowestPage(rs: map<nat, Bits>, p: nat) {
    && (exists r, i :: FreeAt(rs, r, i) && p == PageAt(r, i))
    && forall r, i :: FreeAt(rs, r, i) ==> p <= PageAt(r, i)
  }

  ghost predicate FreeAt(rs: map<nat, Bits>, r: nat, i: nat) { r in rs && i < REGION_PAGES && i < |rs[r]| && rs[r][i] }

  lemma LowestIn(rs: map<nat, Bits>, bs: set<nat>, r: nat, i: nat)
    requires GoodMaps(rs, bs) && FreeAt(rs, r, i) && (forall q :: q in rs ==> r <= q)
    requires forall j :: 0 <= j < i ==> !rs[r][j]
    ensures LowestPage(rs, PageAt(r, i))
  {
    forall q: nat, j: nat | FreeAt(rs, q, j) ensures PageAt(r, i) <= PageAt(q, j) {
      if q != r { assert r in rs.Keys + bs && q in rs.Keys + bs && Clear(r, q); }
    }
  }

  /** p is a page that the bitmaps say is live. */
  ghost predicate LiveIn(regions: map<nat, Bits>, busy: set<nat>, p: nat) {
    exists r, i :: LiveAt(regions, busy, r, i) && p == PageAt(r, i)
  }

  ghost predicate LiveAt(regions: map<nat, Bits>, busy: set<nat>, r: nat, i: nat) {
    i < REGION_PAGES && (r in busy || (r in regions && i < |regions[r]| && !regions[r][i]))
  }

  lemma LiveGrows(rs: map<nat, Bits>, bs: set<nat>, rs': map<nat, Bits>, bs': set<nat>, r: nat, i: nat)
    requires forall q: nat, j: nat :: LiveAt(rs', bs', q, j) <==> LiveAt(rs, bs, q, j) || (q == r && j == i)
    ensures forall p :: LiveIn(rs', bs', p) <==> LiveIn(rs, bs, p) || p == PageAt(r, i)
  {
    assert LiveAt(rs', bs', r, i);
  }

  lemma LiveShrinks(rs: map<nat, Bits>, bs: set<nat>, rs': map<nat, Bits>, bs': set<nat>, r: nat, i: nat)
    requires forall q: nat, j: nat :: LiveAt(rs', bs', q, j) <==> LiveAt(rs, bs, q, j) && !(q == r && j == i)
    requires LiveAt(rs, bs, r, i)
    requires forall q: nat, j: nat :: LiveAt(rs, bs, q, j) && PageAt(q, j) == PageAt(r, i) ==> q == r && j == i
    ensures forall p :: LiveIn(rs', bs', p) <==> LiveIn(rs, bs, p) && p != PageAt(r, i)
  {
  }

  lemma NotLive(rs: map<nat, Bits>, bs: set<nat>, r: nat, i: nat)
    requires i < REGION_PAGES && !LiveAt(rs, bs, r, i)
    requires forall q :: q in rs.Keys + bs && q != r ==> Clear(r, q)
    ensures !LiveIn(rs, bs, PageAt(r, i))
  {
    forall q: nat, j: nat | LiveAt(rs, bs, q, j) ensures PageAt(q, j) != PageAt(r, i) {
      if PageAt(q, j) == PageAt(r, i) { OnePlace(r, i, q, j); }
    }
  }

  lemma TakeLive(rs: map<nat, Bits>, bs: set<nat>, rs': map<nat, Bits>, bs': set<nat>, r: nat, i: nat)
    requires GoodMaps(rs, bs) && r in rs && i < REGION_PAGES && rs[r][i]
    requires var w := rs[r][i := false];
      if AnySet(w) then rs' == rs[r := w] && bs' == bs else rs' == rs - {r} && bs' == bs + {r}
    ensures GoodMaps(rs', bs') && rs'.Keys + bs' == rs.Keys + bs
    ensures forall q: nat, j: nat :: LiveAt(rs', bs', q, j) <==> LiveAt(rs, bs, q, j) || (q == r && j == i)
  {
    var w := rs[r][i := false];
    CountFlip(rs[r], i);
    CountAll(w);
    assert rs'.Keys + bs' == rs.Keys + bs;
    forall q: nat, j: nat ensures LiveAt(rs', bs', q, j) <==> LiveAt(rs, bs, q, j) || (q == r && j == i) {
      if q == r && j < REGION_PAGES && j != i { assert w[j] == rs[r][j]; }
    }
  }

  lemma AlignedPage(r: nat, i: nat)
    requires r % PAGE_SIZE == 0
    ensures PageAt(r, i) % PAGE_SIZE == 0
  {
  }

  /** The pages handed out, with one more. */
  lemma TakenLive(rs: map<nat, Bits>, bs: set<nat>, rs': map<nat, Bits>, bs': set<nat>, live: set<nat>, r: nat, i: nat)
    requires GoodMaps(rs, bs) && r in rs && i < REGION_PAGES && rs[r][i]
    requires var w := rs[r][i := false];
      if AnySet(w) then rs' == rs[r := w] && bs' == bs else rs' == rs - {r} && bs' == bs + {r}
    requires forall p :: p in live <==> LiveIn(rs, bs, p)
    ensures GoodMaps(rs', bs') && rs'.Keys + bs' == rs.Keys + bs && PageAt(r, i) !in live
    ensures PageAt(r, i) > 0 && PageAt(r, i) % PAGE_SIZE == 0
    ensures forall p :: p in live + {PageAt(r, i)} <==> LiveIn(rs', bs', p)
  {
    assert r in rs.Keys + bs;
    AlignedPage(r, i);
    NotLive(rs, bs, r, i);
    TakeLive(rs, bs, rs', bs', r, i);
    LiveGrows(rs, bs, rs', bs', r, i);
  }

  lemma GiveLive(rs: map<nat, Bits>, bs: set<nat>, rs': map<nat, Bits>, r: nat, i: nat)
    requires GoodMaps(rs, bs) && r in rs && i < REGION_PAGES && !rs[r][i]
    requires var w := rs[r][i := true];
      if CountSet(w) < REGION_PAGES then rs' == rs[r := w] else rs' == rs - {r}
    ensures GoodMaps(rs', bs)
    ensures rs'.Keys + bs == if CountSet(rs[r][i := true]) < REGION_PAGES then rs.Keys + bs else rs.Keys + bs - {r}
    ensures forall q: nat, j: nat :: LiveAt(rs', bs, q, j) <==> LiveAt(rs, bs, q, j) && !(q == r && j == i)
  {
    var w := rs[r][i := true];
    CountFlip(rs[r], i);
    CountAll(w);
    assert CountSet(w) < REGION_PAGES ==> rs'.Keys == rs.Keys;
    assert CountSet(w) == REGION_PAGES ==> rs'.Keys + bs == rs.Keys + bs - {r};
    forall q: nat, j: nat ensures LiveAt(rs', bs, q, j) <==> LiveAt(rs, bs, q, j) && !(q == r && j == i) {
      if q == r && j < REGION_PAGES && j != i { assert w[j] == rs[r][j]; }
    }
  }

  lemma LiveOnce(rs: map<nat, Bits>, bs: set<nat>, r: nat, i: nat)
    requires r in rs.Keys + bs && i < REGION_PAGES
    requires forall q, q' :: q in rs.Keys + bs && q' in rs.Keys + bs && q != q' ==> Clear(q, q')
    ensures forall q: nat, j: nat :: LiveAt(rs, bs, q, j) && PageAt(q, j) == PageAt(r, i) ==> q == r && j == i
  {
    forall q: nat, j: nat | LiveAt(rs, bs, q, j) && PageAt(q, j) == PageAt(r, i) ensures q == r && j == i {
      OnePlace(r, i, q, j);
    }
  }

  lemma NoneLiveIn(rs: map<nat, Bits>, bs: set<nat>, r: nat)
    requires r !in rs && r !in bs && forall q :: q in rs.Keys + bs ==> Clear(r, q)
    ensures forall i: nat :: i < REGION_PAGES ==> !LiveIn(rs, bs, PageAt(r, i))
  {
    forall i: nat | i < REGION_PAGES ensures !LiveIn(rs, bs, PageAt(r, i)) {
      NotLive(rs, bs, r, i);
    }
  }

  lemma CountOne(n: nat, i: nat)
    requires i < n
    ensures CountSet(OneAt(n, i)) == 1
  {
    var z := OneAt(n, i)[i := false];
    CountAll(z);
    CountFlip(z, i);
    assert z[i := true] == OneAt(n, i);
  }

  lemma {:induction false} Least(s: set<nat>)
    requires s != {}
    ensures exists r :: r in s && forall q :: q in s ==> r <= q
  {
    var x :| x in s;
    var rest := s - {x};
    if rest != {} {
      Least(rest);
      var r :| r in rest && forall q :: q in rest ==> r <= q;
      LeastOf(s, x, r);
    } else {
      assert s == {x};
    }
  }

  lemma LeastOf(s: set<nat>, x: nat, r: nat)
    requires x in s && r in s && forall q :: q in s - {x} ==> r <= q
    ensures exists m :: m in s && forall q :: q in s ==> m <= q
  {
    var m := if x < r then x else r;
    forall q | q in s ensures m <= q {
      if q != x { assert q in s - {x}; }
    }
  }

  /** A page belongs to one region, at one index. */
  lemma OnePlace(r: nat, i: nat, q: nat, j: nat)
    requires i < REGION_PAGES && j < REGION_PAGES && PageAt(r, i) == PageAt(q, j) && (r != q ==> Clear(r, q))
    ensures r == q && i == j
  {
  }
}
