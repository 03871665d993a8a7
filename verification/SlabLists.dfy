/** The three page lists of a block allocator, on circular links embedded in the page headers. */
module SlabLists {
  import opened CircularLists
  import opened SlabHeaders

  function PagesOf(s: seq<Link>): (r: seq<nat>)
    ensures |r| == |s| && forall i :: 0 <= i < |s| ==> r[i] == s[i].page
  {
    seq(|s|, i requires 0 <= i < |s| => s[i].page)
  }

  ghost predicate Separate(h: Link, s: seq<Link>, g: Link, t: seq<Link>) {
    h != g && h !in t && g !in s && forall x :: x in s ==> x !in t
  }

  ghost predicate Registered(s: seq<Link>, entries: map<nat, Link>) {
    forall x :: x in s ==> x.page > 0 && x.page in entries && entries[x.page] == x
  }

  /** Three rings with no entry in common. */
  ghost predicate ThreeRings(h: Link, s: seq<Link>, g: Link, t: seq<Link>, f: Link, u: seq<Link>)
    reads h, s, g, t, f, u
  {
    && Ring(h, s) && Ring(g, t) && Ring(f, u)
    && Separate(h, s, g, t) && Separate(h, s, f, u) && Separate(g, t, f, u)
  }

  /** list_remove_entry from one list, then list_insert_head into another. */
  method Relink(entry: Link, ghost h: Link, ghost s: seq<Link>, ghost i: nat, g: Link, ghost t: seq<Link>,
                ghost f: Link, ghost u: seq<Link>)
    requires ThreeRings(h, s, g, t, f, u) && i < |s| && s[i] == entry
    modifies h, s, g, t
    ensures ThreeRings(h, Without(s, i), g, [entry] + t, f, u)
  {
    SeparateAfterMove(h, s, i, g, t, f, u);
    Detach(entry, h, s, i, g, t, f, u);
    Attach(entry, g, t, h, Without(s, i), f, u);
  }

  method Detach(entry: Link, ghost h: Link, ghost s: seq<Link>, ghost i: nat, ghost g: Link, ghost t: seq<Link>,
                ghost f: Link, ghost u: seq<Link>)
    requires ThreeRings(h, s, g, t, f, u) && i < |s| && s[i] == entry
    modifies h, s
    ensures Ring(h, Without(s, i)) && Ring(g, t) && Ring(f, u)
  {
    RoundAvoids(h, s, g, t);
    RoundAvoids(h, s, f, u);
    RemoveEntry(entry, h, s, i);
  }

  method Attach(entry: Link, g: Link, ghost t: seq<Link>, ghost h: Link, ghost s: seq<Link>, ghost f: Link,
                ghost u: seq<Link>)
    requires Ring(g, t) && Ring(h, s) && Ring(f, u) && entry !in [g] + t
    requires Separate(h, s, g, [entry] + t) && Separate(g, [entry] + t, f, u)
    modifies g, entry, t
    ensures Ring(g, [entry] + t) && Ring(h, s) && Ring(f, u)
  {
    assert forall x :: x in t ==> x in [entry] + t;
    assert entry in [entry] + t;
    RoundAvoids(g, [entry] + t, h, s);
    RoundAvoids(g, [entry] + t, f, u);
    InsertHead(g, entry, t);
  }

  method AttachTail(entry: Link, h: Link, ghost s: seq<Link>, ghost g: Link, ghost t: seq<Link>, ghost f: Link,
                    ghost u: seq<Link>)
    requires ThreeRings(h, s, g, t, f, u) && entry !in [h] + s && entry !in [g] + t && entry !in [f] + u
    modifies h, entry, s
    ensures ThreeRings(h, s + [entry], g, t, f, u)
  {
    assert entry != h && entry != g && entry != f;
    RoundAvoids(h, s, g, t);
    RoundAvoids(h, s, f, u);
    InsertTail(h, entry, s);
  }

  lemma RoundAvoids(h: Link, s: seq<Link>, g: Link, t: seq<Link>)
    requires Separate(h, s, g, t) || Separate(g, t, h, s)
    ensures forall i :: 0 <= i <= |t| + 1 ==> Round(g, t)[i] != h && Round(g, t)[i] !in s
  {
  }

  lemma SeparateAfterMove(h: Link, s: seq<Link>, i: nat, g: Link, t: seq<Link>, f: Link, u: seq<Link>)
    requires ThreeRings(h, s, g, t, f, u) && i < |s|
    ensures s[i] in s && s[i] != h && s[i] !in Without(s, i)
    ensures Separate(h, Without(s, i), g, [s[i]] + t)
    ensures Separate(h, Without(s, i), f, u)
    ensures Separate(g, [s[i]] + t, f, u)
  {
    var r := Round(h, s);
    assert r[i + 1] == s[i] && r[0] != r[i + 1];
    forall j | 0 <= j < |s| - 1 ensures Without(s, i)[j] != s[i] && Without(s, i)[j] in s {
      assert r[if j < i then j + 1 else j + 2] == Without(s, i)[j];
    }
  }

  lemma PagesOfMove(s: seq<Link>, i: nat, t: seq<Link>)
    requires i < |s|
    ensures PagesOf(Without(s, i)) == Without(PagesOf(s), i)
    ensures PagesOf([s[i]] + t) == [PagesOf(s)[i]] + PagesOf(t)
    ensures s[i] in s && forall x :: x in Without(s, i) ==> x in s
  {
  }

  class PageLists {
    const totallyFree: Link
    const free: Link
    const busy: Link
    var entries: map<nat, Link>   // the link stored in each page header
    ghost var rings: seq<seq<Link>>
    ghost var links: set<Link>

    ghost predicate Valid()
      reads this, links
    {
      && |rings| == 3
      && totallyFree in links && free in links && busy in links
      && (forall x :: x in rings[0] ==> x in links)
      && (forall x :: x in rings[1] ==> x in links)
      && (forall x :: x in rings[2] ==> x in links)
      && ThreeRings(totallyFree, rings[0], free, rings[1], busy, rings[2])
      && Registered(rings[0], entries) && Registered(rings[1], entries) && Registered(rings[2], entries)
    }

    ghost function Contents(): (r: seq<seq<nat>>)
      requires |rings| == 3
      reads this
    {
      [PagesOf(rings[0]), PagesOf(rings[1]), PagesOf(rings[2])]
    }

    constructor ()
      ensures Valid() && fresh(links) && Contents() == [[], [], []]
    {
      totallyFree := new Link(0);
      free := new Link(0);
      busy := new Link(0);
      entries, rings := map[], [[], [], []];
      new;
      links := {totallyFree, free, busy};
    }

    /** The record at this address becomes the last totally free page. */
    method Append(page: nat)
      requires Valid() && page > 0 && page !in Contents()[0] && page !in Contents()[1] && page !in Contents()[2]
      modifies this, links
      ensures Valid() && fresh(links - old(links))
      ensures Contents() == old(Contents())[TOTALLY_FREE := old(Contents())[TOTALLY_FREE] + [page]]
    {
      var entry := new Link(page);
      NotListed(rings[0], page);
      NotListed(rings[1], page);
      NotListed(rings[2], page);
      ghost var s := rings[0];
      assert PagesOf(s + [entry]) == PagesOf(s) + [page];
      entries := entries[page := entry];
      links := links + {entry};
      AttachTail(entry, totallyFree, s, free, rings[1], busy, rings[2]);
      rings := rings[0 := s + [entry]];
    }

    lemma NotListed(s: seq<Link>, page: nat)
      requires page !in PagesOf(s)
      ensures forall x :: x in s ==> x.page != page
    {
      forall x | x in s ensures x.page != page {
        var i :| 0 <= i < |s| && s[i] == x;
        assert PagesOf(s)[i] == x.page;
      }
    }

    method DropTail() returns (page: nat)
      requires Valid() && Contents()[TOTALLY_FREE] != []
      modifies this, links
      ensures Valid() && links == old(links)
      ensures var s := old(Contents())[TOTALLY_FREE];
        page == s[|s| - 1] && Contents() == old(Contents())[TOTALLY_FREE := s[..|s| - 1]]
    {
      ghost var s := rings[0];
      assert PagesOf(s[..|s| - 1]) == PagesOf(s)[..|s| - 1];
      RoundAvoids(totallyFree, s, free, rings[1]);
      RoundAvoids(totallyFree, s, busy, rings[2]);
      var entry := RemoveTail(totallyFree, s);
      page := entry.page;
      rings := rings[0 := s[..|s| - 1]];
    }

    /** The first page of a list, if any. */
    method First(totally: bool) returns (empty: bool, page: nat)
      requires Valid()
      ensures var s := Contents()[if totally then TOTALLY_FREE else FREE];
        empty == (s == []) && (!empty ==> page == s[0])
    {
      page := 0;
      if totally {
        empty := IsEmpty(totallyFree, rings[0]);
        if !empty { page := totallyFree.next.page; }
      } else {
        empty := IsEmpty(free, rings[1]);
        if !empty { page := free.next.page; }
      }
    }

    method TotallyFreeToFree(page: nat, ghost i: nat)
      requires Valid() && i < |Contents()[TOTALLY_FREE]| && Contents()[TOTALLY_FREE][i] == page
      modifies this, links
      ensures Valid() && links == old(links) && Contents() == Moved(old(Contents()), TOTALLY_FREE, i, FREE)
    {
      ghost var s, t, u := rings[0], rings[1], rings[2];
      PagesOfMove(s, i, t);
      var entry := entries[page];
      Relink(entry, totallyFree, s, i, free, t, busy, u);
      rings := rings[0 := Without(s, i)][1 := [entry] + t];
    }

    method FreeToBusy(page: nat, ghost i: nat)
      requires Valid() && i < |Contents()[FREE]| && Contents()[FREE][i] == page
      modifies this, links
      ensures Valid() && links == old(links) && Contents() == Moved(old(Contents()), FREE, i, BUSY)
    {
      ghost var s, t, u := rings[1], rings[2], rings[0];
      PagesOfMove(s, i, t);
      var entry := entries[page];
      Relink(entry, free, s, i, busy, t, totallyFree, u);
      rings := rings[1 := Without(s, i)][2 := [entry] + t];
    }

    method BusyToFree(page: nat, ghost i: nat)
      requires Valid() && i < |Contents()[BUSY]| && Contents()[BUSY][i] == page
      modifies this, links
      ensures Valid() && links == old(links) && Contents() == Moved(old(Contents()), BUSY, i, FREE)
    {
      ghost var s, t, u := rings[2], rings[1], rings[0];
      PagesOfMove(s, i, t);
      var entry := entries[page];
      Relink(entry, busy, s, i, free, t, totallyFree, u);
      rings := rings[2 := Without(s, i)][1 := [entry] + t];
    }

    method FreeToTotallyFree(page: nat, ghost i: nat)
      requires Valid() && i < |Contents()[FREE]| && Contents()[FREE][i] == page
      modifies this, links
      ensures Valid() && links == old(links) && Contents() == Moved(old(Contents()), FREE, i, TOTALLY_FREE)
    {
      ghost var s, t, u := rings[1], rings[0], rings[2];
      PagesOfMove(s, i, t);
      var entry := entries[page];
      Relink(entry, free, s, i, totallyFree, t, busy, u);
      rings := rings[1 := Without(s, i)][0 := [entry] + t];
    }
  }
}
