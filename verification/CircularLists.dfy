/** Intrusive circular doubly linked lists with a head entry. */
module CircularLists {
  /** A list entry; page is the address of the record it is embedded in (0 for a list head). */
  class Link {
    var next: Link
    var prev: Link
    const page: nat

    constructor (page: nat)
      ensures Ring(this, []) && this.page == page
    {
      next, prev := this, this;
      this.page := page;
    }
  }

  /** The entries met from the head back to itself, head at both ends. */
  ghost function Round(head: Link, s: seq<Link>): seq<Link> { [head] + s + [head] }

  /** Following next from the head visits s in order and returns; prev is the reverse. */
  ghost predicate Ring(head: Link, s: seq<Link>)
    reads head, s
  {
    var r := Round(head, s);
    && (forall i, j :: 0 <= i < j <= |s| ==> r[i] != r[j])
    && (forall i {:trigger r[i].next} :: 0 <= i <= |s| ==> r[i].next == r[i + 1])
    && (forall i {:trigger r[i].prev} :: 0 < i <= |s| + 1 ==> r[i].prev == r[i - 1])
  }

  method InsertHead(head: Link, entry: Link, ghost s: seq<Link>)
    requires Ring(head, s) && entry !in [head] + s
    modifies head, entry, s
    ensures Ring(head, [entry] + s)
  {
    ghost var r, r' := Round(head, s), Round(head, [entry] + s);
    assert r[0].next == r[1] && forall i :: 1 < i <= |s| + 2 ==> r'[i] == r[i - 1];
    var next := head.next;
    entry.next := next;
    entry.prev := head;
    next.prev := entry;
    head.next := entry;
  }

  method InsertTail(head: Link, entry: Link, ghost s: seq<Link>)
    requires Ring(head, s) && entry !in [head] + s
    modifies head, entry, s
    ensures Ring(head, s + [entry])
  {
    ghost var r, r' := Round(head, s), Round(head, s + [entry]);
    assert r[|s| + 1].prev == r[|s|] && forall i :: 0 <= i <= |s| ==> r'[i] == r[i];
    var prev := head.prev;
    entry.next := head;
    entry.prev := prev;
    prev.next := entry;
    head.prev := entry;
  }

  method RemoveEntry(entry: Link, ghost head: Link, ghost s: seq<Link>, ghost k: nat)
    requires Ring(head, s) && k < |s| && s[k] == entry
    modifies head, s
    ensures Ring(head, Without(s, k))
  {
    ghost var r, r' := Round(head, s), Round(head, Without(s, k));
    assert entry == r[k + 1] && r[k + 1].next == r[k + 2] && r[k + 1].prev == r[k];
    assert forall i :: 0 <= i <= |s| ==> r'[i] == if i <= k then r[i] else r[i + 1];
    var next := entry.next;
    var prev := entry.prev;
    prev.next := next;
    next.prev := prev;
    forall i, j | 0 <= i < j <= |s| - 1 ensures r'[i] != r'[j] {
      assert r[if i <= k then i else i + 1] != r[if j <= k then j else j + 1];
    }
    forall i | 0 <= i <= |s| - 1 ensures r'[i].next == r'[i + 1] {
      if i < k { assert r[i] != r[k]; } else if i > k { assert r[i + 1] != r[k]; }
    }
    forall i | 0 < i <= |s| ensures r'[i].prev == r'[i - 1] {
      if i <= k {
        assert r[0] != r[i] && (k + 2 <= |s| ==> r[i] != r[k + 2]);
        assert r[i].prev == r[i - 1];
      } else if k + 1 < i {
        assert r[k + 2] != if i < |s| then r[i + 1] else r[0];
        assert r[i + 1].prev == r[i];
      }
    }
  }

  method RemoveTail(head: Link, ghost s: seq<Link>) returns (entry: Link)
    requires Ring(head, s) && s != []
    modifies head, s
    ensures entry == s[|s| - 1] && Ring(head, s[..|s| - 1])
  {
    ghost var r, r' := Round(head, s), Round(head, s[..|s| - 1]);
    assert r[|s| + 1].prev == r[|s|] && r[|s|].prev == r[|s| - 1];
    assert forall i :: 0 <= i <= |s| - 1 ==> r'[i] == r[i];
    entry := head.prev;
    var prev := entry.prev;
    head.prev := prev;
    prev.next := head;
  }

  method IsEmpty(head: Link, ghost s: seq<Link>) returns (empty: bool)
    requires Ring(head, s)
    ensures empty == (s == [])
    ensures !empty ==> head.next == s[0]
  {
    ghost var r := Round(head, s);
    assert r[0].next == r[1];
    empty := head.next == head;
  }

  function Without<T>(s: seq<T>, k: nat): (t: seq<T>)
    requires k < |s|
    ensures |t| == |s| - 1
    ensures forall i :: 0 <= i < |t| ==> t[i] == if i < k then s[i] else s[i + 1]
  {
    s[..k] + s[k + 1..]
  }
}
