/** Several memory caches, one per registered range, searched from the largest range down. */
module MemoryCachePool {
  import opened MemoryCache
  import opened Options

  datatype Range = Range(start: nat, size: nat)

  predicate In(r: Range, a: nat) { r.start <= a < r.start + r.size }

  ghost predicate Disjoint(r: Range, q: Range) { forall a :: !(In(r, a) && In(q, a)) }

  /** The first range that contains an address, |rs| if none does. */
  function First(rs: seq<Range>, a: nat): (i: nat)
    ensures i <= |rs| && (i < |rs| ==> In(rs[i], a)) && forall j :: 0 <= j < i ==> !In(rs[j], a)
  {
    if rs == [] || In(rs[0], a) then 0 else 1 + First(rs[1..], a)
  }

  /** Before the first smaller range. */
  function Position(rs: seq<Range>, size: nat): (i: nat)
    ensures i <= |rs| && (i < |rs| ==> rs[i].size < size) && forall j :: 0 <= j < i ==> rs[j].size >= size
  {
    if rs == [] || size > rs[0].size then 0 else 1 + Position(rs[1..], size)
  }

  function Inserted<T>(s: seq<T>, i: nat, x: T): (t: seq<T>)
    requires i <= |s|
    ensures |t| == |s| + 1 && t[i] == x
  {
    s[..i] + [x] + s[i..]
  }

  lemma InsertedAt<T>(s: seq<T>, i: nat, x: T)
    requires i <= |s|
    ensures forall j :: 0 <= j <= |s| ==> Inserted(s, i, x)[j] == if j < i then s[j] else if j == i then x else s[j - 1]
    ensures forall j :: 0 <= j < |s| ==> Inserted(s, i, x)[if j < i then j else j + 1] == s[j]
  {
    var t := Inserted(s, i, x);
    assert t[..i] == s[..i] && t[i + 1..] == s[i..];
    forall j | 0 <= j <= |s| ensures t[j] == if j < i then s[j] else if j == i then x else s[j - 1] {
      if j > i { assert t[j] == t[i + 1..][j - i - 1]; }
    }
  }

  predicate Sorted(rs: seq<Range>) { forall i, j :: 0 <= i < j < |rs| ==> rs[i].size >= rs[j].size }

  /** No address of r is in one of the ranges. */
  ghost predicate Clear(rs: seq<Range>, r: Range) {
    forall a: nat {:trigger First(rs, a)} :: In(r, a) ==> First(rs, a) == |rs|
  }

  lemma StaysSorted(rs: seq<Range>, r: Range)
    requires Sorted(rs)
    ensures Sorted(Inserted(rs, Position(rs, r.size), r))
  {
    InsertedAt(rs, Position(rs, r.size), r);
  }

  /** Registering ranges in the order given. */
  function Registered(order: seq<Range>): (rs: seq<Range>)
    ensures Sorted(rs) && forall r :: r in rs <==> r in order
  {
    if order == [] then []
    else
      var before := Registered(order[..|order| - 1]);
      var r := order[|order| - 1];
      StaysSorted(before, r);
      var rs := Inserted(before, Position(before, r.size), r);
      InsertedMembers(before, Position(before, r.size), r);
      rs
  }

  lemma InsertedMembers<T>(s: seq<T>, i: nat, x: T)
    requires i <= |s|
    ensures forall y :: y in Inserted(s, i, x) <==> y in s || y == x
  {
    InsertedAt(s, i, x);
    var t := Inserted(s, i, x);
    forall y | y in s ensures y in t {
      var j :| 0 <= j < |s| && s[j] == y;
      assert t[if j < i then j else j + 1] == y;
    }
  }

  /** The range an address is looked up in. */
  function Lookup(rs: seq<Range>, a: nat): Range
  {
    var i := First(rs, a);
    if i < |rs| then rs[i] else Range(0, 0)
  }

  /** r is one of the ranges, it contains the address, and none that does is larger. */
  ghost predicate Largest(rs: seq<Range>, a: nat, r: Range) {
    r in rs && In(r, a) && forall q :: q in rs && In(q, a) ==> q.size <= r.size
  }

  lemma LookupLargest(order: seq<Range>, a: nat)
    requires exists r :: r in order && In(r, a)
    ensures Largest(order, a, Lookup(Registered(order), a))
  {
    var rs := Registered(order);
    var i := First(rs, a);
    var r :| r in order && In(r, a);
    assert r in rs;
    forall q | q in order && In(q, a) ensures q.size <= rs[i].size {
      assert q in rs;
      var j :| 0 <= j < |rs| && rs[j] == q;
      assert i <= j;
    }
  }

  /** r is in the list, and all those before it are larger. */
  ghost predicate LeadsAt(rs: seq<Range>, r: Range, k: nat) {
    k < |rs| && rs[k] == r && forall j :: 0 <= j < k ==> rs[j].size > r.size
  }

  /** It stays ahead when another range is registered. */
  lemma LeadsAfter(rs: seq<Range>, r: Range, k: nat, x: Range) returns (l: nat)
    requires LeadsAt(rs, r, k)
    ensures LeadsAt(Inserted(rs, Position(rs, x.size), x), r, l)
  {
    InsertedAt(rs, Position(rs, x.size), x);
    l := if x.size > r.size then k + 1 else k;
  }

  /** Registered first, a range stays ahead of all others that are not larger. */
  lemma {:induction false} RegisteredFirst(r: Range, rest: seq<Range>) returns (k: nat)
    ensures LeadsAt(Registered([r] + rest), r, k)
  {
    if rest == [] {
      assert [r] + rest == [r] && [r][..0] == [];
      k := 0;
    } else {
      var last := |rest| - 1;
      var before := [r] + rest[..last];
      k := RegisteredFirst(r, rest[..last]);
      k := LeadsAfter(Registered(before), r, k, rest[last]);
      assert ([r] + rest)[..last + 1] == before && ([r] + rest)[last + 1] == rest[last];
    }
  }

  lemma FirstLeads(rs: seq<Range>, a: nat, r: Range, k: nat)
    requires LeadsAt(rs, r, k) && Largest(rs, a, r)
    ensures Lookup(rs, a) == r
  {
    FirstIs(rs, a, k);
  }

  /** An order in which r comes first. */
  lemma Fronted(rs: seq<Range>, r: Range) returns (rest: seq<Range>)
    requires r in rs
    ensures multiset([r] + rest) == multiset(rs)
  {
    var i :| 0 <= i < |rs| && rs[i] == r;
    rest := rs[..i] + rs[i + 1..];
    assert rs == rs[..i] + [rs[i]] + rs[i + 1..];
  }

  /** A largest range is what some order of registration looks the address up in. */
  lemma SomeOrderFinds(rs: seq<Range>, a: nat, r: Range) returns (order: seq<Range>)
    requires Largest(rs, a, r)
    ensures multiset(order) == multiset(rs) && Lookup(Registered(order), a) == r
  {
    var rest := Fronted(rs, r);
    order := [r] + rest;
    SameMembers(order, rs);
    var k := RegisteredFirst(r, rest);
    FirstLeads(Registered(order), a, r, k);
  }

  lemma SameMembers(s: seq<Range>, t: seq<Range>)
    requires multiset(s) == multiset(t)
    ensures forall r :: r in s <==> r in t
  {
    assert forall r :: r in s <==> r in multiset(s);
    assert forall r :: r in t <==> r in multiset(t);
  }

  /** Every order of registering the same ranges finds the same range for an address. */
  ghost predicate OrderIrrelevant(rs: seq<Range>, a: nat) {
    forall one, two {:trigger Registered(one), Registered(two)} ::
      multiset(one) == multiset(rs) && multiset(two) == multiset(rs) ==>
        Lookup(Registered(one), a) == Lookup(Registered(two), a)
  }

  /** That is so exactly if two different ranges are not both the largest that contain the address. */
  lemma OrderIrrelevantIff(rs: seq<Range>, a: nat)
    ensures OrderIrrelevant(rs, a) <==> forall r, q :: Largest(rs, a, r) && Largest(rs, a, q) ==> r == q
  {
    if OrderIrrelevant(rs, a) {
      forall r, q | Largest(rs, a, r) && Largest(rs, a, q) ensures r == q {
        var one := SomeOrderFinds(rs, a, r);
        var two := SomeOrderFinds(rs, a, q);
      }
    }
    if forall r, q :: Largest(rs, a, r) && Largest(rs, a, q) ==> r == q {
      forall one, two | multiset(one) == multiset(rs) && multiset(two) == multiset(rs)
        ensures Lookup(Registered(one), a) == Lookup(Registered(two), a)
      {
        SameMembers(one, rs);
        SameMembers(two, rs);
        OneLargest(rs, one, two, a);
      }
    }
  }

  lemma OneLargest(rs: seq<Range>, one: seq<Range>, two: seq<Range>, a: nat)
    requires forall r :: (r in one <==> r in rs) && (r in two <==> r in rs)
    requires forall r, q :: Largest(rs, a, r) && Largest(rs, a, q) ==> r == q
    ensures Lookup(Registered(one), a) == Lookup(Registered(two), a)
  {
    if exists r :: r in rs && In(r, a) {
      LookupLargest(one, a);
      LookupLargest(two, a);
      assert Largest(rs, a, Lookup(Registered(one), a)) && Largest(rs, a, Lookup(Registered(two), a));
    } else {
      assert First(Registered(one), a) == |Registered(one)| && First(Registered(two), a) == |Registered(two)|;
    }
  }

  /** Disjoint ranges satisfy it, and so do overlapping ones of different sizes. */
  lemma DistinguishedIsEnough(rs: seq<Range>, a: nat)
    requires forall r, q :: r in rs && q in rs && r != q ==> Disjoint(r, q) || r.size != q.size
    ensures OrderIrrelevant(rs, a)
  {
    OrderIrrelevantIff(rs, a);
    forall r, q | Largest(rs, a, r) && Largest(rs, a, q) ensures r == q {
      assert r != q && Disjoint(r, q) ==> !(In(r, a) && In(q, a));
    }
  }

  /** Two overlapping ranges of one size do not: the one registered first wins. */
  lemma OverlapsDependOnOrder(x: Range, y: Range, a: nat)
    requires x.size == y.size && In(x, a) && In(y, a)
    ensures Lookup(Registered([x, y]), a) == x && Lookup(Registered([y, x]), a) == y
    ensures x != y ==> !OrderIrrelevant([x, y], a)
  {
    var k := RegisteredFirst(x, [y]);
    var l := RegisteredFirst(y, [x]);
    assert [x] + [y] == [x, y] && [y] + [x] == [y, x];
    FirstLeads(Registered([x, y]), a, x, k);
    FirstLeads(Registered([y, x]), a, y, l);
    OrderIrrelevantIff([x, y], a);
    assert Largest([x, y], a, x) && Largest([x, y], a, y);
  }

  lemma {:induction false} FirstIs(rs: seq<Range>, a: nat, i: nat)
    requires i <= |rs| && (i < |rs| ==> In(rs[i], a)) && forall j :: 0 <= j < i ==> !In(rs[j], a)
    ensures First(rs, a) == i
  {
    if rs != [] && !In(rs[0], a) {
      assert i > 0 && forall j :: 0 <= j < i - 1 ==> rs[1..][j] == rs[j + 1];
      FirstIs(rs[1..], a, i - 1);
    }
  }

  lemma {:induction false} FirstInserted(rs: seq<Range>, i: nat, r: Range, a: nat)
    requires i <= |rs| && (In(r, a) ==> First(rs, a) == |rs|)
    ensures var f, g := First(rs, a), First(Inserted(rs, i, r), a);
      if In(r, a) then g == i else g == if f < i then f else f + 1
    decreases i
  {
    if i == 0 {
      assert Inserted(rs, 0, r)[1..] == rs;
    } else {
      assert Inserted(rs, i, r)[0] == rs[0];
      assert Inserted(rs, i, r)[1..] == Inserted(rs[1..], i - 1, r);
      if !In(rs[0], a) { FirstInserted(rs[1..], i - 1, r, a); }
    }
  }

  /** An object: the cache its address is looked up in, and its number there. */
  datatype Place = Place(cache: nat, number: nat)

  function Locate(rs: seq<Range>, a: nat): (p: Option<Place>)
    ensures p.Some? ==> p.value.cache < |rs|
  {
    var i := First(rs, a);
    if i < |rs| then Some(Place(i, ObjectNumber(a - rs[i].start))) else None
  }

  function Shifted(p: Option<Place>, i: nat): Option<Place> {
    if p.Some? && p.value.cache >= i then Some(Place(p.value.cache + 1, p.value.number)) else p
  }

  /** Inserting a range that meets no other one moves no address to another object. */
  lemma LocateInserted(rs: seq<Range>, i: nat, r: Range, a: nat)
    requires i <= |rs| && Clear(rs, r)
    ensures In(r, a) ==>
      && Locate(Inserted(rs, i, r), a) == Some(Place(i, ObjectNumber(a - r.start)))
      && Locate(rs, a) == None
    ensures !In(r, a) ==> Locate(Inserted(rs, i, r), a) == Shifted(Locate(rs, a), i)
  {
    assert In(r, a) ==> First(rs, a) == |rs|;
    FirstInserted(rs, i, r, a);
    var f := First(rs, a);
    assert f < |rs| ==> Inserted(rs, i, r)[if f < i then f else f + 1] == rs[f];
  }

  /** Two caches with no table in common. */
  ghost predicate Apart(c: Cache, d: Cache)
    reads c, d
  {
    c != d && c.level1 != d.level1 && c.seconds !! d.seconds && c.thirds !! d.thirds
  }

  function RangeOf(c: Cache): Range { Range(c.start, c.size) }

  function RangesOf(cs: seq<Cache>): (r: seq<Range>)
    ensures |r| == |cs| && forall i :: 0 <= i < |r| ==> r[i] == RangeOf(cs[i])
  {
    seq(|cs|, i requires 0 <= i < |cs| => RangeOf(cs[i]))
  }

  lemma RangesOfInserted(cs: seq<Cache>, i: nat, c: Cache)
    requires i <= |cs|
    ensures RangesOf(Inserted(cs, i, c)) == Inserted(RangesOf(cs), i, RangeOf(c))
  {
    InsertedAt(cs, i, c);
    InsertedAt(RangesOf(cs), i, RangeOf(c));
    var t := Inserted(cs, i, c);
    forall j | 0 <= j < |t| ensures RangesOf(t)[j] == Inserted(RangesOf(cs), i, RangeOf(c))[j] {
      if j != i {
        var k := if j < i then j else j - 1;
        assert t[if k < i then k else k + 1] == cs[k];
        assert Inserted(RangesOf(cs), i, RangeOf(c))[if k < i then k else k + 1] == RangesOf(cs)[k];
      }
    }
  }

  lemma InsertedOnce(cs: seq<Cache>, i: nat, c: Cache)
    requires i <= |cs| && c !in cs && forall j, k :: 0 <= j < k < |cs| ==> cs[j] != cs[k]
    ensures var t := Inserted(cs, i, c); forall j, k :: 0 <= j < k < |t| ==> t[j] != t[k]
  {
    InsertedAt(cs, i, c);
    var t := Inserted(cs, i, c);
    assert forall j :: 0 <= j < |t| ==> t[j] == if j < i then cs[j] else if j == i then c else cs[j - 1];
  }

  class Pool {
    var caches: seq<Cache>
    ghost var repr: set<object>

    ghost predicate Inside(c: Cache)
      reads this`repr, repr
    {
      && c in repr && c.level1 in repr && c.seconds <= repr && c.thirds <= repr
      && c.Valid() && c.start % PAGE == 0
    }

    ghost predicate Valid()
      reads this, repr
    {
      && this !in repr && Sorted(Ranges()) && Members(caches)
      && (forall i, j :: 0 <= i < j < |caches| ==> caches[i] != caches[j])
    }

    /** Caches inside the footprint, no two of which have a table in common. */
    ghost predicate Members(cs: seq<Cache>)
      reads this`repr, repr
    {
      && (forall c {:trigger Inside(c)} :: c in cs ==> Inside(c))
      && (forall c, d {:trigger Apart(c, d)} :: c in cs && d in cs && c != d ==> c in repr && d in repr && Apart(c, d))
    }

    lemma MembersInserted(cs: seq<Cache>, i: nat, c: Cache)
      requires i <= |cs| && Members(cs) && Inside(c) && forall d :: d in cs ==> d in repr && Apart(c, d) && Apart(d, c)
      ensures Members(Inserted(cs, i, c))
    {
      InsertedMembers(cs, i, c);
    }

    ghost function Ranges(): seq<Range>
      reads this
    {
      RangesOf(caches)
    }

    /** The value of object k of cache i. */
    ghost function Entry(i: nat, k: nat): ObjectPair
      reads this, repr
    {
      if i < |caches| && Inside(caches[i]) then caches[i].At(k) else NONE
    }

    /** The value for the object at an address. */
    ghost function Value(a: nat): ObjectPair
      reads this, repr
    {
      match Locate(Ranges(), a)
      case None => NONE
      case Some(p) => Entry(p.cache, p.number)
    }

    /** Tables may have been added, and nothing else about the pool itself has changed. */
    twostate predicate Extended()
      reads this
    {
      fresh(repr - old(repr)) && caches == old(caches)
    }

    constructor ()
      ensures Valid() && fresh(repr) && caches == [] && forall a :: Value(a) == NONE
    {
      caches, repr := [], {};
    }

    /** A copy has the same ranges, but starts out empty. */
    constructor CopyOf(one: Pool)
      requires one.Valid()
      ensures Valid() && fresh(repr) && Ranges() == one.Ranges() && forall a :: Value(a) == NONE
    {
      caches, repr := [], {};
      new;
      for i := 0 to |one.caches|
        invariant Valid() && fresh(repr) && one.Valid() && Ranges() == one.Ranges()[..i]
        invariant forall j, k :: Entry(j, k) == NONE
      {
        var c := one.caches[i];
        assert one.Inside(c);
        assert one.Ranges()[i] == Range(c.start, c.size);
        AppendEmpty(c.start, c.size);
        assert one.Ranges()[..i + 1] == one.Ranges()[..i] + [one.Ranges()[i]];
      }
      assert one.Ranges()[..|one.caches|] == one.Ranges();
    }

    method AppendEmpty(start: nat, size: nat)
      requires Valid() && start % PAGE == 0 && (forall j, k :: Entry(j, k) == NONE)
      requires forall r :: r in Ranges() ==> r.size >= size
      modifies this
      ensures Valid() && fresh(repr - old(repr)) && Ranges() == old(Ranges()) + [Range(start, size)]
      ensures forall j, k :: Entry(j, k) == NONE
    {
      var mc := new Cache(start, size);
      PositionIs(Ranges(), size, |caches|);
      var n := |caches|;
      InsertEmpty(mc, n);
      assert Ranges() == old(Ranges()) + [Range(start, size)];
      forall j: nat, k: nat ensures Entry(j, k) == NONE {
        if j < n {
          assert old(Entry(j, k)) == NONE;
        } else if j == n {
          assert Entry(n, k) == NONE;
        }
      }
    }

    /** The first cache that contains the address. */
    method Find(a: nat) returns (i: nat)
      requires Valid()
      ensures i == First(Ranges(), a)
    {
      i := 0;
      while i < |caches|
        invariant 0 <= i <= |caches| && forall j :: 0 <= j < i ==> !In(Ranges()[j], a)
      {
        if caches[i].Contains(a) { break; }
        i := i + 1;
      }
      FirstIs(Ranges(), a, i);
    }

    /** The object of the address gets the value; every other object keeps its own. Outside all ranges
        nothing happens. */
    method Put(a: nat, v: ObjectPair)
      requires Valid()
      modifies this`repr, repr
      ensures Valid() && Extended()
      ensures forall b ::
                Value(b) == if Locate(Ranges(), a).Some? && Locate(Ranges(), b) == Locate(Ranges(), a) then v
                  else old(Value(b))
    {
      var i := Find(a);
      if i == |caches| { return; }
      PutIn(i, a, v);
    }

    method PutIn(i: nat, a: nat, v: ObjectPair)
      requires Valid() && i < |caches| && caches[i].Contains(a)
      modifies this`repr, repr
      ensures Valid() && Extended()
      ensures forall j, k :: Entry(j, k) == if j == i && k == ObjectNumber(a - caches[i].start) then v
        else old(Entry(j, k))
    {
      var c := caches[i];
      assert Inside(c);
      c.Put(a, v);
      repr := repr + c.seconds + c.thirds;
      forall d | d in caches ensures Inside(d) {
        assert old(Inside(d)) && (d != c ==> old(Apart(c, d)));
      }
      forall d, e | d in caches && e in caches && d != e ensures d in repr && e in repr && Apart(d, e) {
        assert old(Apart(d, e)) && old(Inside(d)) && old(Inside(e));
      }
      forall j: nat, k: nat
        ensures Entry(j, k) == if j == i && k == ObjectNumber(a - caches[i].start) then v else old(Entry(j, k))
      {
        if j < |caches| { assert Inside(caches[j]) && old(Inside(caches[j])) && (j != i ==> old(Apart(c, caches[j]))); }
      }
    }

    method Get(a: nat) returns (r: ObjectPair)
      requires Valid()
      ensures r == Value(a)
    {
      var i := Find(a);
      if i == |caches| { return NONE; }
      assert Inside(caches[i]);
      r := caches[i].Get(a);
    }

    /** A cache for a new page-aligned range, before the first smaller one. */
    method RegisterPool(start: nat, size: nat)
      requires Valid() && start % PAGE == 0
      modifies this
      ensures Valid() && fresh(repr - old(repr))
      ensures Ranges() == Inserted(old(Ranges()), Position(old(Ranges()), size), Range(start, size))
      ensures Clear(old(Ranges()), Range(start, size)) ==>
        forall a :: Value(a) == if In(Range(start, size), a) then NONE else old(Value(a))
    {
      var i := FindPosition(size);
      var mc := new Cache(start, size);
      InsertRange(mc, i);
    }

    method InsertRange(mc: Cache, i: nat)
      requires Valid() && mc.Valid() && mc.seconds == {} && mc.thirds == {} && mc.start % PAGE == 0
      requires mc !in repr && mc.level1 !in repr && i == Position(Ranges(), mc.size) && forall k :: mc.At(k) == NONE
      modifies this
      ensures Valid() && repr == old(repr) + {mc, mc.level1}
      ensures Ranges() == Inserted(old(Ranges()), i, Range(mc.start, mc.size))
      ensures Clear(old(Ranges()), Range(mc.start, mc.size)) ==>
        forall a :: Value(a) == if In(Range(mc.start, mc.size), a) then NONE else old(Value(a))
    {
      InsertEmpty(mc, i);
      if Clear(old(Ranges()), RangeOf(mc)) {
        forall a: nat ensures Value(a) == if In(RangeOf(mc), a) then NONE else old(Value(a)) {
          LocateInserted(old(Ranges()), i, RangeOf(mc), a);
          ghost var p := Locate(old(Ranges()), a);
          if p.Some? { assert p.value.cache < |old(caches)|; }
        }
      }
    }

    method FindPosition(size: nat) returns (i: nat)
      requires Valid()
      ensures i == Position(Ranges(), size)
    {
      i := 0;
      while i < |caches|
        invariant 0 <= i <= |caches| && forall j :: 0 <= j < i ==> Ranges()[j].size >= size
      {
        if size > caches[i].size { break; }
        i := i + 1;
      }
      PositionIs(Ranges(), size, i);
    }

    /** The entries of the other caches stay. */
    method InsertEmpty(mc: Cache, i: nat)
      requires Valid() && mc.Valid() && mc.seconds == {} && mc.thirds == {} && mc.start % PAGE == 0
      requires mc !in repr && mc.level1 !in repr && i == Position(Ranges(), mc.size) && forall k :: mc.At(k) == NONE
      modifies this
      ensures Valid() && caches == Inserted(old(caches), i, mc) && repr == old(repr) + {mc, mc.level1}
      ensures Ranges() == Inserted(old(Ranges()), i, RangeOf(mc))
      ensures forall k :: Entry(i, k) == NONE
      ensures forall j: nat, k :: j < |old(caches)| ==> Entry(if j < i then j else j + 1, k) == old(Entry(j, k))
    {
      InsertCache(mc, i);
      forall k ensures Entry(i, k) == NONE {
        assert Inside(mc);
      }
      forall j: nat, k | j < |old(caches)| ensures Entry(if j < i then j else j + 1, k) == old(Entry(j, k)) {
        assert old(Inside(caches[j])) && Inside(old(caches[j]));
      }
    }

    method InsertCache(mc: Cache, i: nat)
      requires Valid() && mc.Valid() && mc.seconds == {} && mc.thirds == {} && mc.start % PAGE == 0
      requires mc !in repr && mc.level1 !in repr && i == Position(Ranges(), mc.size)
      modifies this
      ensures Valid() && caches == Inserted(old(caches), i, mc) && repr == old(repr) + {mc, mc.level1}
      ensures Ranges() == Inserted(old(Ranges()), i, RangeOf(mc))
    {
      StaysSorted(Ranges(), RangeOf(mc));
      RangesOfInserted(caches, i, mc);
      Adopt(mc);
      InsertedOnce(caches, i, mc);
      MembersInserted(caches, i, mc);
      caches := Inserted(caches, i, mc);
    }

    ghost method Adopt(mc: Cache)
      requires Valid() && mc.Valid() && mc.seconds == {} && mc.thirds == {} && mc.start % PAGE == 0
      requires mc !in repr && mc.level1 !in repr
      modifies this`repr
      ensures Valid() && Inside(mc) && mc !in caches && repr == old(repr) + {mc, mc.level1}
      ensures forall d :: d in caches ==> d in repr && Apart(mc, d) && Apart(d, mc)
    {
      repr := repr + {mc, mc.level1};
      forall d | d in caches ensures Inside(d) && d in repr && Apart(mc, d) && Apart(d, mc) && d != mc {
        assert old(Inside(d));
      }
      forall d, e | d in caches && e in caches && d != e ensures d in repr && e in repr && Apart(d, e) {
        assert old(Apart(d, e));
      }
    }

    lemma {:induction false} PositionIs(rs: seq<Range>, size: nat, i: nat)
      requires i <= |rs| && (i < |rs| ==> size > rs[i].size) && forall j :: 0 <= j < i ==> rs[j].size >= size
      ensures Position(rs, size) == i
    {
      if rs != [] && size <= rs[0].size {
        assert i > 0 && forall j :: 0 <= j < i - 1 ==> rs[1..][j] == rs[j + 1];
        PositionIs(rs[1..], size, i - 1);
      }
    }
  }
}
