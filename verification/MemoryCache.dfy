/** A lazily allocated three-level table from the objects of a range of host addresses to values. */
module MemoryCache {
  // Objects of 128 bytes, pages of 4 KB, superpages of 1 MB.
  const OBJECT := 0x80
  const PAGE := 0x1000
  const SUPERPAGE := 0x10_0000
  const OBJECTS_PER_PAGE := 0x20
  const PAGES_PER_SUPERPAGE := 0x100
  const OBJECTS_PER_SUPERPAGE := 0x2000

  /** A memory object and its contents, by reference number; 0 is null. */
  datatype ObjectPair = ObjectPair(mo: nat, os: nat)

  const NONE := ObjectPair(0, 0)

  function Level1(offset: nat): nat { offset / SUPERPAGE }

  function Level2(offset: nat): nat { (offset % SUPERPAGE) / PAGE }

  function Level3(offset: nat): nat { (offset / OBJECT) % OBJECTS_PER_PAGE }

  function ObjectNumber(offset: nat): nat { offset / OBJECT }

  function Slot1(k: nat): nat { k / OBJECTS_PER_SUPERPAGE }

  function Slot2(k: nat): nat { (k / OBJECTS_PER_PAGE) % PAGES_PER_SUPERPAGE }

  function Slot3(k: nat): nat { k % OBJECTS_PER_PAGE }

  /** The indices of an address are those of its object. */
  lemma Decompose(offset: nat)
    ensures Level1(offset) == Slot1(ObjectNumber(offset))
    ensures Level2(offset) == Slot2(ObjectNumber(offset)) < PAGES_PER_SUPERPAGE
    ensures Level3(offset) == Slot3(ObjectNumber(offset)) < OBJECTS_PER_PAGE
  {
  }

  /** The three indices determine the object. */
  lemma Injective(k: nat, m: nat)
    requires Slot1(k) == Slot1(m) && Slot2(k) == Slot2(m) && Slot3(k) == Slot3(m)
    ensures k == m
  {
    Recompose(k);
    Recompose(m);
  }

  lemma Recompose(k: nat)
    ensures k == Slot1(k) * OBJECTS_PER_SUPERPAGE + Slot2(k) * OBJECTS_PER_PAGE + Slot3(k)
  {
  }

  /** Superpages needed for a range. */
  function PageCount(size: nat): nat {
    size / SUPERPAGE + if size % SUPERPAGE != 0 then 1 else 0
  }

  lemma InBounds(offset: nat, size: nat)
    requires offset < size
    ensures Level1(offset) < PageCount(size)
  {
  }

  class Cache {
    const start: nat
    const size: nat
    const level1: array<array?<array?<ObjectPair>>>
    ghost var seconds: set<array<array?<ObjectPair>>>
    ghost var thirds: set<array<ObjectPair>>

    predicate Contains(a: nat) { start <= a < start + size }

    /** The table of page j of superpage i, if there is one. */
    ghost function Page(i: nat, j: nat): (r: array?<ObjectPair>)
      reads this, level1, seconds
    {
      if i < level1.Length && level1[i] != null && level1[i] in seconds && j < level1[i].Length then level1[i][j]
      else null
    }

    ghost predicate GoodSecond(i: nat)
      reads this, level1
    {
      i < level1.Length && level1[i] != null ==>
        level1[i] in seconds && level1[i].Length == PAGES_PER_SUPERPAGE
        && forall i' :: 0 <= i' < level1.Length && i' != i ==> level1[i'] != level1[i]
    }

    ghost predicate GoodThird(i: nat, j: nat)
      reads this, level1, seconds
    {
      Page(i, j) != null ==> Page(i, j) in thirds && Page(i, j).Length == OBJECTS_PER_PAGE
    }

    ghost predicate Valid()
      reads this, level1, seconds
    {
      && level1.Length == PageCount(size)
      && (forall i {:trigger GoodSecond(i)} :: GoodSecond(i))
      && (forall i, j {:trigger GoodThird(i, j)} :: GoodThird(i, j))
      && (forall i, j, i', j' {:trigger Page(i, j), Page(i', j')} ::
            Page(i, j) != null && Page(i, j) == Page(i', j') ==> i == i' && j == j')
    }

    /** The value of object number k. */
    ghost function At(k: nat): ObjectPair
      requires Valid()
      reads this, level1, seconds, thirds
    {
      var t := Page(Slot1(k), Slot2(k));
      assert GoodThird(Slot1(k), Slot2(k));
      if t == null then NONE else t[Slot3(k)]
    }

    /** The value of object k of the page of an address. */
    ghost function PageEntry(a: nat, k: nat): ObjectPair
      requires Valid() && Contains(a)
      reads this, level1, seconds, thirds
    {
      At(NthOfPage(a - start, k))
    }

    constructor (start: nat, size: nat)
      ensures Valid() && fresh(level1) && seconds == {} && thirds == {}
      ensures this.start == start && this.size == size && forall k :: At(k) == NONE
    {
      this.start, this.size := start, size;
      var pagecount := size / SUPERPAGE;
      if size % SUPERPAGE != 0 { pagecount := pagecount + 1; }
      level1 := new array?<array?<ObjectPair>>[pagecount];
      seconds, thirds := {}, {};
      new;
      for i := 0 to level1.Length
        invariant seconds == {} && thirds == {} && forall j :: 0 <= j < i ==> level1[j] == null
      {
        level1[i] := null;
      }
    }

    method EnsureSecond(i: nat)
      requires Valid() && i < level1.Length
      modifies this`seconds, level1
      ensures Valid() && level1[i] != null && fresh(seconds - old(seconds)) && forall k :: At(k) == old(At(k))
    {
      assert GoodSecond(i);
      if level1[i] == null {
        var second := new array?<ObjectPair>[PAGES_PER_SUPERPAGE](_ => null);
        seconds := seconds + {second};
        level1[i] := second;
        forall l ensures GoodSecond(l) {
          assert old(GoodSecond(l));
        }
        forall l, j ensures Page(l, j) == old(Page(l, j)) {
          assert old(GoodSecond(l));
        }
        forall l, j ensures GoodThird(l, j) {
          assert old(GoodThird(l, j));
        }
      }
    }

    method EnsureThird(i: nat, j: nat)
      requires Valid() && i < level1.Length && level1[i] != null && j < PAGES_PER_SUPERPAGE
      modifies this`thirds, level1[i]
      ensures Valid() && Page(i, j) != null && fresh(thirds - old(thirds)) && forall k :: At(k) == old(At(k))
    {
      assert GoodSecond(i) && GoodThird(i, j);
      var second := level1[i];
      if second[j] == null {
        var third := new ObjectPair[OBJECTS_PER_PAGE](_ => NONE);
        thirds := thirds + {third};
        second[j] := third;
        forall l ensures GoodSecond(l) {
          assert old(GoodSecond(l));
        }
        forall l, m ensures Page(l, m) == if l == i && m == j then third else old(Page(l, m)) {
          assert old(GoodSecond(l));
        }
        forall l, m ensures GoodThird(l, m) {
          assert old(GoodThird(l, m));
        }
        forall l, m, l', m' | Page(l, m) != null && Page(l, m) == Page(l', m') ensures l == l' && m == m' {
          assert old(GoodThird(l, m)) && old(GoodThird(l', m'));
        }
        forall k ensures At(k) == old(At(k)) {
          assert old(GoodThird(Slot1(k), Slot2(k)));
        }
      }
    }

    /** The value of one object, and of no other, becomes v. */
    method Put(a: nat, v: ObjectPair)
      requires Valid() && Contains(a)
      modifies this`seconds, this`thirds, level1, seconds, thirds
      ensures Valid() && fresh(seconds - old(seconds)) && fresh(thirds - old(thirds))
      ensures forall k :: At(k) == if k == ObjectNumber(a - start) then v else old(At(k))
    {
      var offset := a - start;
      var i, j, k := Level1(offset), Level2(offset), Level3(offset);
      Decompose(offset);
      InBounds(offset, size);
      EnsureSecond(i);
      assert GoodSecond(i);
      EnsureThird(i, j);
      assert GoodSecond(i) && GoodThird(i, j);
      Store(i, j, k, v, ObjectNumber(offset));
    }

    method Store(i: nat, j: nat, k: nat, v: ObjectPair, ghost number: nat)
      requires Valid() && Page(i, j) != null && k < OBJECTS_PER_PAGE
      requires i == Slot1(number) && j == Slot2(number) && k == Slot3(number)
      modifies thirds
      ensures Valid() && forall m :: At(m) == if m == number then v else old(At(m))
    {
      assert GoodSecond(i) && GoodThird(i, j);
      var third := level1[i][j];
      third[k] := v;
      forall l, m ensures GoodThird(l, m) {
        assert old(GoodThird(l, m));
      }
      forall m ensures At(m) == if m == number then v else old(At(m)) {
        assert GoodThird(Slot1(m), Slot2(m));
        if Slot1(m) == i && Slot2(m) == j && Slot3(m) == k { Injective(m, number); }
      }
    }

    method Get(a: nat) returns (r: ObjectPair)
      requires Valid() && Contains(a)
      ensures r == At(ObjectNumber(a - start))
    {
      var offset := a - start;
      Decompose(offset);
      InBounds(offset, size);
      var second := level1[Level1(offset)];
      assert GoodSecond(Level1(offset)) && GoodThird(Level1(offset), Level2(offset));
      if second == null { return NONE; }
      var third := second[Level2(offset)];
      if third == null { return NONE; }
      r := third[Level3(offset)];
    }

    /** The table of the page of an address: its entry k is the value of the k-th object of the page. */
    method GetArray(a: nat) returns (r: array?<ObjectPair>)
      requires Valid() && Contains(a)
      ensures r == null ==> forall k :: 0 <= k < OBJECTS_PER_PAGE ==> PageEntry(a, k) == NONE
      ensures r != null ==> r.Length == OBJECTS_PER_PAGE && forall k :: 0 <= k < r.Length ==> PageEntry(a, k) == r[k]
    {
      var offset := a - start;
      Decompose(offset);
      InBounds(offset, size);
      forall k | 0 <= k < OBJECTS_PER_PAGE
        ensures Slot1(NthOfPage(offset, k)) == Level1(offset) && Slot2(NthOfPage(offset, k)) == Level2(offset)
        ensures Slot3(NthOfPage(offset, k)) == k
      {
        PageSlots(offset, k);
      }
      var second := level1[Level1(offset)];
      assert GoodSecond(Level1(offset)) && GoodThird(Level1(offset), Level2(offset));
      if second == null { return null; }
      r := second[Level2(offset)];
    }

    method FlushCache()
      requires Valid()
      modifies this`seconds, this`thirds, level1
      ensures Valid() && seconds == {} && thirds == {} && forall k :: At(k) == NONE
    {
      seconds, thirds := {}, {};
      for i := 0 to level1.Length
        invariant seconds == {} && thirds == {} && forall j :: 0 <= j < i ==> level1[j] == null
      {
        level1[i] := null;
      }
    }
  }

  /** The number of object k of the page of an address. */
  function NthOfPage(offset: nat, k: nat): nat { offset / PAGE * OBJECTS_PER_PAGE + k }

  /** It is the object at the page's base plus k objects. */
  lemma NthOfPageIsObject(offset: nat, k: nat)
    requires k < OBJECTS_PER_PAGE
    ensures NthOfPage(offset, k) == ObjectNumber(offset - offset % PAGE + k * OBJECT)
    ensures offset - offset % PAGE + k * OBJECT < offset - offset % PAGE + PAGE
  {
  }

  lemma PageSlots(offset: nat, k: nat)
    requires k < OBJECTS_PER_PAGE
    ensures Slot1(NthOfPage(offset, k)) == Level1(offset)
    ensures Slot2(NthOfPage(offset, k)) == Level2(offset)
    ensures Slot3(NthOfPage(offset, k)) == k
  {
    var n := NthOfPage(offset, k);
    assert n / OBJECTS_PER_PAGE == offset / PAGE;
    assert offset / PAGE == Level1(offset) * PAGES_PER_SUPERPAGE + Level2(offset);
    assert n / OBJECTS_PER_SUPERPAGE == n / OBJECTS_PER_PAGE / PAGES_PER_SUPERPAGE;
  }
}
