/** Memory objects bound to shared object states, and the cache over them. */
module AddressSpaces {
  import opened Expressions
  import opened MemoryCache
  import opened MemoryCachePool
  import opened Options

  /** The start of the object an address lies in. */
  function Base(a: nat): nat { a - a % OBJECT }

  /** Registered ranges consist of whole pages. */
  ghost predicate Paged(rs: seq<Range>) {
    forall i {:trigger rs[i]} :: 0 <= i < |rs| ==> rs[i].start % PAGE == 0 && rs[i].size % PAGE == 0
  }

  lemma BaseInRange(r: Range, a: nat)
    requires r.start % PAGE == 0 && r.size % PAGE == 0
    ensures In(r, a) <==> In(r, Base(a))
    ensures In(r, a) ==> ObjectNumber(Base(a) - r.start) == ObjectNumber(a - r.start)
  {
    MultipleOf(r.start);
    MultipleOf(r.start + r.size);
    NotBelow(r.start, a);
    NotBelow(r.start + r.size, a);
    if In(r, a) {
      BaseFrom(r.start, a);
      NumberOfBase(a - r.start);
    }
  }

  lemma NotBelow(p: nat, a: nat)
    requires p % OBJECT == 0
    ensures p <= Base(a) <==> p <= a
  {
  }

  lemma NumberOfBase(x: nat)
    ensures ObjectNumber(Base(x)) == ObjectNumber(x)
  {
  }

  lemma MultipleOf(p: nat)
    requires p % PAGE == 0
    ensures p % OBJECT == 0
  {
  }

  /** Every address of an object has the object's slot. */
  lemma {:induction false} SlotOfBase(rs: seq<Range>, a: nat)
    requires Paged(rs)
    ensures Locate(rs, a) == Locate(rs, Base(a))
  {
    var i := First(rs, a);
    forall j | 0 <= j <= i && j < |rs| ensures In(rs[j], Base(a)) <==> In(rs[j], a) {
      BaseInRange(rs[j], a);
    }
    FirstIs(rs, Base(a), i);
    if i < |rs| { BaseInRange(rs[i], a); }
  }

  /** And no other object has it. */
  lemma SlotsApart(rs: seq<Range>, a: nat, b: nat)
    requires Paged(rs) && Locate(rs, a).Some? && Locate(rs, a) == Locate(rs, b)
    ensures Base(a) == Base(b)
  {
    var r := rs[First(rs, a)];
    SameObject(a - r.start, b - r.start);
    MultipleOf(r.start);
    BaseFrom(r.start, a);
    BaseFrom(r.start, b);
  }

  lemma SameObject(x: nat, y: nat)
    requires ObjectNumber(x) == ObjectNumber(y)
    ensures Base(x) == Base(y)
  {
  }

  lemma BaseFrom(start: nat, a: nat)
    requires start % OBJECT == 0 && start <= a
    ensures Base(a) == start + Base(a - start)
  {
  }

  /** Objects come after one another up to the end of a paged range. */
  lemma NextObject(start: nat, size: nat, n: nat)
    requires start % PAGE == 0 && size % PAGE == 0 && n % OBJECT == 0 && n < size
    ensures n + OBJECT <= size && (start + n) % OBJECT == 0 && (n + OBJECT) % OBJECT == 0
  {
    MultipleOf(start);
    MultipleOf(size);
    Multiples(start / OBJECT, n / OBJECT);
    Multiples(n / OBJECT, 1);
    assert n / OBJECT < size / OBJECT;
  }

  lemma Multiples(x: nat, y: nat)
    ensures (OBJECT * x + OBJECT * y) % OBJECT == 0
  {
    assert OBJECT * x + OBJECT * y == OBJECT * (x + y);
  }

  lemma InObject(page: nat, k: nat)
    requires page % OBJECT == 0 && k < OBJECT
    ensures Base(page + k) == page && (page + k) % OBJECT == k
  {
  }

  /** What a state has bound to each memory object, which is known by its address, and the object states
      of all states. */
  datatype Memory = Memory(bound: map<nat, nat>, objects: map<nat, seq<Expr>>) {
    ghost predicate BoundAt(b: nat) { b in bound ==> b > 0 && bound[b] in objects }

    ghost predicate BoundApart(b: nat, c: nat) { b in bound && c in bound && bound[b] == bound[c] ==> b == c }

    ghost predicate WellBound() {
      && (forall b {:trigger BoundAt(b)} :: BoundAt(b))
      && (forall b, c {:trigger BoundApart(b, c)} :: BoundApart(b, c))
    }

    /** The bytes of an object. */
    ghost function Object(b: nat): seq<Expr> {
      if b in bound && bound[b] in objects then objects[bound[b]] else []
    }

    /** The byte at a host address. */
    ghost function At(h: nat): Expr {
      var s := Object(Base(h));
      if h % OBJECT < |s| then s[h % OBJECT] else Const(0)
    }

    ghost predicate Ram(h: nat) { Base(h) in bound && |Object(Base(h))| == OBJECT }

    ghost predicate RamRange(a: nat, n: nat) { forall h: nat {:trigger Ram(h)} :: a <= h < a + n ==> Ram(h) }

    /** The n bytes at a host address. */
    ghost function Bytes(a: nat, n: nat): (s: seq<Expr>)
      ensures |s| == n && forall i :: 0 <= i < n ==> s[i] == At(a + i)
    {
      seq(n, i requires 0 <= i < n => At(a + i))
    }
  }

  lemma AtInObject(m: Memory, page: nat, k: nat, h: nat)
    requires page % OBJECT == 0 && k < OBJECT == |m.Object(page)| && h == page + k
    ensures Base(h) == page && m.At(h) == m.Object(page)[k]
  {
    InObject(page, k);
  }

  ghost predicate BecameAt(m: Memory, m': Memory, a: nat, s: seq<Expr>, h: nat) {
    m'.At(h) == if a <= h < a + |s| then s[h - a] else m.At(h)
  }

  /** The bytes from a on have become s, and the others have not changed. */
  ghost predicate Became(m: Memory, m': Memory, a: nat, s: seq<Expr>) {
    forall h: nat {:trigger BecameAt(m, m', a, s, h)} :: BecameAt(m, m', a, s, h)
  }

  lemma BecameMore(m: Memory, m1: Memory, m2: Memory, a: nat, s: seq<Expr>, b: nat, t: seq<Expr>)
    requires Became(m, m1, a, s) && Became(m1, m2, b, t) && b == a + |s|
    ensures Became(m, m2, a, s + t)
  {
    forall h: nat ensures BecameAt(m, m2, a, s + t, h) {
      assert BecameAt(m, m1, a, s, h) && BecameAt(m1, m2, b, t, h);
    }
  }

  lemma BytesElsewhere(m: Memory, m': Memory, a: nat, s: seq<Expr>, b: nat, n: nat)
    requires Became(m, m', a, s) && (b + n <= a || a + |s| <= b)
    ensures m'.Bytes(b, n) == m.Bytes(b, n)
  {
    forall i | 0 <= i < n ensures m'.Bytes(b, n)[i] == m.Bytes(b, n)[i] {
      assert BecameAt(m, m', a, s, b + i);
    }
  }

  /** Copying an object state and binding the copy changes no byte. */
  lemma Rebound(m: Memory, b: nat, o: nat, m': Memory)
    requires m.WellBound() && b in m.bound && m.bound[b] in m.objects && o !in m.objects
    requires m' == Memory(m.bound[b := o], m.objects[o := m.objects[m.bound[b]]])
    ensures m'.WellBound() && Unaltered(m, m')
  {
    assert m.BoundAt(b);
    forall c: nat ensures m'.BoundAt(c) && m'.Object(c) == m.Object(c) {
      assert m.BoundAt(c);
    }
    forall c: nat, d: nat ensures m'.BoundApart(c, d) {
      assert m.BoundApart(c, d) && m.BoundAt(c) && m.BoundAt(d);
    }
  }

  lemma StaysBound(m: Memory, o: nat, s: seq<Expr>)
    requires m.WellBound()
    ensures m.(objects := m.objects[o := s]).WellBound()
  {
    var m' := m.(objects := m.objects[o := s]);
    forall b: nat ensures m'.BoundAt(b) {
      assert m.BoundAt(b);
    }
    forall b: nat, c: nat ensures m'.BoundApart(b, c) {
      assert m.BoundApart(b, c);
    }
  }

  lemma AddedObject(m: Memory, a: nat, o: nat, bytes: seq<Expr>, m': Memory)
    requires m.WellBound() && a > 0 && a % OBJECT == 0 && a !in m.bound && o !in m.objects && |bytes| == OBJECT
    requires m' == Memory(m.bound[a := o], m.objects[o := bytes])
    ensures m'.WellBound() && Became(m, m', a, bytes)
    ensures forall start: nat, n: nat :: a == start + n && m.RamRange(start, n) ==> m'.RamRange(start, n + OBJECT)
  {
    forall b: nat ensures m'.BoundAt(b) && (b != a ==> m'.Object(b) == m.Object(b)) {
      assert m.BoundAt(b);
    }
    forall b: nat, c: nat ensures m'.BoundApart(b, c) {
      assert m.BoundApart(b, c) && m.BoundAt(b) && m.BoundAt(c);
    }
    forall h: nat ensures BecameAt(m, m', a, bytes, h) && (m.Ram(h) || a <= h < a + OBJECT ==> m'.Ram(h)) {
      if a <= h < a + OBJECT { InObject(a, h - a); }
      if Base(h) == a { assert h == a + h % OBJECT; }
    }
    forall start: nat, n: nat, h: nat | a == start + n && m.RamRange(start, n) && start <= h < start + (n + OBJECT)
      ensures m'.Ram(h)
    {
      assert h < a ==> m.Ram(h);
    }
  }

  ghost predicate Unaltered(m: Memory, m': Memory) { forall b {:trigger m'.Object(b)} :: m'.Object(b) == m.Object(b) }

  lemma BecameNothing(m: Memory, m': Memory, a: nat)
    requires Unaltered(m, m')
    ensures Became(m, m', a, [])
  {
    forall h: nat ensures BecameAt(m, m', a, [], h) {
    }
  }

  lemma UnalteredFirst(m: Memory, m1: Memory, m2: Memory, a: nat, s: seq<Expr>)
    requires Unaltered(m, m1) && Became(m1, m2, a, s)
    ensures Became(m, m2, a, s)
  {
    BecameNothing(m, m1, a);
    BecameMore(m, m1, m2, a, [], a, s);
    assert [] + s == s;
  }

  lemma WroteByte(m: Memory, page: nat, k: nat, a: nat, e: Expr, m': Memory)
    requires a == page + k && m.WellBound() && page % OBJECT == 0 && page in m.bound && k < |m.Object(page)| == OBJECT
    requires m' == m.(objects := m.objects[m.bound[page] := m.Object(page)[k := e]])
    ensures Became(m, m', a, [e])
  {
    InObject(page, k);
    assert m.BoundAt(page);
    forall h: nat ensures BecameAt(m, m', a, [e], h) {
      assert m.BoundAt(Base(h)) && m.BoundApart(page, Base(h));
      if Base(h) == page { assert h == page + h % OBJECT; }
    }
  }

  /** A state's memory, the object states that no other state uses, and the next free number for one. */
  datatype Snapshot = Snapshot(memory: Memory, owned: set<nat>, next: nat)

  ghost predicate KeptObject(s: Snapshot, s': Snapshot, o: nat) {
    && (o in s.memory.objects ==> o in s'.memory.objects)
    && (o in s.memory.objects && o !in s.owned ==> s'.memory.objects[o] == s.memory.objects[o])
    && (o in s.owned ==> o in s'.owned)
    && (o in s'.owned ==> o in s.owned || (o >= s.next && o !in s.memory.objects && o in s'.memory.objects))
  }

  ghost predicate KeptBinding(s: Snapshot, s': Snapshot, b: nat) {
    && (b in s'.memory.bound <==> b in s.memory.bound)
    && (b in s.memory.bound ==>
          s'.memory.bound[b] == s.memory.bound[b] || (s'.memory.bound[b] >= s.next && s.memory.bound[b] !in s.owned))
    && |s'.memory.Object(b)| == |s.memory.Object(b)|
  }

  /** Only object states of the state's own have changed; it has taken none over and lost none; and the same objects are
      bound, to the same object states where they are the state's own. */
  ghost predicate Kept(s: Snapshot, s': Snapshot) {
    && s.next <= s'.next
    && (forall o {:trigger KeptObject(s, s', o)} :: KeptObject(s, s', o))
    && (forall b {:trigger KeptBinding(s, s', b)} :: KeptBinding(s, s', b))
  }

  lemma KeptMore(s: Snapshot, s1: Snapshot, s2: Snapshot)
    requires Kept(s, s1) && Kept(s1, s2)
    ensures Kept(s, s2)
  {
    forall o: nat ensures KeptObject(s, s2, o) {
      assert KeptObject(s, s1, o) && KeptObject(s1, s2, o);
    }
    forall b: nat ensures KeptBinding(s, s2, b) {
      assert KeptBinding(s, s1, b) && KeptBinding(s1, s2, b);
      assert b in s.memory.bound ==> KeptObject(s, s1, s.memory.bound[b]);
    }
  }

  lemma KeptSame(s: Snapshot)
    ensures Kept(s, s)
  {
    forall o: nat ensures KeptObject(s, s, o) {
    }
    forall b: nat ensures KeptBinding(s, s, b) {
    }
  }

  lemma KeptWrite(s: Snapshot, o: nat, k: nat, e: Expr, s': Snapshot)
    requires o in s.owned && o in s.memory.objects && k < |s.memory.objects[o]|
    requires s' == s.(memory := s.memory.(objects := s.memory.objects[o := s.memory.objects[o][k := e]]))
    ensures Kept(s, s')
  {
    forall p: nat ensures KeptObject(s, s', p) {
    }
    forall b: nat ensures KeptBinding(s, s', b) {
    }
  }

  lemma KeptRebound(s: Snapshot, b: nat, o: nat, s': Snapshot)
    requires s.memory.WellBound() && b in s.memory.bound && s.memory.bound[b] in s.memory.objects
    requires s.memory.bound[b] !in s.owned
    requires o == s.next && o !in s.memory.objects
    requires s'.memory == Memory(s.memory.bound[b := o], s.memory.objects[o := s.memory.objects[s.memory.bound[b]]])
    requires s'.owned == s.owned + {o} && s'.next == o + 1
    ensures Kept(s, s')
  {
    forall p: nat ensures KeptObject(s, s', p) {
    }
    assert s.memory.BoundAt(b);
    forall c: nat ensures KeptBinding(s, s', c) {
      assert s.memory.BoundAt(c);
      assert c in s.memory.bound && c != b ==> s'.memory.bound[c] == s.memory.bound[c];
    }
  }

  lemma KeptRam(s: Snapshot, s': Snapshot, a: nat, n: nat)
    requires Kept(s, s') && s.memory.RamRange(a, n)
    ensures s'.memory.RamRange(a, n)
  {
    forall h: nat | a <= h < a + n ensures s'.memory.Ram(h) {
      assert s.memory.Ram(h) && KeptBinding(s, s', Base(h));
    }
  }

  /** The bytes have these values. */
  ghost predicate Takes(asg: Assignment, bytes: seq<Expr>, values: seq<nat>)
    requires |bytes| == |values|
  {
    forall i :: 0 <= i < |bytes| ==> Eval(bytes[i], asg) == values[i]
  }

  lemma TakesMore(asg: Assignment, bytes: seq<Expr>, values: seq<nat>, more: seq<Expr>, others: seq<nat>)
    requires |bytes| == |values| && |more| == |others|
    ensures Takes(asg, bytes + more, values + others) <==> Takes(asg, bytes, values) && Takes(asg, more, others)
  {
    if Takes(asg, bytes + more, values + others) {
      assert forall i :: 0 <= i < |bytes| ==> (bytes + more)[i] == bytes[i] && (values + others)[i] == values[i];
      assert forall i :: 0 <= i < |more| ==>
        && (bytes + more)[|bytes| + i] == more[i]
        && (values + others)[|bytes| + i] == others[i];
    }
  }

  ghost predicate NarrowedFor(asg: Assignment, before: seq<Expr>, after: seq<Expr>, bytes: seq<Expr>, values: seq<nat>)
    requires |bytes| == |values|
  {
    && (Meets(asg, after) <==> Meets(asg, before) && Takes(asg, bytes, values))
    && (Meets(asg, before) ==> Satisfiable(after))
  }

  /** Constraints that say that bytes have certain values, and nothing else beyond the ones before. */
  ghost predicate Narrowed(before: seq<Expr>, after: seq<Expr>, bytes: seq<Expr>, values: seq<nat>)
    requires |bytes| == |values|
  {
    forall asg {:trigger NarrowedFor(asg, before, after, bytes, values)} ::
      NarrowedFor(asg, before, after, bytes, values)
  }

  lemma NarrowedMore(c: seq<Expr>, c1: seq<Expr>, c2: seq<Expr>, bytes: seq<Expr>, values: seq<nat>, more: seq<Expr>,
                     others: seq<nat>)
    requires |bytes| == |values| && |more| == |others|
    requires Narrowed(c, c1, bytes, values) && Narrowed(c1, c2, more, others)
    ensures Narrowed(c, c2, bytes + more, values + others)
  {
    forall asg ensures NarrowedFor(asg, c, c2, bytes + more, values + others) {
      TakesMore(asg, bytes, values, more, others);
      assert NarrowedFor(asg, c, c1, bytes, values) && NarrowedFor(asg, c1, c2, more, others);
      if Meets(asg, c) {
        var asg1 :| Meets(asg1, c1);
        assert NarrowedFor(asg1, c1, c2, more, others);
      }
    }
  }

  function Constants(values: seq<nat>): (s: seq<Expr>)
    ensures |s| == |values| && forall i :: 0 <= i < |s| ==> s[i] == Const(values[i])
  {
    seq(|values|, i requires 0 <= i < |values| => Const(values[i]))
  }

  lemma AlreadyConstant(m: Memory, a: nat, v: nat, cs: seq<Expr>)
    requires m.At(a) == Const(v)
    ensures Became(m, m, a, Constants([v])) && Narrowed(cs, cs, m.Bytes(a, 1), [v])
  {
    OneByte(m, a);
    forall h: nat ensures BecameAt(m, m, a, Constants([v]), h) {
    }
    forall asg ensures NarrowedFor(asg, cs, cs, m.Bytes(a, 1), [v]) {
    }
  }

  /** Reading more bytes, after some, as reading them all. */
  lemma ReadMore(s: Snapshot, s1: Snapshot, s2: Snapshot, c: seq<Expr>, c1: seq<Expr>, c2: seq<Expr>,
                 a: nat, b: nat, values: seq<nat>, others: seq<nat>)
    requires b == a + |values| && Kept(s, s1) && Kept(s1, s2)
    requires Became(s.memory, s1.memory, a, Constants(values)) && Became(s1.memory, s2.memory, b, Constants(others))
    requires Narrowed(c, c1, s.memory.Bytes(a, |values|), values)
    requires Narrowed(c1, c2, s1.memory.Bytes(b, |others|), others)
    ensures Kept(s, s2) && Became(s.memory, s2.memory, a, Constants(values + others))
    ensures Narrowed(c, c2, s.memory.Bytes(a, |values + others|), values + others)
  {
    KeptMore(s, s1, s2);
    BecameMore(s.memory, s1.memory, s2.memory, a, Constants(values), b, Constants(others));
    ConstantsMore(values, others);
    BytesElsewhere(s.memory, s1.memory, a, Constants(values), b, |others|);
    NarrowedMore(c, c1, c2, s.memory.Bytes(a, |values|), values, s.memory.Bytes(b, |others|), others);
    BytesMore(s.memory, a, |values|, b, |others|);
  }

  lemma ConstantsMore(values: seq<nat>, others: seq<nat>)
    ensures Constants(values + others) == Constants(values) + Constants(others)
  {
  }

  lemma WriteMore(s: Snapshot, s1: Snapshot, s2: Snapshot, a: nat, b: nat, written: seq<Expr>, more: seq<Expr>,
                  all: seq<Expr>)
    requires b == a + |written| && all == written + more && Kept(s, s1) && Kept(s1, s2)
    requires Became(s.memory, s1.memory, a, written) && Became(s1.memory, s2.memory, b, more)
    ensures Kept(s, s2) && Became(s.memory, s2.memory, a, all)
  {
    KeptMore(s, s1, s2);
    BecameMore(s.memory, s1.memory, s2.memory, a, written, b, more);
  }

  lemma ConstantsParts(buf: seq<nat>, k: nat)
    requires k <= |buf|
    ensures Constants(buf) == Constants(buf[..k]) + Constants(buf[k..])
  {
  }

  lemma ConstantsStep(buf: seq<nat>, i: nat)
    requires i < |buf|
    ensures Constants(buf[..i + 1]) == Constants(buf[..i]) + [Const(buf[i])]
  {
  }

  lemma ConstantsSlice(buf: seq<nat>, i: nat, n: nat)
    requires i + n <= |buf|
    ensures Constants(buf[..i + n]) == Constants(buf[..i]) + Constants(buf[i..i + n])
  {
  }

  lemma OneByte(m: Memory, a: nat)
    ensures m.Bytes(a, 1) == [m.At(a)]
  {
  }

  /** Having read nothing. */
  lemma ReadNothing(s: Snapshot, c: seq<Expr>, a: nat)
    ensures Kept(s, s) && Became(s.memory, s.memory, a, Constants([])) && Narrowed(c, c, s.memory.Bytes(a, 0), [])
  {
    KeptSame(s);
    BecameNothing(s.memory, s.memory, a);
    assert Constants([]) == [];
    forall asg ensures NarrowedFor(asg, c, c, s.memory.Bytes(a, 0), []) {
    }
  }

  lemma BytesMore(m: Memory, a: nat, k: nat, b: nat, n: nat)
    requires b == a + k
    ensures m.Bytes(a, k + n) == m.Bytes(a, k) + m.Bytes(b, n)
  {
    var s, t := m.Bytes(a, k + n), m.Bytes(a, k) + m.Bytes(b, n);
    forall i | 0 <= i < |s| ensures s[i] == t[i] {
    }
  }

  /** An object state that was bound keeps the bytes that have not been read yet, even if it has been replaced since. */
  lemma StaleByte(s: Snapshot, s': Snapshot, page: nat, k: nat, a: nat, written: seq<Expr>, h: nat)
    requires page % OBJECT == 0 && h == page + k && k < OBJECT == |s.memory.Object(page)| && a + |written| <= h
    requires Kept(s, s') && Became(s.memory, s'.memory, a, written)
    ensures page in s.memory.bound && s.memory.bound[page] in s'.memory.objects
    ensures |s'.memory.objects[s.memory.bound[page]]| == OBJECT
    ensures s'.memory.objects[s.memory.bound[page]][k] == s.memory.At(h)
  {
    var os := s.memory.bound[page];
    assert KeptObject(s, s', os) && KeptBinding(s, s', page) && BecameAt(s.memory, s'.memory, a, written, h);
    AtInObject(s.memory, page, k, h);
    if os in s.owned { AtInObject(s'.memory, page, k, h); }
  }

  /** Concretizing bytes does not change what memory means to anyone who satisfies the constraints that are left. */
  lemma MeaningKept(m: Memory, m': Memory, c: seq<Expr>, c': seq<Expr>, a: nat, values: seq<nat>, asg: Assignment,
                    h: nat)
    requires Became(m, m', a, Constants(values)) && Narrowed(c, c', m.Bytes(a, |values|), values) && Meets(asg, c')
    ensures Meets(asg, c) && Eval(m'.At(h), asg) == Eval(m.At(h), asg)
  {
    assert NarrowedFor(asg, c, c', m.Bytes(a, |values|), values) && BecameAt(m, m', a, Constants(values), h);
    if a <= h < a + |values| { assert Eval(m.Bytes(a, |values|)[h - a], asg) == values[h - a]; }
  }

  /** Every byte has the value it had, for all assignments that meet the constraints. */
  ghost predicate SameMeaning(m: Memory, m': Memory, c: seq<Expr>) {
    forall asg, x: nat {:trigger Eval(m'.At(x), asg)} :: Meets(asg, c) ==> Eval(m'.At(x), asg) == Eval(m.At(x), asg)
  }

  /** The byte at h was read as v, with a constraint or as an example, and v was written to g. */
  ghost predicate ReadAs(m: Memory, m': Memory, c: seq<Expr>, c': seq<Expr>, h: nat, g: nat, v: nat,
                         addConstraint: bool)
  {
    && Became(m, m', g, [Const(v)])
    && if addConstraint then Narrowed(c, c', m.Bytes(h, 1), [v]) else c' == c && Possible(c, m.At(h), v)
  }

  /** Wherever the constraints hold that are left after the byte at h was read as v, the byte at g is v. */
  ghost predicate Fits(m: Memory, c: seq<Expr>, h: nat, g: nat, v: nat, addConstraint: bool) {
    forall asg :: Meets(asg, c) && (addConstraint ==> Eval(m.At(h), asg) == v) ==> Eval(m.At(g), asg) == v
  }

  ghost predicate OneValue(c: seq<Expr>, e: Expr) {
    forall v, w :: Possible(c, e, v) && Possible(c, e, w) ==> v == w
  }

  /** Such a read keeps the meaning of memory exactly if the value fits where it is written. */
  lemma ValueKeepsMeaning(m: Memory, m': Memory, c: seq<Expr>, c': seq<Expr>, h: nat, g: nat, v: nat,
                          addConstraint: bool)
    requires ReadAs(m, m', c, c', h, g, v, addConstraint) && Satisfiable(c)
    ensures Possible(c, m.At(h), v)
    ensures SameMeaning(m, m', c') <==> Fits(m, c, h, g, v, addConstraint)
  {
    OneByte(m, h);
    forall asg ensures Meets(asg, c') <==> Meets(asg, c) && (addConstraint ==> Eval(m.At(h), asg) == v) {
      if addConstraint { assert NarrowedFor(asg, c, c', m.Bytes(h, 1), [v]) && [v][0] == v; }
    }
    if addConstraint {
      var asg0: Assignment :| Meets(asg0, c);
      assert NarrowedFor(asg0, c, c', m.Bytes(h, 1), [v]);
      var asg1: Assignment :| Meets(asg1, c');
      assert Meets(asg1, c) && Eval(m.At(h), asg1) == v;
    }
    forall x: nat ensures m'.At(x) == if x == g then Const(v) else m.At(x) {
      assert BecameAt(m, m', g, [Const(v)], x);
    }
    if SameMeaning(m, m', c') {
      forall asg: Assignment | Meets(asg, c) && (addConstraint ==> Eval(m.At(h), asg) == v)
        ensures Eval(m.At(g), asg) == v
      {
        assert Eval(m'.At(g), asg) == v;
      }
    }
  }

  /** Whatever value the solver finds, it fits where it is written, exactly if the constraints say that the byte there
      equals the byte read, and, when no constraint is to be added, that this has a single value. */
  lemma ReadKeepsMeaning(m: Memory, c: seq<Expr>, h: nat, g: nat, addConstraint: bool)
    requires Satisfiable(c)
    ensures (forall v :: Possible(c, m.At(h), v) ==> Fits(m, c, h, g, v, addConstraint))
       <==> Entails(c, Eq(m.At(g), m.At(h))) && (addConstraint || OneValue(c, m.At(h)))
  {
    var x, y := m.At(g), m.At(h);
    forall asg ensures Holds(Eq(x, y), asg) <==> Eval(x, asg) == Eval(y, asg) {
      assert Eval(Eq(x, y), asg) == Truth(Eval(x, asg) == Eval(y, asg));
    }
    if forall v :: Possible(c, y, v) ==> Fits(m, c, h, g, v, addConstraint) {
      forall asg: Assignment | Meets(asg, c) ensures Eval(x, asg) == Eval(y, asg) {
        assert Possible(c, y, Eval(y, asg));
        assert Fits(m, c, h, g, Eval(y, asg), addConstraint);
      }
      if !addConstraint {
        var asg: Assignment :| Meets(asg, c);
        forall v | Possible(c, y, v) ensures v == Eval(x, asg) {
          assert Fits(m, c, h, g, v, addConstraint);
        }
      }
    } else {
      var v :| Possible(c, y, v) && !Fits(m, c, h, g, v, addConstraint);
      var asg: Assignment :| Meets(asg, c) && (addConstraint ==> Eval(y, asg) == v) && Eval(x, asg) != v;
      assert Possible(c, y, Eval(y, asg));
    }
  }

  ghost predicate OwnsAt(s: Snapshot, o: nat) { o in s.owned ==> o in s.memory.objects && o < s.next }

  ghost predicate Owns(s: Snapshot) { forall o {:trigger OwnsAt(s, o)} :: OwnsAt(s, o) }

  ghost predicate ExclusiveAt(owned: set<nat>, bound: map<nat, nat>, b: nat) { b in bound ==> bound[b] !in owned }

  /** Somebody else's bindings have none of one's own object states. */
  ghost predicate Exclusive(owned: set<nat>, bound: map<nat, nat>) {
    forall b {:trigger ExclusiveAt(owned, bound, b)} :: ExclusiveAt(owned, bound, b)
  }

  /** What one state does leaves another state's memory as it is. */
  lemma OthersUnaltered(s: Snapshot, s': Snapshot, m: Memory)
    requires Kept(s, s') && Exclusive(s.owned, m.bound) && m.WellBound() && m.objects == s.memory.objects
    ensures var m' := Memory(m.bound, s'.memory.objects); Unaltered(m, m') && m'.WellBound()
    ensures Exclusive(s'.owned, m.bound)
  {
    var m' := Memory(m.bound, s'.memory.objects);
    forall b: nat ensures m'.Object(b) == m.Object(b) && m'.BoundAt(b) && ExclusiveAt(s'.owned, m.bound, b) {
      assert m.BoundAt(b) && ExclusiveAt(s.owned, m.bound, b);
      if b in m.bound { assert KeptObject(s, s', m.bound[b]); }
    }
    forall b: nat, c: nat ensures m'.BoundApart(b, c) {
      assert m.BoundApart(b, c);
    }
  }

  /** Nor does it take hold of what the other one owns. */
  lemma OthersExclusive(s: Snapshot, s': Snapshot, t: Snapshot, t': Snapshot)
    requires Kept(s, s') && Exclusive(t.owned, s.memory.bound) && Owns(t)
    requires t.memory.objects == s.memory.objects && t.next == s.next
    requires t' == Snapshot(Memory(t.memory.bound, s'.memory.objects), t.owned, s'.next)
    ensures Exclusive(t'.owned, s'.memory.bound) && Owns(t')
  {
    forall b: nat ensures ExclusiveAt(t'.owned, s'.memory.bound, b) {
      assert ExclusiveAt(t.owned, s.memory.bound, b) && KeptBinding(s, s', b);
      if b in s'.memory.bound { assert OwnsAt(t, s'.memory.bound[b]); }
    }
    forall o: nat ensures OwnsAt(t', o) {
      assert OwnsAt(t, o) && KeptObject(s, s', o);
    }
  }

  lemma OwnsKept(s: Snapshot, s': Snapshot)
    requires Kept(s, s') && Owns(s) && forall o: nat {:trigger OwnsAt(s', o)} :: o in s'.memory.objects ==> o < s'.next
    ensures Owns(s')
  {
    forall o: nat ensures OwnsAt(s', o) {
      assert OwnsAt(s, o) && KeptObject(s, s', o);
    }
  }

  ghost predicate GrewAt(objects: map<nat, seq<Expr>>, objects': map<nat, seq<Expr>>, o: nat) {
    o in objects ==> o in objects' && objects'[o] == objects[o]
  }

  /** Object states have been added, and none has changed. */
  ghost predicate Grew(objects: map<nat, seq<Expr>>, objects': map<nat, seq<Expr>>) {
    forall o {:trigger GrewAt(objects, objects', o)} :: GrewAt(objects, objects', o)
  }

  lemma GrewMore(o: map<nat, seq<Expr>>, o1: map<nat, seq<Expr>>, o2: map<nat, seq<Expr>>)
    requires Grew(o, o1) && Grew(o1, o2)
    ensures Grew(o, o2)
  {
    forall p: nat ensures GrewAt(o, o2, p) {
      assert GrewAt(o, o1, p) && GrewAt(o1, o2, p);
    }
  }

  lemma GrewByOne(o: map<nat, seq<Expr>>, p: nat, s: seq<Expr>)
    requires p !in o
    ensures Grew(o, o[p := s])
  {
    var o' := o[p := s];
    forall q: nat ensures GrewAt(o, o', q) {
    }
  }

  lemma GrewSame(o: map<nat, seq<Expr>>)
    ensures Grew(o, o)
  {
    forall q: nat ensures GrewAt(o, o, q) {
    }
  }

  /** A state that does nothing while another adds object states. */
  lemma IdleKept(t: Snapshot, t': Snapshot)
    requires t'.memory.bound == t.memory.bound && t'.owned == t.owned && t'.next >= t.next
    requires Grew(t.memory.objects, t'.memory.objects) && t.memory.WellBound()
    ensures Kept(t, t')
  {
    forall o: nat ensures KeptObject(t, t', o) {
      assert GrewAt(t.memory.objects, t'.memory.objects, o);
    }
    forall b: nat ensures KeptBinding(t, t', b) {
      assert t.memory.BoundAt(b);
      if b in t.memory.bound { assert GrewAt(t.memory.objects, t'.memory.objects, t.memory.bound[b]); }
    }
  }

  /** Object states by reference number, as the execution states share them. */
  class Heap {
    var objects: map<nat, seq<Expr>>
    var next: nat

    ghost predicate Valid()
      reads this
    {
      next > 0 && forall o {:trigger Numbered(o)} :: Numbered(o)
    }

    ghost predicate Numbered(o: nat)
      reads this
    {
      o in objects ==> 0 < o < next
    }

    constructor ()
      ensures Valid() && objects == map[]
    {
      objects, next := map[], 1;
    }

    method Add(bytes: seq<Expr>) returns (o: nat)
      requires Valid()
      modifies this
      ensures Valid() && o == old(next) && next == o + 1 && objects == old(objects)[o := bytes]
    {
      o := next;
      objects, next := objects[o := bytes], next + 1;
      forall p: nat ensures Numbered(p) {
        assert old(Numbered(p));
      }
    }

    method AddThree(x: seq<Expr>, y: seq<Expr>, z: seq<Expr>) returns (o: nat, p: nat, q: nat)
      requires Valid()
      modifies this
      ensures Valid() && o in objects && p in objects && q in objects && o != p && o != q && p != q
    {
      o := Add(x);
      p := Add(y);
      q := Add(z);
    }

    method Write8(o: nat, i: nat, e: Expr)
      requires Valid() && o in objects && i < |objects[o]|
      modifies this`objects
      ensures Valid() && objects == old(objects)[o := old(objects[o])[i := e]]
    {
      assert Numbered(o);
      objects := objects[o := objects[o][i := e]];
      forall p: nat ensures Numbered(p) {
        assert old(Numbered(p));
      }
    }
  }
}
