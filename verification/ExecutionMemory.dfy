/** The memory of an execution state: copy-on-write objects behind a cache, and accesses that may leave their object. */
module ExecutionMemory {
  import opened Expressions
  import opened MemoryCache
  import opened MemoryCachePool
  import opened AddressSpaces
  import opened SymbolicBytes
  import opened Pages
  import opened Options

  /** What a write comes to: whether it was done, or a failed assertion. */
  datatype Outcome = Answer(ok: bool) | Aborted

  /** Does the access leave its object? */
  predicate Crosses(a: nat, n: nat) { a % OBJECT + n > OBJECT }

  class State {
    const heap: Heap
    const memcache: Pool
    const cpuRegistersState: nat
    const cpuSystemState: nat
    const dirtyMask: nat
    var bound: map<nat, nat>    // the object state of each memory object, which is known by its address
    var owned: set<nat>         // the object states that no other execution state uses
    var constraints: seq<Expr>
    var cpuRegistersObject: nat
    var cpuSystemObject: nat
    var dirtyMaskObject: nat

    /** The same bindings as another state, but nothing owned, and a cache of its own. */
    constructor CopyOf(s: State, memcache: Pool)
      ensures heap == s.heap && this.memcache == memcache && bound == s.bound && owned == {}
      ensures constraints == s.constraints
      ensures cpuRegistersState == s.cpuRegistersState && cpuSystemState == s.cpuSystemState && dirtyMask == s.dirtyMask
      ensures cpuRegistersObject == s.cpuRegistersObject && cpuSystemObject == s.cpuSystemObject
      ensures dirtyMaskObject == s.dirtyMaskObject
    {
      heap, this.memcache, bound, owned, constraints := s.heap, memcache, s.bound, {}, s.constraints;
      cpuRegistersState, cpuSystemState, dirtyMask := s.cpuRegistersState, s.cpuSystemState, s.dirtyMask;
      cpuRegistersObject, cpuSystemObject := s.cpuRegistersObject, s.cpuSystemObject;
      dirtyMaskObject := s.dirtyMaskObject;
    }

    /** The first state: the CPU objects and the dirty mask, and no memory yet. */
    constructor Initial(heap: Heap, cpuRegistersState: nat, cpuSystemState: nat, dirtyMask: nat,
                        registers: seq<Expr>, system: seq<Expr>, mask: seq<Expr>)
      requires heap.Valid() && cpuRegistersState > 0 && cpuSystemState > 0 && dirtyMask > 0
      requires cpuRegistersState != cpuSystemState && cpuRegistersState != dirtyMask && cpuSystemState != dirtyMask
      modifies heap
      ensures Ready() && Owns(Snap()) && constraints == [] && memcache.Ranges() == []
      ensures this.heap == heap && fresh(memcache) && fresh(memcache.repr)
      ensures forall b :: b in bound <==> b == cpuRegistersState || b == cpuSystemState || b == dirtyMask
    {
      var pool := new Pool();
      var r, s, m := heap.AddThree(registers, system, mask);
      this.heap, memcache := heap, pool;
      this.cpuRegistersState, this.cpuSystemState, this.dirtyMask := cpuRegistersState, cpuSystemState, dirtyMask;
      bound, owned := map[cpuRegistersState := r, cpuSystemState := s, dirtyMask := m], {r, s, m};
      constraints, cpuRegistersObject, cpuSystemObject, dirtyMaskObject := [], r, s, m;
      new;
      forall b: nat ensures Mem().BoundAt(b) {
      }
      forall b: nat, c: nat ensures Mem().BoundApart(b, c) {
      }
      forall o: nat ensures OwnsAt(Snap(), o) {
        assert heap.Numbered(o);
      }
    }

    /** Memory for a page-aligned range of host addresses where nothing is bound yet: its objects, and a cache
        for it. */
    method RegisterRam(start: nat, size: nat, data: seq<Expr>)
      requires Ready() && Owns(Snap()) && start > 0 && start % PAGE == 0 && size % PAGE == 0 && |data| == size
      requires Clear(memcache.Ranges(), Range(start, size)) && forall b :: b in bound ==> !In(Range(start, size), b)
      modifies this`bound, this`owned, heap, memcache
      ensures Ready() && Owns(Snap()) && fresh(memcache.repr - old(memcache.repr))
      ensures Mem().RamRange(start, size) && Became(old(Mem()), Mem(), start, data)
      ensures memcache.Ranges() == Inserted(old(memcache.Ranges()), Position(old(memcache.Ranges()), size),
        Range(start, size))
    {
      AddObjects(start, size, data);
      RegisterCache(start, size);
    }

    method AddObjects(start: nat, size: nat, data: seq<Expr>)
      requires Ready() && Owns(Snap()) && start > 0 && start % PAGE == 0 && size % PAGE == 0 && |data| == size
      requires forall b :: b in bound ==> !In(Range(start, size), b)
      modifies this`bound, this`owned, heap
      ensures Ready() && Owns(Snap()) && Mem().RamRange(start, size) && Became(old(Mem()), Mem(), start, data)
      ensures forall b :: b in bound && In(Range(start, size), b) ==> b % OBJECT == 0
    {
      BecameNothing(Mem(), Mem(), start);
      assert data[..0] == [];
      var n := 0;
      while n < size
        invariant n <= size && n % OBJECT == 0 && Ready() && Owns(Snap())
        invariant Mem().RamRange(start, n) && Became(old(Mem()), Mem(), start, data[..n])
        invariant forall b :: b in bound && b >= start + n ==> b >= start + size
        invariant forall b :: b in bound && In(Range(start, size), b) ==> b % OBJECT == 0
      {
        ghost var m := Mem();
        NextObject(start, size, n);
        AddExternal(start + n, data[n..n + OBJECT]);
        BecameMore(old(Mem()), m, Mem(), start, data[..n], start + n, data[n..n + OBJECT]);
        assert data[..n + OBJECT] == data[..n] + data[n..n + OBJECT];
        n := n + OBJECT;
      }
      assert data[..n] == data;
    }

    method AddExternal(a: nat, bytes: seq<Expr>)
      requires Ready() && Owns(Snap()) && a > 0 && a % OBJECT == 0 && a !in bound && |bytes| == OBJECT
      modifies this`bound, this`owned, heap
      ensures Ready() && Owns(Snap()) && Became(old(Mem()), Mem(), a, bytes)
      ensures forall b :: b in bound <==> b == a || b in old(bound)
      ensures forall start: nat, n: nat :: a == start + n && old(Mem()).RamRange(start, n) ==>
        Mem().RamRange(start, n + OBJECT)
    {
      ghost var m := Mem();
      assert heap.Numbered(heap.next);
      var o := heap.Add(bytes);
      AddedObject(m, a, o, bytes, Memory(bound[a := o], heap.objects));
      forall p: nat ensures OwnsAt(Snap(), p) {
        assert old(OwnsAt(Snap(), p));
      }
      Bind(a, o);
    }

    method Bind(a: nat, o: nat)
      requires heap.Valid() && CacheRight() && Memory(bound[a := o], heap.objects).WellBound() && a % OBJECT == 0
      requires a !in bound
      requires cpuRegistersState in bound && cpuSystemState in bound && dirtyMask in bound
      requires cpuRegistersState != cpuSystemState && cpuRegistersState != dirtyMask && cpuSystemState != dirtyMask
      requires Owns(Snap()) && o in heap.objects
      requires cpuRegistersObject == bound[cpuRegistersState] && cpuSystemObject == bound[cpuSystemState]
      requires dirtyMaskObject == bound[dirtyMask]
      requires cpuRegistersObject in owned && cpuSystemObject in owned && dirtyMaskObject in owned
      modifies this`bound, this`owned
      ensures Ready() && Owns(Snap()) && bound == old(bound)[a := o]
    {
      bound, owned := bound[a := o], owned + {o};
      forall b: nat ensures Cached(b) {
        assert old(Cached(b));
      }
      assert heap.Numbered(o);
      forall p: nat ensures OwnsAt(Snap(), p) {
        assert old(OwnsAt(Snap(), p));
      }
    }

    method RegisterCache(start: nat, size: nat)
      requires Ready() && start % PAGE == 0 && size % PAGE == 0 && Clear(memcache.Ranges(), Range(start, size))
      requires forall b :: b in bound && In(Range(start, size), b) ==> b % OBJECT == 0
      requires !In(Range(start, size), cpuRegistersState) && !In(Range(start, size), cpuSystemState)
      modifies memcache
      ensures Ready() && fresh(memcache.repr - old(memcache.repr))
      ensures memcache.Ranges() == Inserted(old(memcache.Ranges()), Position(old(memcache.Ranges()), size),
        Range(start, size))
    {
      PlacedAfter(memcache.Ranges(), Position(memcache.Ranges(), size), Range(start, size));
      memcache.RegisterPool(start, size);
      assert Placed();
      forall b: nat ensures Cached(b) {
        assert old(Cached(b));
      }
    }

    lemma PlacedAfter(rs: seq<Range>, i: nat, r: Range)
      requires Paged(rs) && i <= |rs| && r.start % PAGE == 0 && r.size % PAGE == 0 && Clear(rs, r)
      ensures Paged(Inserted(rs, i, r))
      ensures forall b: nat {:trigger Locate(Inserted(rs, i, r), b)} ::
                Locate(rs, b) == None && !In(r, b) ==> Locate(Inserted(rs, i, r), b) == None
    {
      InsertedAt(rs, i, r);
      forall b: nat | Locate(rs, b) == None && !In(r, b) ensures Locate(Inserted(rs, i, r), b) == None {
        LocateInserted(rs, i, r, b);
      }
    }

    /** What the state's memory is, and what of it is its own. */
    ghost function Mem(): Memory
      reads this`bound, heap
    {
      Memory(bound, heap.objects)
    }

    ghost function Snap(): Snapshot
      reads this`bound, this`owned, heap
    {
      Snapshot(Mem(), owned, heap.next)
    }

    /** Since the state was s, bytes have been written from a on, and nothing else. */
    ghost predicate HasWritten(s: Snapshot, a: nat, bytes: seq<Expr>)
      reads this`bound, this`owned, heap
    {
      Kept(s, Snap()) && Became(s.memory, Mem(), a, bytes)
    }

    /** Since the state was s with constraints c, the bytes from a on have been read as values, which they have kept. */
    ghost predicate HasRead(s: Snapshot, c: seq<Expr>, a: nat, values: seq<nat>)
      reads this`bound, this`owned, this`constraints, heap
    {
      HasWritten(s, a, Constants(values)) && Narrowed(c, constraints, s.memory.Bytes(a, |values|), values)
    }

    ghost predicate Bindings()
      reads this`bound, heap
    {
      && heap.Valid() && Mem().WellBound()
      && cpuRegistersState in bound && cpuSystemState in bound && dirtyMask in bound
      && cpuRegistersState != cpuSystemState && cpuRegistersState != dirtyMask && cpuSystemState != dirtyMask
    }

    /** Objects in a registered range are aligned; the parts of the CPU state are in none. */
    ghost predicate Placed()
      reads this`bound, memcache
    {
      && Paged(memcache.Ranges())
      && (forall b :: b in bound && b % OBJECT != 0 ==> Locate(memcache.Ranges(), b) == None)
      && Locate(memcache.Ranges(), cpuRegistersState) == None && Locate(memcache.Ranges(), cpuSystemState) == None
    }

    /** The cache has nothing for the object of an address, or what is bound. */
    ghost predicate Cached(a: nat)
      reads this`bound, memcache, memcache.repr
    {
      var v := memcache.Value(a);
      v == NONE || (Base(a) in bound && v == ObjectPair(Base(a), bound[Base(a)]))
    }

    ghost predicate Apart()
      reads memcache
    {
      this !in memcache.repr && heap !in memcache.repr
    }

    /** What a cache hit gives is what the address space would find. */
    ghost predicate CacheRight()
      reads this`bound, memcache, memcache.repr
    {
      && memcache.Valid() && Apart() && Placed()
      && (forall a {:trigger Cached(a)} :: Cached(a))
    }

    ghost predicate Agrees()
      reads this`bound, heap, memcache, memcache.repr
    {
      Bindings() && CacheRight()
    }

    ghost predicate Coherent()
      reads this, heap, memcache, memcache.repr
    {
      Agrees() && cpuRegistersObject == bound[cpuRegistersState] && cpuSystemObject == bound[cpuSystemState]
    }

    /** The parts of the CPU state and the dirty mask may be written directly. */
    ghost predicate Ready()
      reads this, heap, memcache, memcache.repr
    {
      && Coherent() && dirtyMaskObject == bound[dirtyMask]
      && cpuRegistersObject in owned && cpuSystemObject in owned && dirtyMaskObject in owned
    }

    /** Everything is cached properly but for an object that was bound to another object state before. */
    ghost predicate Stale(mo: nat, oldState: nat)
      reads this`bound, memcache, memcache.repr
    {
      && (forall a {:trigger Cached(a)} :: Base(a) != mo ==> Cached(a))
      && (forall a {:trigger memcache.Value(a)} :: Base(a) == mo ==>
        memcache.Value(a) in {NONE, ObjectPair(mo, oldState)})
    }

    /** Called by the address space when it has bound another object state. */
    method AddressSpaceChange(mo: nat, ghost oldState: nat, newState: nat)
      requires Bindings() && memcache.Valid() && Apart() && Placed() && mo in bound && bound[mo] == newState
      requires cpuRegistersObject == if mo == cpuRegistersState then oldState else bound[cpuRegistersState]
      requires cpuSystemObject == if mo == cpuSystemState then oldState else bound[cpuSystemState]
      requires Stale(mo, oldState)
      modifies this`cpuRegistersObject, this`cpuSystemObject, memcache`repr, memcache.repr
      ensures Coherent() && memcache.Extended()
      ensures forall a :: memcache.Value(a) == NONE <==> old(memcache.Value(a)) == NONE
    {
      if mo == cpuRegistersState {
        NeverCached(mo, oldState);
        assert Agrees();
        cpuRegistersObject := newState;
      } else if mo == cpuSystemState {
        NeverCached(mo, oldState);
        assert Agrees();
        cpuSystemObject := newState;
      } else {
        ReplaceCached(mo, oldState, newState);
      }
    }

    lemma NeverCached(mo: nat, oldState: nat)
      requires memcache.Valid() && Placed() && Locate(memcache.Ranges(), mo) == None && Stale(mo, oldState)
      ensures forall a {:trigger Cached(a)} :: Cached(a)
    {
      forall a: nat ensures Cached(a) {
        SlotOfBase(memcache.Ranges(), a);
      }
    }

    method ReplaceCached(mo: nat, ghost oldState: nat, newState: nat)
      requires Bindings() && memcache.Valid() && Apart() && Placed() && mo in bound && bound[mo] == newState
      requires Stale(mo, oldState)
      modifies memcache`repr, memcache.repr
      ensures Agrees()
      ensures memcache.Extended()
      ensures forall a :: memcache.Value(a) == NONE <==> old(memcache.Value(a)) == NONE
    {
      var op := memcache.Get(mo);
      assert Mem().BoundAt(mo);
      if op.mo != 0 {
        assert Base(mo) == mo && op.mo == mo;
        forall b: nat | Locate(memcache.Ranges(), b) == Locate(memcache.Ranges(), mo)
          ensures memcache.Value(b) == memcache.Value(mo)
        {
        }
        assert forall b {:trigger Cached(b)} :: Base(b) == mo && Locate(memcache.Ranges(), b) == None ==> Cached(b);
        Recache(mo, mo, ObjectPair(op.mo, newState));
      } else {
        forall a: nat ensures Cached(a) {
          SlotOfBase(memcache.Ranges(), a);
        }
      }
    }

    /** Do two addresses share a slot of the cache? */
    ghost predicate Together(a: nat, b: nat)
      reads memcache
    {
      Locate(memcache.Ranges(), a).Some? && Locate(memcache.Ranges(), b) == Locate(memcache.Ranges(), a)
    }

    /** Put what is bound, at any address of the object. */
    method Recache(a: nat, ghost mo: nat, op: ObjectPair)
      requires Bindings() && memcache.Valid() && Apart() && Placed()
      requires mo in bound && mo == Base(a) && op == ObjectPair(mo, bound[mo])
      requires forall b {:trigger Cached(b)} :: Base(b) != mo ==> Cached(b)
      requires forall b :: Base(b) == mo && Locate(memcache.Ranges(), b) == None ==> Cached(b)
      modifies memcache`repr, memcache.repr
      ensures Agrees()
      ensures memcache.Extended()
      ensures forall b :: Base(b) == mo && Locate(memcache.Ranges(), b).Some? ==> memcache.Value(b) == op
      ensures forall b :: memcache.Value(b) == if Together(a, b) then op else old(memcache.Value(b))
    {
      memcache.Put(a, op);
      SlotOfBase(memcache.Ranges(), a);
      forall b: nat ensures Cached(b) {
        assert Base(b) != mo ==> old(Cached(b));
        SlotOfBase(memcache.Ranges(), b);
        if Locate(memcache.Ranges(), a).Some? && Locate(memcache.Ranges(), b) == Locate(memcache.Ranges(), a) {
          SlotsApart(memcache.Ranges(), a, b);
        }
      }
      forall b: nat | Base(b) == mo && Locate(memcache.Ranges(), b).Some? ensures memcache.Value(b) == op {
        SlotOfBase(memcache.Ranges(), b);
      }
    }

    /** An object state for writing: the bound one if no other state uses it, else a copy, which gets bound. */
    method GetWriteable(mo: nat, os: nat) returns (wos: nat)
      requires Coherent() && mo in bound && os == bound[mo]
      modifies this`bound, this`owned, this`cpuRegistersObject, this`cpuSystemObject
      modifies heap, memcache`repr, memcache.repr
      ensures Coherent() && memcache.Extended()
      ensures Kept(old(Snap()), Snap()) && Unaltered(old(Mem()), Mem())
      ensures bound == old(bound)[mo := wos] && owned == old(owned) + {wos}
      ensures (os in old(owned) ==> wos == os) && Grew(old(heap.objects), heap.objects)
    {
      if os in owned {
        KeptSame(Snap());
        GrewSame(heap.objects);
        return os;
      }
      assert Mem().BoundAt(mo) && heap.Numbered(heap.next);
      wos := CopyAndBind(mo, os);
      Rebound(old(Mem()), mo, wos, Mem());
      KeptRebound(old(Snap()), mo, wos, Snap());
      GrewByOne(old(heap.objects), wos, old(Mem()).Object(mo));
    }

    method CopyAndBind(mo: nat, os: nat) returns (wos: nat)
      requires Coherent() && mo in bound && os == bound[mo]
      modifies this`bound, this`owned, this`cpuRegistersObject, this`cpuSystemObject
      modifies heap, memcache`repr, memcache.repr
      ensures Coherent() && memcache.Extended()
      ensures wos == old(heap.next) && heap.next == wos + 1
      ensures heap.objects == old(heap.objects)[wos := old(Mem()).Object(mo)]
      ensures bound == old(bound)[mo := wos] && owned == old(owned) + {wos}
    {
      wos := CopyOnWrite(mo, os);
      AddressSpaceChange(mo, os, wos);
    }

    method CopyOnWrite(mo: nat, os: nat) returns (wos: nat)
      requires Coherent() && mo in bound && os == bound[mo]
      modifies this`bound, this`owned, heap
      ensures Bindings() && Placed() && Stale(mo, os)
      ensures wos == old(heap.next) && heap.next == wos + 1
      ensures heap.objects == old(heap.objects)[wos := old(Mem()).Object(mo)]
      ensures bound == old(bound)[mo := wos] && owned == old(owned) + {wos}
    {
      assert Mem().BoundAt(mo) && heap.Numbered(heap.next);
      wos := heap.Add(heap.objects[os]);
      Rebound(old(Mem()), mo, wos, Memory(bound[mo := wos], heap.objects));
      bound, owned := bound[mo := wos], owned + {wos};
      forall a: nat | Base(a) != mo ensures Cached(a) {
        assert old(Cached(a));
      }
      forall a: nat | Base(a) == mo ensures memcache.Value(a) in {NONE, ObjectPair(mo, os)} {
        assert old(Cached(a));
      }
    }

    /** The object of an address: from the cache, or found and then cached under any address of the object. */
    method FindCached(a: nat, key: nat) returns (op: ObjectPair)
      requires Coherent() && a % OBJECT == 0 && a in bound && Base(key) == a
      modifies memcache`repr, memcache.repr
      ensures Coherent() && op == ObjectPair(a, bound[a])
      ensures memcache.Extended()
      ensures forall b :: Base(b) == a && Locate(memcache.Ranges(), b).Some? ==> memcache.Value(b) == op
    {
      op := memcache.Get(a);
      assert Cached(a) && Mem().BoundAt(a);
      if op.mo == 0 {
        op := ObjectPair(a, bound[a]);
        forall b | Base(b) == a && Locate(memcache.Ranges(), b) == None ensures Cached(b) {
        }
        Recache(key, a, op);
      } else {
        forall b: nat | Base(b) == a && Locate(memcache.Ranges(), b).Some? ensures memcache.Value(b) == op {
          SlotOfBase(memcache.Ranges(), b);
        }
      }
    }

    /** GetWriteable for the objects of memory. */
    method Writeable(page: nat, os: nat) returns (wos: nat)
      requires Ready() && page in bound && os == bound[page]
      modifies this`bound, this`owned, this`cpuRegistersObject, this`cpuSystemObject
      modifies heap, memcache`repr, memcache.repr
      ensures Ready() && memcache.Extended()
      ensures Kept(old(Snap()), Snap()) && Unaltered(old(Mem()), Mem()) && bound == old(bound)[page := wos]
      ensures wos in owned
      ensures os in old(owned) ==> wos == os
    {
      wos := GetWriteable(page, os);
    }

    /** Write one byte of an object that is this state's own. */
    method Write8(page: nat, wos: nat, k: nat, ghost a: nat, e: Expr)
      requires Ready() && page % OBJECT == 0 && page in bound && wos == bound[page] && wos in owned
      requires a == page + k && k < |Mem().Object(page)| == OBJECT
      modifies heap`objects
      ensures Ready() && HasWritten(old(Snap()), a, [e])
    {
      StoreOwn(wos, k, e);
      WroteByte(old(Mem()), page, k, a, e, Mem());
      KeptWrite(old(Snap()), wos, k, e, Snap());
    }

    method StoreOwn(o: nat, k: nat, e: Expr)
      requires Ready() && o in heap.objects && k < |heap.objects[o]|
      modifies heap`objects
      ensures Ready() && heap.objects == old(heap.objects)[o := old(heap.objects[o])[k := e]]
    {
      StaysBound(Mem(), o, heap.objects[o][k := e]);
      heap.Write8(o, k, e);
      assert Bindings();
    }

    /** A value the expression can take, which it takes from now on. */
    method ToConstant(e: Expr, solver: Solver) returns (v: nat)
      requires Sound(solver)
      modifies this`constraints
      ensures Narrowed(old(constraints), constraints, [e], [v])
    {
      v := solver(constraints, e);
      ghost var before := constraints;
      constraints := constraints + [Eq(e, Const(v))];
      if Satisfiable(before) {
        var asg :| Meets(asg, before) && Eval(e, asg) == v;
        MeetsOneMore(asg, before, Eq(e, Const(v)));
        assert Eval(Eq(e, Const(v)), asg) == Truth(Eval(e, asg) == v);
        assert Meets(asg, constraints);
      }
      forall asg ensures NarrowedFor(asg, before, constraints, [e], [v]) {
        MeetsOneMore(asg, before, Eq(e, Const(v)));
        assert Eval(Eq(e, Const(v)), asg) == Truth(Eval(e, asg) == v);
        assert [e][0] == e && [v][0] == v;
      }
    }

    /** Concrete code reads memory: symbolic bytes become concrete. */
    method ReadRamConcrete(a: nat, buf: array<nat>, start: nat, size: nat, solver: Solver)
      requires Ready() && Sound(solver) && size > 0 && Mem().RamRange(a, size) && start + size <= buf.Length
      requires buf !in memcache.repr
      modifies this, heap, memcache`repr, memcache.repr, buf
      ensures Ready() && memcache.Extended()
      ensures HasRead(old(Snap()), old(constraints), a, buf[start..start + size])
      ensures forall i :: 0 <= i < buf.Length && !(start <= i < start + size) ==> buf[i] == old(buf[i])
      decreases size, 1
    {
      var offset := a % OBJECT;
      if offset + size <= OBJECT {
        ReadObject(a - offset, offset, a, buf, start, size, solver);
      } else {
        ReadObjects(a, OBJECT - offset, buf, start, size, solver);
      }
    }

    /** Reading more bytes after some. */
    lemma ReadFurther(s: Snapshot, c: seq<Expr>, s1: Snapshot, c1: seq<Expr>, a: nat, b: nat, values: seq<nat>,
                      others: seq<nat>)
      requires Kept(s, s1) && Became(s.memory, s1.memory, a, Constants(values))
      requires Narrowed(c, c1, s.memory.Bytes(a, |values|), values) && HasRead(s1, c1, b, others) && b == a + |values|
      ensures HasRead(s, c, a, values + others)
    {
      ReadMore(s, s1, Snap(), c, c1, constraints, a, b, values, others);
    }

    /** Writing more bytes after some. */
    lemma WriteFurther(s: Snapshot, s1: Snapshot, a: nat, b: nat, written: seq<Expr>, more: seq<Expr>, all: seq<Expr>)
      requires Kept(s, s1) && Became(s.memory, s1.memory, a, written) && HasWritten(s1, b, more)
      requires b == a + |written| && all == written + more
      ensures HasWritten(s, a, all)
    {
      WriteMore(s, s1, Snap(), a, b, written, more, all);
    }

    /** Up to the end of the object, then the rest. */
    method ReadObjects(a: nat, size1: nat, buf: array<nat>, start: nat, size: nat, solver: Solver)
      requires Ready() && Sound(solver) && 0 < size1 < size && Mem().RamRange(a, size) && start + size <= buf.Length
      requires buf !in memcache.repr
      modifies this, heap, memcache`repr, memcache.repr, buf
      ensures Ready() && memcache.Extended()
      ensures HasRead(old(Snap()), old(constraints), a, buf[start..start + size])
      ensures forall i :: 0 <= i < buf.Length && !(start <= i < start + size) ==> buf[i] == old(buf[i])
      decreases size, 0
    {
      ReadRamConcrete(a, buf, start, size1, solver);
      ghost var s1, c1, values := Snap(), constraints, buf[start..start + size1];
      KeptRam(old(Snap()), s1, a, size);
      ReadRamConcrete(a + size1, buf, start + size1, size - size1, solver);
      ghost var others := buf[start + size1..start + (size1 + (size - size1))];
      ReadFurther(old(Snap()), old(constraints), s1, c1, a, a + size1, values, others);
      assert buf[start..start + size] == values + others;
    }

    method ReadObject(page: nat, offset: nat, a: nat, buf: array<nat>, start: nat, size: nat, solver: Solver)
      requires Ready() && Sound(solver) && page % OBJECT == 0 && a == page + offset && 0 < size <= OBJECT - offset
      requires Mem().RamRange(a, size) && start + size <= buf.Length && buf !in memcache.repr
      modifies this, heap, memcache`repr, memcache.repr, buf
      ensures Ready() && memcache.Extended()
      ensures HasRead(old(Snap()), old(constraints), a, buf[start..start + size])
      ensures forall i :: 0 <= i < buf.Length && !(start <= i < start + size) ==> buf[i] == old(buf[i])
    {
      assert Mem().Ram(a);
      InObject(page, offset);
      var op := FindCached(page, page);
      ReadBytes(page, offset, a, op, buf, start, size, solver);
    }

    method ReadBytes(page: nat, offset: nat, ghost a: nat, op0: ObjectPair, buf: array<nat>, start: nat, size: nat,
                     solver: Solver)
      requires Ready() && Sound(solver) && page % OBJECT == 0 && a == page + offset && size <= OBJECT - offset
      requires Usable(page, op0, 0) && start + size <= buf.Length && buf !in memcache.repr
      modifies this, heap, memcache`repr, memcache.repr, buf
      ensures Ready() && memcache.Extended()
      ensures HasRead(old(Snap()), old(constraints), a, buf[start..start + size])
      ensures forall i :: 0 <= i < buf.Length && !(start <= i < start + size) ==> buf[i] == old(buf[i])
    {
      ghost var s0, c0, values := Snap(), constraints, [];
      ReadNothing(s0, c0, a);
      var op, wos := op0, 0;
      for i := 0 to size
        invariant Ready() && memcache.Extended()
        invariant Usable(page, op, wos) && |values| == i && HasRead(s0, c0, a, values)
        invariant forall j :: 0 <= j < i ==> buf[start + j] == values[j]
        invariant forall j :: 0 <= j < buf.Length && !(start <= j < start + i) ==> buf[j] == old(buf[j])
      {
        op, wos, values := ReadNext(page, offset + i, op, wos, buf, start + i, solver, s0, c0, a, values);
      }
      assert buf[start..start + size] == values;
    }

    /** The byte after the i bytes from a on that have been read since the state was s0 with constraints c0. */
    method ReadNext(page: nat, k: nat, op0: ObjectPair, wos0: nat, buf: array<nat>, pos: nat, solver: Solver,
                    ghost s0: Snapshot, ghost c0: seq<Expr>, ghost a: nat, ghost values: seq<nat>)
      returns (op: ObjectPair, wos: nat, ghost all: seq<nat>)
      requires Ready() && Sound(solver) && page % OBJECT == 0 && k < OBJECT && a + |values| == page + k
      requires Usable(page, op0, wos0) && pos < buf.Length && buf !in memcache.repr
      requires HasRead(s0, c0, a, values)
      modifies this, heap, memcache`repr, memcache.repr, buf
      ensures Ready() && memcache.Extended()
      ensures Usable(page, op, wos) && all == values + [buf[pos]] && HasRead(s0, c0, a, all)
      ensures forall i :: 0 <= i < buf.Length && i != pos ==> buf[i] == old(buf[i])
    {
      ghost var s1, c1 := Snap(), constraints;
      var v;
      v, op, wos := ReadByte(page, k, a + |values|, op0, wos0, solver);
      ReadFurther(s0, c0, s1, c1, a, a + |values|, values, [v]);
      buf[pos] := v;
      all := values + [v];
    }

    /** op is what is bound to an object of memory; wos is 0, or it and the state's own. */
    ghost predicate Usable(page: nat, op: ObjectPair, wos: nat)
      reads this`bound, this`owned, heap
    {
      && page in bound && |Mem().Object(page)| == OBJECT && op.os == bound[page]
      && (wos != 0 ==> wos == op.os && wos in owned)
    }

    /** Concretize a byte if it is symbolic; only then is the object needed for writing. */
    method ReadByte(page: nat, k: nat, ghost a: nat, op0: ObjectPair, wos0: nat, solver: Solver)
      returns (v: nat, op: ObjectPair, wos: nat)
      requires Ready() && Sound(solver) && page % OBJECT == 0 && k < OBJECT && a == page + k && Usable(page, op0, wos0)
      modifies this, heap, memcache`repr, memcache.repr
      ensures Ready() && memcache.Extended()
      ensures Usable(page, op, wos)
      ensures HasRead(old(Snap()), old(constraints), a, [v])
    {
      op, wos := op0, wos0;
      InObject(page, k);
      OneByte(Mem(), a);
      var e := heap.objects[op.os][k];
      if e.Const? {
        v := e.value;
        KeptSame(Snap());
        AlreadyConstant(Mem(), a, v, constraints);
        return;
      }
      if wos == 0 {
        wos := Writeable(page, op.os);
        op := op.(os := wos);
      }
      ghost var s1 := Snap();
      assert |Mem().Object(page)| == OBJECT;
      v := Concretize(page, wos, k, a, e, solver);
      assert KeptBinding(s1, Snap(), page);
      KeptMore(old(Snap()), s1, Snap());
      UnalteredFirst(old(Mem()), s1.memory, Mem(), a, Constants([v]));
    }

    method Concretize(page: nat, wos: nat, k: nat, ghost a: nat, e: Expr, solver: Solver) returns (v: nat)
      requires Ready() && Sound(solver) && page % OBJECT == 0 && page in bound && wos == bound[page] && wos in owned
      requires a == page + k && k < |Mem().Object(page)| == OBJECT
      modifies this`constraints, heap
      ensures Ready() && wos == bound[page] && wos in owned && Narrowed(old(constraints), constraints, [e], [v])
      ensures HasWritten(old(Snap()), a, Constants([v]))
    {
      v := ToConstant(e, solver);
      Write8(page, wos, k, a, Const(v));
      assert Constants([v]) == [Const(v)];
    }

    /** Concrete code writes memory. */
    method WriteRamConcrete(a: nat, buf: seq<nat>)
      requires Ready() && buf != [] && Mem().RamRange(a, |buf|)
      modifies this`bound, this`owned, this`cpuRegistersObject, this`cpuSystemObject
      modifies heap, memcache`repr, memcache.repr
      ensures Ready() && memcache.Extended()
      ensures HasWritten(old(Snap()), a, Constants(buf))
      decreases |buf|, 1
    {
      var offset := a % OBJECT;
      if offset + |buf| <= OBJECT {
        WriteObject(a - offset, offset, a, Constants(buf));
      } else {
        WriteObjects(a, OBJECT - offset, buf);
      }
    }

    /** Up to the end of the object, then the rest. */
    method WriteObjects(a: nat, size1: nat, buf: seq<nat>)
      requires Ready() && 0 < size1 < |buf| && Mem().RamRange(a, |buf|)
      modifies this`bound, this`owned, this`cpuRegistersObject, this`cpuSystemObject
      modifies heap, memcache`repr, memcache.repr
      ensures Ready() && memcache.Extended()
      ensures HasWritten(old(Snap()), a, Constants(buf))
      decreases |buf|, 0
    {
      WriteRamConcrete(a, buf[..size1]);
      ghost var s1 := Snap();
      KeptRam(old(Snap()), s1, a, |buf|);
      WriteRamConcrete(a + size1, buf[size1..]);
      ConstantsParts(buf, size1);
      WriteFurther(old(Snap()), s1, a, a + size1, Constants(buf[..size1]), Constants(buf[size1..]), Constants(buf));
    }

    /** Write bytes within one object. */
    method WriteObject(page: nat, offset: nat, a: nat, bytes: seq<Expr>)
      requires Ready() && page % OBJECT == 0 && a == page + offset && 0 < |bytes| <= OBJECT - offset
      requires Mem().RamRange(a, |bytes|)
      modifies this`bound, this`owned, this`cpuRegistersObject, this`cpuSystemObject
      modifies heap, memcache`repr, memcache.repr
      ensures Ready() && memcache.Extended()
      ensures HasWritten(old(Snap()), a, bytes)
    {
      assert Mem().Ram(a);
      InObject(page, offset);
      var op := FindCached(page, page);
      WriteFound(page, op.os, offset, a, bytes);
    }

    method WriteFound(page: nat, os: nat, offset: nat, ghost a: nat, bytes: seq<Expr>)
      requires Ready() && page % OBJECT == 0 && a == page + offset && |bytes| <= OBJECT - offset
      requires page in bound && |Mem().Object(page)| == OBJECT && os == bound[page]
      modifies this`bound, this`owned, this`cpuRegistersObject, this`cpuSystemObject
      modifies heap, memcache`repr, memcache.repr
      ensures Ready() && memcache.Extended()
      ensures HasWritten(old(Snap()), a, bytes)
    {
      var wos := Writeable(page, os);
      ghost var s1 := Snap();
      assert KeptBinding(old(Snap()), s1, page);
      StoreBytes(page, wos, offset, a, bytes);
      KeptMore(old(Snap()), s1, Snap());
      UnalteredFirst(old(Mem()), s1.memory, Mem(), a, bytes);
    }

    method StoreBytes(page: nat, wos: nat, offset: nat, ghost a: nat, bytes: seq<Expr>)
      requires Ready() && page % OBJECT == 0 && a == page + offset && |bytes| <= OBJECT - offset
      requires page in bound && |Mem().Object(page)| == OBJECT && wos == bound[page] && wos in owned
      modifies heap`objects
      ensures Ready() && HasWritten(old(Snap()), a, bytes)
    {
      ghost var s0 := Snap();
      KeptSame(s0);
      BecameNothing(s0.memory, s0.memory, a);
      assert bytes[..0] == [];
      for i := 0 to |bytes|
        invariant Ready() && |Mem().Object(page)| == OBJECT
        invariant HasWritten(s0, a, bytes[..i])
      {
        ghost var s1 := Snap();
        Write8(page, wos, offset + i, a + i, bytes[i]);
        assert KeptBinding(s1, Snap(), page);
        WriteFurther(s0, s1, a, a + i, bytes[..i], [bytes[i]], bytes[..i + 1]);
      }
      assert bytes[..|bytes|] == bytes;
    }

    /** One byte, or None if its page is not mapped. */
    method ReadMemory8(a: nat, t: Hosts) returns (r: Option<Expr>)
      requires Bindings() && (t(a).Some? ==> Mem().Ram(t(a).value))
      ensures r == if t(a).Some? then Some(Mem().At(t(a).value)) else None
    {
      var h := t(a);
      if h == None { return None; }
      assert Mem().BoundAt(Base(h.value));
      r := Some(heap.objects[bound[Base(h.value)]][h.value % OBJECT]);
    }

    /** The value of n bytes, or None if one of them is not mapped. */
    method ReadMemory(a: nat, n: nat, t: Hosts) returns (r: Option<Expr>)
      requires Ready() && n > 0 && PageWise(t) && Backed(Mem(), t, a, n)
      modifies memcache`repr, memcache.repr
      ensures Ready() && memcache.Extended()
      ensures r == if Reach(t, a, n) == n then Some(Joined(Gathered(Mem(), t, a, n))) else None
    {
      if a % OBJECT + n <= OBJECT {
        r := ReadWithin(a, n, t);
      } else {
        r := ReadAcross(a, n, t);
      }
    }

    /** Byte by byte, each put above the ones before. */
    method ReadAcross(a: nat, n: nat, t: Hosts) returns (r: Option<Expr>)
      requires Bindings() && n > 0 && Backed(Mem(), t, a, n)
      ensures r == if Reach(t, a, n) == n then Some(Joined(Gathered(Mem(), t, a, n))) else None
    {
      ghost var m := Mem();
      var res := Const(0);
      for i := 0 to n
        invariant Reach(t, a, i) == i && (i > 0 ==> res == Joined(Gathered(m, t, a, i)))
      {
        assert Nth(t, a, i) == t(a + i) && BackedAt(m, t, a, i);
        var byte := ReadMemory8(a + i, t);
        if byte == None {
          ReachIs(t, a, n, i);
          return None;
        }
        res := if i > 0 then Concat(byte.value, res, i) else byte.value;
        JoinMore(m, t, a, i);
      }
      r := Some(res);
    }

    method ReadWithin(a: nat, n: nat, t: Hosts) returns (r: Option<Expr>)
      requires Ready() && n > 0 && !Crosses(a, n) && PageWise(t) && Backed(Mem(), t, a, n)
      modifies memcache`repr, memcache.repr
      ensures Ready() && memcache.Extended()
      ensures r == if Reach(t, a, n) == n then Some(Joined(Gathered(Mem(), t, a, n))) else None
    {
      var offset := a % OBJECT;
      var h := t(a);
      Contiguous(t, a, n);
      if h == None { return None; }
      GatheredWithin(Mem(), t, a, n, h.value - offset, offset);
      var page := h.value - offset;
      var op := FindCached(page, page);
      assert Mem().BoundAt(page);
      r := Some(Joined(heap.objects[op.os][offset..offset + n]));
    }

    /** Write a byte, if its page is mapped. */
    method WriteMemory8(a: nat, value: Expr, t: Hosts) returns (ok: bool)
      requires Ready() && (t(a).Some? ==> Mem().Ram(t(a).value))
      modifies this`bound, this`owned, this`cpuRegistersObject, this`cpuSystemObject
      modifies heap, memcache`repr, memcache.repr
      ensures Ready() && memcache.Extended()
      ensures ok == t(a).Some? && Kept(old(Snap()), Snap())
      ensures if ok then Became(old(Mem()), Mem(), t(a).value, [value]) else Mem() == old(Mem())
    {
      KeptSame(Snap());
      var h := t(a);
      if h == None { return false; }
      var offset := h.value % OBJECT;
      var page := h.value - offset;
      WriteFound(page, bound[page], offset, h.value, [value]);
      ok := true;
    }

    /** Write the n bytes of a value, as far as their pages are mapped. A constant of up to 8 bytes goes through a
        buffer; this fails for sizes other than 1, 2, 4 and 8, and when the access leaves its object. */
    method WriteMemory(a: nat, value: Expr, n: nat, t: Hosts) returns (r: Outcome)
      requires Ready() && n > 0 && PageWise(t) && Backed(Mem(), t, a, n)
      modifies this`bound, this`owned, this`cpuRegistersObject, this`cpuSystemObject
      modifies heap, memcache`repr, memcache.repr
      ensures Ready() && memcache.Extended()
      ensures Kept(old(Snap()), Snap())
      ensures r.Aborted? <==> value.Const? && n <= 8 && (n !in {1, 2, 4, 8} || Crosses(a, n))
      ensures r.Aborted? ==> Mem() == old(Mem())
      ensures r.Answer? ==>
        && (r.ok <==> Reach(t, a, n) == n)
        && Written(old(Mem()), Mem(), t, a, Parts(value, n), Reach(t, a, n))
      ensures t(a).None? && !Crosses(a, n) ==> Mem() == old(Mem())
    {
      if value.Const? && n <= 8 {
        if n !in {1, 2, 4, 8} {
          KeptSame(Snap());
          return Aborted;
        }
        r := WriteBuffer(a, Values(value, n), n * 8, t);
        assert Constants(Values(value, n)) == Parts(value, n);
      } else if !Crosses(a, n) {
        r := WriteWithin(a, Parts(value, n), t);
      } else {
        r := WriteAcross(a, value, n, t);
      }
    }

    method WriteWithin(a: nat, bytes: seq<Expr>, t: Hosts) returns (r: Outcome)
      requires Ready() && bytes != [] && !Crosses(a, |bytes|) && PageWise(t) && Backed(Mem(), t, a, |bytes|)
      modifies this`bound, this`owned, this`cpuRegistersObject, this`cpuSystemObject
      modifies heap, memcache`repr, memcache.repr
      ensures Ready() && memcache.Extended()
      ensures Kept(old(Snap()), Snap()) && r == Answer(Reach(t, a, |bytes|) == |bytes|)
      ensures Written(old(Mem()), Mem(), t, a, bytes, Reach(t, a, |bytes|))
      ensures t(a).None? ==> Mem() == old(Mem())
    {
      var h := t(a);
      Contiguous(t, a, |bytes|);
      ghost var k := Reach(t, a, |bytes|);
      if h == None {
        KeptSame(Snap());
        WrittenNone(Mem(), Mem(), t, a, bytes);
        assert k == 0;
        return Answer(false);
      }
      WriteMapped(h.value, a, bytes, t, k);
      r := Answer(true);
    }

    method WriteMapped(h: nat, ghost a: nat, bytes: seq<Expr>, ghost t: Hosts, ghost k: nat)
      requires Ready() && 0 < |bytes| <= OBJECT - h % OBJECT && k == |bytes| == Reach(t, a, |bytes|)
      requires Backed(Mem(), t, a, |bytes|)
      requires forall i: nat :: i < |bytes| ==> Nth(t, a, i) == Some(h + i)
      modifies this`bound, this`owned, this`cpuRegistersObject, this`cpuSystemObject
      modifies heap, memcache`repr, memcache.repr
      ensures Ready() && memcache.Extended()
      ensures Kept(old(Snap()), Snap()) && Written(old(Mem()), Mem(), t, a, bytes, k)
    {
      var offset := h % OBJECT;
      var page := h - offset;
      GatheredWithin(Mem(), t, a, |bytes|, page, offset);
      WriteFound(page, bound[page], offset, h, bytes);
      WrittenContiguous(old(Mem()), Mem(), t, a, bytes, h);
    }

    method WriteAcross(a: nat, value: Expr, n: nat, t: Hosts) returns (r: Outcome)
      requires Ready() && n > 0 && Backed(Mem(), t, a, n)
      modifies this`bound, this`owned, this`cpuRegistersObject, this`cpuSystemObject
      modifies heap, memcache`repr, memcache.repr
      ensures Ready() && memcache.Extended()
      ensures Kept(old(Snap()), Snap()) && r == Answer(Reach(t, a, n) == n)
      ensures Written(old(Mem()), Mem(), t, a, Parts(value, n), Reach(t, a, n))
    {
      KeptSame(Snap());
      WrittenNone(Mem(), Mem(), t, a, Parts(value, n));
      for i := 0 to n
        invariant Ready() && memcache.Extended()
        invariant Kept(old(Snap()), Snap()) && Reach(t, a, i) == i
        invariant Written(old(Mem()), Mem(), t, a, Parts(value, n), i)
      {
        var ok := WriteNext(a, value, n, t, i, old(Snap()));
        if !ok { return Answer(false); }
      }
      r := Answer(true);
    }

    /** Byte i, after the ones before it have been written since the state was s0. */
    method WriteNext(a: nat, value: Expr, ghost n: nat, t: Hosts, i: nat, ghost s0: Snapshot) returns (ok: bool)
      requires Ready() && i < n && Backed(s0.memory, t, a, n) && Kept(s0, Snap())
      requires Reach(t, a, i) == i && Written(s0.memory, Mem(), t, a, Parts(value, n), i)
      modifies this`bound, this`owned, this`cpuRegistersObject, this`cpuSystemObject
      modifies heap, memcache`repr, memcache.repr
      ensures Ready() && memcache.Extended()
      ensures Kept(s0, Snap())
      ensures ok ==> Reach(t, a, i + 1) == i + 1 && Written(s0.memory, Mem(), t, a, Parts(value, n), i + 1)
      ensures !ok ==> Reach(t, a, n) == i && Written(s0.memory, Mem(), t, a, Parts(value, n), i)
    {
      ghost var s1 := Snap();
      BackedByte(s0, s1, t, a, n, i);
      assert Nth(t, a, i) == t(a + i);
      ok := WriteMemory8(a + i, Extract(value, i), t);
      KeptMore(s0, s1, Snap());
      if ok {
        WrittenMore(s0.memory, s1.memory, Mem(), t, a, Parts(value, n), i, t(a + i).value);
        ReachIs(t, a, i + 1, i + 1);
      } else {
        ReachIs(t, a, n, i);
      }
    }

    /** The buffer form, which passes numbers of bytes as numbers of bits when it splits. */
    method WriteBuffer(a: nat, buf: seq<nat>, width: nat, t: Hosts) returns (r: Outcome)
      requires Ready() && 0 < width <= 8 * |buf| && PageWise(t) && Backed(Mem(), t, a, |buf|)
      modifies this`bound, this`owned, this`cpuRegistersObject, this`cpuSystemObject
      modifies heap, memcache`repr, memcache.repr
      ensures Ready() && memcache.Extended()
      ensures Kept(old(Snap()), Snap())
      ensures width == 8 * |buf| && !Crosses(a, |buf|) ==>
        r == Answer(Reach(t, a, |buf|) == |buf|) && Written(old(Mem()), Mem(), t, a, Constants(buf), Reach(t, a, |buf|))
      ensures t(a).None? && !Crosses(a, width / 8) ==> Mem() == old(Mem())
      ensures width % 8 != 0 || (Crosses(a, width / 8) && (OBJECT - a % OBJECT) % 8 != 0) ==>
        r == Aborted && Mem() == old(Mem())
      decreases width
    {
      if width % 8 != 0 {
        KeptSame(Snap());
        return Aborted;
      }
      var size := width / 8;
      BackedLess(Mem(), t, a, |buf|, size);
      if !Crosses(a, size) {
        assert width == 8 * |buf| ==> buf[..size] == buf;
        r := WriteWithin(a, Constants(buf[..size]), t);
      } else {
        var size1 := OBJECT - a % OBJECT;
        r := WriteBuffer(a, buf, size1, t);
        if r != Answer(true) { return; }
        ghost var s1 := Snap();
        BackedRest(old(Snap()), s1, t, a, |buf|, size1);
        r := WriteBuffer(a + size1, buf[size1..], size - size1, t);
        KeptMore(old(Snap()), s1, Snap());
      }
    }

    /** One byte as a concrete value: with a constraint, or else as an example. The value replaces a byte all the same.
        t is the translation that was asked for, u that of virtual addresses, which the write uses whatever was asked
        for. */
    method ReadMemoryConcrete8(a: nat, t: Hosts, u: Hosts, addConstraint: bool, solver: Solver)
        returns (ok: bool, result: nat)
      requires Ready() && Sound(solver) && Satisfiable(constraints) && PageWise(u)
      requires t(a).Some? ==> Mem().Ram(t(a).value) && forall asg :: Eval(Mem().At(t(a).value), asg) < 0x100
      requires u(a).Some? ==> Mem().Ram(u(a).value)
      modifies this, heap, memcache`repr, memcache.repr
      ensures Ready() && memcache.Extended()
      ensures Kept(old(Snap()), Snap()) && (ok <==> t(a).Some? && u(a).Some?)
      ensures !ok ==> Mem() == old(Mem())
      ensures t(a).None? ==> constraints == old(constraints)
      ensures t(a).Some? && !addConstraint ==>
        constraints == old(constraints) && Possible(constraints, old(Mem()).At(t(a).value), result)
      ensures t(a).Some? && addConstraint ==>
        Narrowed(old(constraints), constraints, old(Mem()).Bytes(t(a).value, 1), [result])
      ensures ok ==>
        ReadAs(old(Mem()), Mem(), old(constraints), constraints, t(a).value, u(a).value, result, addConstraint)
    {
      var expr := ReadMemory8(a, t);
      if expr == None {
        KeptSame(Snap());
        return false, 0;
      }
      result := Concretized(expr.value, t(a).value, addConstraint, solver);
      ok := WriteConcrete8(a, result, u);
    }

    method WriteConcrete8(a: nat, v: nat, u: Hosts) returns (ok: bool)
      requires Ready() && PageWise(u) && v < 0x100 && (u(a).Some? ==> Mem().Ram(u(a).value))
      modifies this`bound, this`owned, this`cpuRegistersObject, this`cpuSystemObject
      modifies heap, memcache`repr, memcache.repr
      ensures Ready() && memcache.Extended() && Kept(old(Snap()), Snap()) && ok == u(a).Some?
      ensures if ok then Became(old(Mem()), Mem(), u(a).value, [Const(v)]) else Mem() == old(Mem())
    {
      OneByteAccess(Mem(), u, a);
      var r := WriteMemory(a, Const(v), 1, u);
      ok := r == Answer(true);
      if ok { WrittenOne(old(Mem()), Mem(), u, a, Const(v), u(a).value); }
    }

    method Concretized(e: Expr, ghost h: nat, addConstraint: bool, solver: Solver) returns (v: nat)
      requires Ready() && Sound(solver) && Satisfiable(constraints) && e == Mem().At(h)
      requires forall asg :: Eval(e, asg) < 0x100
      modifies this`constraints
      ensures Ready() && v < 0x100
      ensures (!addConstraint ==> constraints == old(constraints) && Possible(constraints, e, v))
      ensures addConstraint ==> Narrowed(old(constraints), constraints, Mem().Bytes(h, 1), [v])
    {
      OneByte(Mem(), h);
      ghost var asg: Assignment :| Meets(asg, constraints);
      assert Possible(constraints, e, Eval(e, asg));
      if e.Const? {
        v := e.value;
        AlreadyConstant(Mem(), h, v, constraints);
      } else if addConstraint {
        ghost var before := constraints;
        v := ToConstant(e, solver);
        assert NarrowedFor(asg, before, constraints, [e], [v]);
        ghost var asg': Assignment :| Meets(asg', constraints);
        assert NarrowedFor(asg', before, constraints, [e], [v]) && Eval([e][0], asg') == v;
      } else {
        v := solver(constraints, e);
      }
    }

    /** Read into a device's buffer, an object at a time; symbolic bytes become concrete. */
    method DmaRead(a0: nat, buf: array<nat>, size0: nat, solver: Solver)
      requires Ready() && Sound(solver) && Mem().RamRange(a0, size0) && size0 <= buf.Length && buf !in memcache.repr
      modifies this, heap, memcache`repr, memcache.repr, buf
      ensures Ready() && memcache.Extended()
      ensures HasRead(old(Snap()), old(constraints), a0, buf[..size0])
      ensures buf[size0..] == old(buf[size0..])
    {
      ghost var values := [];
      ReadNothing(Snap(), constraints, a0);
      var a, pos, size := a0, 0, size0;
      while size > 0
        invariant size >= 0 && pos + size == size0 && a == a0 + pos && |values| == pos
        invariant Ready() && memcache.Extended()
        invariant HasRead(old(Snap()), old(constraints), a0, values)
        invariant forall j :: 0 <= j < pos ==> buf[j] == values[j]
        invariant forall j :: pos <= j < buf.Length ==> buf[j] == old(buf[j])
      {
        var hostPage := a - a % OBJECT;
        var length := hostPage + OBJECT - a;
        if length > size { length := size; }
        values := DmaReadNext(hostPage, a, buf, pos, length, solver, old(Snap()), old(constraints), a0, size0, values);
        a, pos, size := a + length, pos + length, size - length;
      }
      assert buf[..size0] == values;
    }

    /** The next bytes, within an object, after those read since the state was s0 with constraints c0. */
    method DmaReadNext(hostPage: nat, a: nat, buf: array<nat>, pos: nat, length: nat, solver: Solver,
                       ghost s0: Snapshot, ghost c0: seq<Expr>, ghost a0: nat, ghost size0: nat, ghost values: seq<nat>)
      returns (ghost all: seq<nat>)
      requires Ready() && Sound(solver) && hostPage == Base(a) && 0 < length <= OBJECT - a % OBJECT
      requires pos + length <= size0 && pos + length <= buf.Length && buf !in memcache.repr
      requires s0.memory.RamRange(a0, size0)
      requires a == a0 + pos && |values| == pos && HasRead(s0, c0, a0, values)
      modifies this, heap, memcache`repr, memcache.repr, buf
      ensures Ready() && memcache.Extended()
      ensures |all| == pos + length && all[..pos] == values && HasRead(s0, c0, a0, all)
      ensures forall j :: 0 <= j < pos ==> buf[j] == old(buf[j])
      ensures forall j :: pos <= j < pos + length ==> buf[j] == all[j]
      ensures forall j :: pos + length <= j < buf.Length ==> buf[j] == old(buf[j])
    {
      ghost var s1, c1 := Snap(), constraints;
      KeptRam(s0, s1, a0, size0);
      DmaReadObject(hostPage, a % OBJECT, a, buf, pos, length, solver);
      ghost var others := buf[pos..pos + length];
      all := values + others;
      ReadFurther(s0, c0, s1, c1, a0, a, values, others);
    }

    /** The object state is looked up once, although reading a symbolic byte may replace it. */
    method DmaReadObject(hostPage: nat, offset: nat, a: nat, buf: array<nat>, pos: nat, length: nat, solver: Solver)
      requires Ready() && Sound(solver) && hostPage % OBJECT == 0 && a == hostPage + offset
      requires 0 < length <= OBJECT - offset
      requires pos + length <= buf.Length && buf !in memcache.repr && Mem().RamRange(a, length)
      modifies this, heap, memcache`repr, memcache.repr, buf
      ensures Ready() && memcache.Extended()
      ensures HasRead(old(Snap()), old(constraints), a, buf[pos..pos + length])
      ensures forall i :: 0 <= i < buf.Length && !(pos <= i < pos + length) ==> buf[i] == old(buf[i])
    {
      assert Mem().Ram(a);
      InObject(hostPage, offset);
      var op := FindCached(hostPage, a);
      DmaReadBytes(hostPage, op.os, offset, a, buf, pos, length, solver);
    }

    method DmaReadBytes(hostPage: nat, os: nat, offset: nat, a: nat, buf: array<nat>, pos: nat, length: nat,
                        solver: Solver)
      requires Ready() && Sound(solver) && hostPage % OBJECT == 0 && a == hostPage + offset
      requires 0 < length <= OBJECT - offset
      requires hostPage in bound && bound[hostPage] == os && |Mem().Object(hostPage)| == OBJECT
      requires pos + length <= buf.Length && buf !in memcache.repr && Mem().RamRange(a, length)
      modifies this, heap, memcache`repr, memcache.repr, buf
      ensures Ready() && memcache.Extended()
      ensures HasRead(old(Snap()), old(constraints), a, buf[pos..pos + length])
      ensures forall i :: 0 <= i < buf.Length && !(pos <= i < pos + length) ==> buf[i] == old(buf[i])
    {
      ghost var values := [];
      ReadNothing(Snap(), constraints, a);
      for i := 0 to length
        invariant Ready() && memcache.Extended()
        invariant |values| == i && HasRead(old(Snap()), old(constraints), a, values)
        invariant forall j :: 0 <= j < i ==> buf[pos + j] == values[j]
        invariant forall j :: 0 <= j < buf.Length && !(pos <= j < pos + i) ==> buf[j] == old(buf[j])
      {
        values := DmaReadByte(hostPage, os, offset + i, a + i, buf, pos + i, solver, old(Snap()), old(constraints),
          a, length, values);
      }
      assert buf[pos..pos + length] == values;
    }

    method DmaReadByte(hostPage: nat, os: nat, k: nat, h: nat, buf: array<nat>, pos: nat, solver: Solver,
                       ghost s0: Snapshot, ghost c0: seq<Expr>, ghost a: nat, ghost length: nat, ghost values: seq<nat>)
      returns (ghost all: seq<nat>)
      requires Ready() && Sound(solver) && hostPage % OBJECT == 0 && k < OBJECT && h == hostPage + k && pos < buf.Length
      requires hostPage in s0.memory.bound && s0.memory.bound[hostPage] == os && |s0.memory.Object(hostPage)| == OBJECT
      requires buf !in memcache.repr && s0.memory.RamRange(a, length) && h == a + |values| < a + length
      requires HasRead(s0, c0, a, values)
      modifies this, heap, memcache`repr, memcache.repr, buf
      ensures Ready() && memcache.Extended()
      ensures all == values + [buf[pos]] && HasRead(s0, c0, a, all)
      ensures forall i :: 0 <= i < buf.Length && i != pos ==> buf[i] == old(buf[i])
    {
      ghost var s1, c1 := Snap(), constraints;
      StaleByte(s0, s1, hostPage, k, a, Constants(values), h);
      assert BecameAt(s0.memory, s1.memory, a, Constants(values), h);
      KeptRam(s0, s1, a, length);
      if heap.objects[os][k].Const? {
        buf[pos] := heap.objects[os][k].value;
        KeptSame(s1);
        AlreadyConstant(s1.memory, h, buf[pos], c1);
      } else {
        ReadRamConcrete(h, buf, pos, 1, solver);
        assert buf[pos..pos + 1] == [buf[pos]];
      }
      all := values + [buf[pos]];
      ReadFurther(s0, c0, s1, c1, a, h, values, [buf[pos]]);
    }

    /** Write a device's buffer, an object at a time; symbolic bytes are overwritten through WriteRamConcrete. */
    method DmaWrite(a0: nat, buf: seq<nat>)
      requires Ready() && Mem().RamRange(a0, |buf|)
      modifies this`bound, this`owned, this`cpuRegistersObject, this`cpuSystemObject
      modifies heap, memcache`repr, memcache.repr
      ensures Ready() && memcache.Extended()
      ensures HasWritten(old(Snap()), a0, Constants(buf))
    {
      KeptSame(Snap());
      BecameNothing(Mem(), Mem(), a0);
      assert Constants(buf[..0]) == [];
      var a, pos, size := a0, 0, |buf|;
      while size > 0
        invariant size >= 0 && pos + size == |buf| && a == a0 + pos
        invariant Ready() && memcache.Extended()
        invariant HasWritten(old(Snap()), a0, Constants(buf[..pos]))
      {
        var hostPage := a - a % OBJECT;
        var length := hostPage + OBJECT - a;
        if length > size { length := size; }
        ghost var s1 := Snap();
        KeptRam(old(Snap()), s1, a0, |buf|);
        DmaWriteObject(hostPage, a % OBJECT, a, buf[pos..pos + length]);
        ConstantsSlice(buf, pos, length);
        WriteFurther(old(Snap()), s1, a0, a, Constants(buf[..pos]), Constants(buf[pos..pos + length]),
          Constants(buf[..pos + length]));
        a, pos, size := a + length, pos + length, size - length;
      }
      assert buf[..pos] == buf;
    }

    method DmaWriteObject(hostPage: nat, offset: nat, a: nat, buf: seq<nat>)
      requires Ready() && hostPage % OBJECT == 0 && a == hostPage + offset && 0 < |buf| <= OBJECT - offset
      requires Mem().RamRange(a, |buf|)
      modifies this`bound, this`owned, this`cpuRegistersObject, this`cpuSystemObject
      modifies heap, memcache`repr, memcache.repr
      ensures Ready() && memcache.Extended()
      ensures HasWritten(old(Snap()), a, Constants(buf))
    {
      assert Mem().Ram(a);
      InObject(hostPage, offset);
      var op := FindCached(hostPage, a);
      var os := Writeable(hostPage, op.os);
      ghost var s1 := Snap();
      KeptRam(old(Snap()), s1, a, |buf|);
      DmaWriteBytes(hostPage, os, offset, a, buf);
      KeptMore(old(Snap()), s1, Snap());
      UnalteredFirst(old(Mem()), s1.memory, Mem(), a, Constants(buf));
    }

    method DmaWriteBytes(hostPage: nat, os: nat, offset: nat, a: nat, buf: seq<nat>)
      requires Ready() && hostPage % OBJECT == 0 && a == hostPage + offset && |buf| <= OBJECT - offset
      requires Mem().RamRange(a, |buf|)
      requires hostPage in bound && bound[hostPage] == os && os in owned
      modifies this`bound, this`owned, this`cpuRegistersObject, this`cpuSystemObject
      modifies heap, memcache`repr, memcache.repr
      ensures Ready() && memcache.Extended()
      ensures HasWritten(old(Snap()), a, Constants(buf))
    {
      KeptSame(Snap());
      BecameNothing(Mem(), Mem(), a);
      assert Constants(buf[..0]) == [];
      for i := 0 to |buf|
        invariant Ready() && memcache.Extended()
        invariant hostPage in bound && bound[hostPage] == os && os in owned
        invariant HasWritten(old(Snap()), a, Constants(buf[..i]))
      {
        DmaWriteNext(hostPage, os, offset + i, a, buf, i, old(Snap()));
      }
      assert buf[..|buf|] == buf;
    }

    method DmaWriteNext(hostPage: nat, os: nat, k: nat, a: nat, buf: seq<nat>, i: nat, ghost s0: Snapshot)
      requires Ready() && hostPage % OBJECT == 0 && hostPage in bound && bound[hostPage] == os && os in owned
      requires k < OBJECT && a + i == hostPage + k && i < |buf| && s0.memory.RamRange(a, |buf|)
      requires HasWritten(s0, a, Constants(buf[..i]))
      modifies this`bound, this`owned, this`cpuRegistersObject, this`cpuSystemObject
      modifies heap, memcache`repr, memcache.repr
      ensures Ready() && memcache.Extended()
      ensures hostPage in bound && bound[hostPage] == os && os in owned
      ensures HasWritten(s0, a, Constants(buf[..i + 1]))
    {
      ghost var s1 := Snap();
      KeptRam(s0, s1, a, |buf|);
      DmaWriteByte(hostPage, os, k, a + i, buf[i]);
      ConstantsStep(buf, i);
      WriteFurther(s0, s1, a, a + i, Constants(buf[..i]), [Const(buf[i])], Constants(buf[..i + 1]));
    }

    method DmaWriteByte(hostPage: nat, os: nat, k: nat, h: nat, v: nat)
      requires Ready() && hostPage % OBJECT == 0 && hostPage in bound && bound[hostPage] == os && os in owned
      requires k < OBJECT && h == hostPage + k && Mem().Ram(h)
      modifies this`bound, this`owned, this`cpuRegistersObject, this`cpuSystemObject
      modifies heap, memcache`repr, memcache.repr
      ensures Ready() && memcache.Extended()
      ensures hostPage in bound && bound[hostPage] == os && os in owned
      ensures HasWritten(old(Snap()), h, [Const(v)])
    {
      InObject(hostPage, k);
      assert Mem().BoundAt(hostPage);
      if heap.objects[os][k].Const? {
        Write8(hostPage, os, k, h, Const(v));
      } else {
        assert Constants([v]) == [Const(v)];
        WriteRamConcrete(h, [v]);
        assert KeptObject(old(Snap()), Snap(), os) && KeptBinding(old(Snap()), Snap(), hostPage);
      }
    }

    /** The register object is written without asking for a writeable one. */
    method WriteCpuRegister(k: nat, e: Expr)
      requires Ready() && k < |Mem().Object(cpuRegistersState)|
      modifies heap`objects
      ensures Ready() && Kept(old(Snap()), Snap())
      ensures Mem().Object(cpuRegistersState) == old(Mem()).Object(cpuRegistersState)[k := e]
      ensures forall b :: b != cpuRegistersState ==> Mem().Object(b) == old(Mem()).Object(b)
    {
      assert Mem().BoundAt(cpuRegistersState);
      StoreOwn(cpuRegistersObject, k, e);
      KeptWrite(old(Snap()), cpuRegistersObject, k, e, Snap());
      forall b: nat | b != cpuRegistersState ensures Mem().Object(b) == old(Mem()).Object(b) {
        assert Mem().BoundApart(b, cpuRegistersState);
      }
    }

    /** Another state on the same heap: nothing is shared but object states that neither owns. */
    ghost predicate Detached(other: State)
      reads this, other, memcache, other.memcache
    {
      && heap == other.heap && this != other && memcache != other.memcache
      && this !in other.memcache.repr && other !in memcache.repr
      && memcache !in other.memcache.repr && other.memcache !in memcache.repr && memcache.repr !! other.memcache.repr
      && Exclusive(owned, other.bound) && Exclusive(other.owned, bound)
    }

    ghost predicate Beside(other: State)
      reads this, other, heap, memcache, other.memcache
    {
      Detached(other) && Owns(Snap()) && Owns(other.Snap())
    }

    lemma StillOwns(s: Snapshot)
      requires Kept(s, Snap()) && Owns(s) && heap.Valid()
      ensures Owns(Snap())
    {
      forall o: nat | o in heap.objects ensures o < heap.next {
        assert heap.Numbered(o);
      }
      OwnsKept(s, Snap());
    }

    /** After this state has done something: the other one is as it was, and still beside it. */
    lemma StillBeside(s: Snapshot, t: Snapshot, other: State)
      requires Kept(s, Snap()) && heap == other.heap && heap.Valid()
      requires Exclusive(s.owned, t.memory.bound) && Exclusive(t.owned, s.memory.bound) && Owns(s) && Owns(t)
      requires t.memory.WellBound()
      requires t.memory.objects == s.memory.objects && t.next == s.next && other.bound == t.memory.bound
      requires other.owned == t.owned
      ensures Exclusive(owned, other.bound) && Exclusive(other.owned, bound) && Owns(Snap()) && Owns(other.Snap())
      ensures Unaltered(t.memory, other.Mem()) && other.Mem().WellBound()
    {
      OthersUnaltered(s, Snap(), t.memory);
      OthersExclusive(s, Snap(), t, other.Snap());
      StillOwns(s);
    }

    /** Copy the CPU objects, which are written directly. */
    method TakeCpu()
      requires Coherent()
      modifies this, heap, memcache`repr, memcache.repr
      ensures Coherent() && memcache.Extended()
      ensures Kept(old(Snap()), Snap()) && Unaltered(old(Mem()), Mem()) && cpuRegistersObject in owned
      ensures cpuSystemObject in owned
      ensures constraints == old(constraints) && dirtyMaskObject == old(dirtyMaskObject)
      ensures bound[dirtyMask] == old(bound[dirtyMask])
      ensures Grew(old(heap.objects), heap.objects)
    {
      ghost var s0 := Snap();
      cpuRegistersObject := GetWriteable(cpuRegistersState, cpuRegistersObject);
      ghost var s1 := Snap();
      cpuSystemObject := GetWriteable(cpuSystemState, cpuSystemObject);
      KeptMore(s0, s1, Snap());
      GrewMore(s0.memory.objects, s1.memory.objects, heap.objects);
    }

    method TakeCpuBeside(ghost other: State)
      requires Coherent() && other.Coherent() && Beside(other)
      modifies this, heap, memcache`repr, memcache.repr
      ensures Coherent() && memcache.Extended()
      ensures Kept(old(Snap()), Snap()) && Unaltered(old(Mem()), Mem()) && cpuRegistersObject in owned
      ensures cpuSystemObject in owned
      ensures constraints == old(constraints) && dirtyMaskObject == old(dirtyMaskObject)
      ensures bound[dirtyMask] == old(bound[dirtyMask])
      ensures other.Coherent() && Beside(other) && Unaltered(old(other.Mem()), other.Mem())
      ensures Kept(old(other.Snap()), other.Snap())
    {
      ghost var s0, t0 := Snap(), other.Snap();
      TakeCpu();
      StillBeside(s0, t0, other);
      IdleKept(t0, other.Snap());
    }

    method TakeCpus(ret: State)
      requires Coherent() && ret.Coherent() && Beside(ret)
      modifies this, heap, memcache`repr, memcache.repr, ret, ret.memcache`repr, ret.memcache.repr
      ensures Coherent() && memcache.Extended()
      ensures ret.Coherent() && fresh(ret.memcache.repr - old(ret.memcache.repr)) && Beside(ret)
      ensures Unaltered(old(Mem()), Mem()) && Unaltered(old(ret.Mem()), ret.Mem())
      ensures Kept(old(Snap()), Snap()) && Kept(old(ret.Snap()), ret.Snap())
      ensures cpuRegistersObject in owned && cpuSystemObject in owned && ret.cpuRegistersObject in ret.owned
      ensures ret.cpuSystemObject in ret.owned
      ensures constraints == old(constraints) && ret.constraints == old(ret.constraints)
      ensures dirtyMaskObject == old(dirtyMaskObject) && bound[dirtyMask] == old(bound[dirtyMask])
      ensures ret.dirtyMaskObject == old(ret.dirtyMaskObject)
      ensures ret.bound[ret.dirtyMask] == old(ret.bound[ret.dirtyMask])
    {
      ghost var s0, t0 := Snap(), ret.Snap();
      ret.TakeCpuBeside(this);
      ghost var s1, t1 := Snap(), ret.Snap();
      TakeCpuBeside(ret);
      KeptMore(s0, s1, Snap());
      KeptMore(t0, t1, ret.Snap());
    }

    /** Copy the dirty mask. */
    method TakeMask()
      requires Coherent() && dirtyMaskObject == bound[dirtyMask]
      modifies this, heap, memcache`repr, memcache.repr
      ensures Coherent() && memcache.Extended()
      ensures Kept(old(Snap()), Snap()) && Unaltered(old(Mem()), Mem()) && Grew(old(heap.objects), heap.objects)
      ensures dirtyMaskObject == bound[dirtyMask] && owned == old(owned) + {dirtyMaskObject}
      ensures constraints == old(constraints)
      ensures cpuRegistersObject == old(cpuRegistersObject) && cpuSystemObject == old(cpuSystemObject)
    {
      dirtyMaskObject := GetWriteable(dirtyMask, dirtyMaskObject);
    }

    method TakeMaskBeside(ghost other: State)
      requires Coherent() && other.Coherent() && Beside(other) && dirtyMaskObject == bound[dirtyMask]
      modifies this, heap, memcache`repr, memcache.repr
      ensures Coherent() && memcache.Extended()
      ensures Kept(old(Snap()), Snap()) && Unaltered(old(Mem()), Mem())
      ensures dirtyMaskObject == bound[dirtyMask] && owned == old(owned) + {dirtyMaskObject}
      ensures constraints == old(constraints)
      ensures cpuRegistersObject == old(cpuRegistersObject) && cpuSystemObject == old(cpuSystemObject)
      ensures other.Coherent() && Beside(other) && Unaltered(old(other.Mem()), other.Mem())
      ensures Kept(old(other.Snap()), other.Snap())
    {
      ghost var s0, t0 := Snap(), other.Snap();
      TakeMask();
      StillBeside(s0, t0, other);
      IdleKept(t0, other.Snap());
    }

    method TakeMasks(ret: State)
      requires Coherent() && ret.Coherent() && Beside(ret)
      requires dirtyMaskObject == bound[dirtyMask] && ret.dirtyMaskObject == ret.bound[ret.dirtyMask]
      requires cpuRegistersObject in owned && cpuSystemObject in owned && ret.cpuRegistersObject in ret.owned
      requires ret.cpuSystemObject in ret.owned
      modifies this, heap, memcache`repr, memcache.repr, ret, ret.memcache`repr, ret.memcache.repr
      ensures Ready() && memcache.Extended()
      ensures ret.Ready() && fresh(ret.memcache.repr - old(ret.memcache.repr)) && Beside(ret)
      ensures Unaltered(old(Mem()), Mem()) && Unaltered(old(ret.Mem()), ret.Mem())
      ensures Kept(old(Snap()), Snap()) && Kept(old(ret.Snap()), ret.Snap())
      ensures constraints == old(constraints) && ret.constraints == old(ret.constraints)
    {
      ghost var s0, t0 := Snap(), ret.Snap();
      ret.TakeMaskBeside(this);
      ghost var s1, t1 := Snap(), ret.Snap();
      TakeMaskBeside(ret);
      KeptMore(s0, s1, Snap());
      KeptMore(t0, t1, ret.Snap());
    }

    /** A copy of the state. Neither owns the object states both have bound; the CPU objects and the dirty mask, which
        are written directly, are copied at once, in both. */
    method Clone() returns (ret: State)
      requires Ready()
      modifies this, heap, memcache`repr, memcache.repr
      ensures Ready() && memcache.Extended()
      ensures fresh(ret) && fresh(ret.memcache) && fresh(ret.memcache.repr) && ret.Ready() && Beside(ret)
      ensures ret.constraints == constraints == old(constraints)
      ensures Unaltered(old(Mem()), Mem()) && Unaltered(old(Mem()), ret.Mem())
      ensures Kept(old(Snap()).(owned := {}), Snap()) && Kept(old(Snap()).(owned := {}), ret.Snap())
    {
      ret := CloneBindings();
      TakeDirect(ret);
    }

    method TakeDirect(ret: State)
      requires Coherent() && ret.Coherent() && Beside(ret)
      requires dirtyMaskObject == bound[dirtyMask] && ret.dirtyMaskObject == ret.bound[ret.dirtyMask]
      modifies this, heap, memcache`repr, memcache.repr, ret, ret.memcache`repr, ret.memcache.repr
      ensures Ready() && memcache.Extended()
      ensures ret.Ready() && fresh(ret.memcache.repr - old(ret.memcache.repr)) && Beside(ret)
      ensures Unaltered(old(Mem()), Mem()) && Unaltered(old(ret.Mem()), ret.Mem())
      ensures Kept(old(Snap()), Snap()) && Kept(old(ret.Snap()), ret.Snap())
      ensures constraints == old(constraints) && ret.constraints == old(ret.constraints)
    {
      ghost var s0, t0 := Snap(), ret.Snap();
      TakeCpus(ret);
      ghost var s1, t1 := Snap(), ret.Snap();
      TakeMasks(ret);
      KeptMore(s0, s1, Snap());
      KeptMore(t0, t1, ret.Snap());
    }

    method CloneBindings() returns (ret: State)
      requires Ready()
      modifies this`owned
      ensures Coherent() && fresh(ret) && fresh(ret.memcache) && fresh(ret.memcache.repr) && ret.Coherent()
      ensures Beside(ret)
      ensures ret.constraints == constraints && Snap() == ret.Snap() == old(Snap()).(owned := {})
      ensures dirtyMaskObject == bound[dirtyMask] && ret.dirtyMaskObject == ret.bound[ret.dirtyMask]
    {
      ret := CopyEmpty();
      owned := {};
      forall b: nat ensures ExclusiveAt(owned, ret.bound, b) && ExclusiveAt(ret.owned, bound, b) {
      }
    }

    method CopyEmpty() returns (ret: State)
      requires Ready()
      ensures fresh(ret) && fresh(ret.memcache) && fresh(ret.memcache.repr) && ret.Coherent() && ret.heap == heap
      ensures ret.owned == {}
      ensures ret.bound == bound && ret.constraints == constraints && ret.dirtyMask == dirtyMask
      ensures ret.dirtyMaskObject == dirtyMaskObject
      ensures this !in ret.memcache.repr && memcache !in ret.memcache.repr && memcache.repr !! ret.memcache.repr
    {
      var cache := new Pool.CopyOf(memcache);
      ret := new State.CopyOf(this, cache);
      assert ret.Apart() && ret.Placed();
      assert forall a :: ret.Cached(a);
    }
  }
}
