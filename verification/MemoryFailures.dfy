/** Inputs at which memory accesses of an execution state do not do what they are for. */
module MemoryFailures {
  import opened Expressions
  import opened MemoryCache
  import opened MemoryCachePool
  import opened AddressSpaces
  import opened Pages
  import opened ExecutionMemory
  import opened Options
  import Words

  /** Host addresses as they are. */
  function Plain(a: nat): Option<nat> { Some(a) }

  /** Two pages, all of whose bytes are e in the one and f in the other. */
  function Filled(e: Expr, f: Expr): (r: seq<Expr>)
    ensures |r| == 2 * PAGE && forall i :: 0 <= i < |r| ==> r[i] == if i < PAGE then e else f
  {
    seq(2 * PAGE, i => if i < PAGE then e else f)
  }

  lemma FilledAt(m: Memory, m': Memory, e: Expr, f: Expr)
    requires Became(m, m', PAGE, Filled(e, f))
    ensures forall h {:trigger m'.At(h)} :: PAGE <= h < 3 * PAGE ==> m'.At(h) == if h < 2 * PAGE then e else f
  {
    forall h | PAGE <= h < 3 * PAGE ensures m'.At(h) == if h < 2 * PAGE then e else f {
      assert BecameAt(m, m', PAGE, Filled(e, f), h);
    }
  }

  /** A state without memory. */
  method Started() returns (s: State)
    ensures fresh(s) && fresh(s.heap) && fresh(s.memcache) && fresh(s.memcache.repr)
    ensures s.Ready() && Owns(s.Snap()) && s.constraints == [] && s.memcache.Ranges() == []
    ensures forall b :: b in s.bound ==> b < PAGE
  {
    var heap := new Heap();
    s := new State.Initial(heap, 1, 2, 3, [], [], []);
  }

  /** A state with such pages from PAGE on. */
  method TwoPages(e: Expr, f: Expr) returns (s: State)
    ensures fresh(s) && fresh(s.heap) && fresh(s.memcache) && fresh(s.memcache.repr)
    ensures s.Ready() && s.constraints == [] && s.Mem().RamRange(PAGE, 2 * PAGE)
    ensures forall h {:trigger s.Mem().At(h)} :: PAGE <= h < 3 * PAGE ==> s.Mem().At(h) == if h < 2 * PAGE then e else f
  {
    s := Started();
    ghost var m := s.Mem();
    s.RegisterRam(PAGE, 2 * PAGE, Filled(e, f));
    FilledAt(m, s.Mem(), e, f);
  }

  lemma PlainMapped(m: Memory, a: nat, n: nat)
    requires m.RamRange(a, n)
    ensures PageWise(Plain) && Backed(m, Plain, a, n) && Reach(Plain, a, n) == n
  {
    forall b: nat, k: nat ensures Adjacent(Plain, b, k) {
    }
    forall b: nat ensures SameOffset(Plain, b) {
    }
    forall i: nat | i < n ensures BackedAt(m, Plain, a, i) {
      assert m.Ram(a + i);
    }
    ReachIs(Plain, a, n, n);
  }

  /** A constant of two bytes, all of them mapped, that is not written because it leaves its object. */
  method ConstantNotWritten() returns (s: State, a: nat, r: Outcome)
    ensures s.Ready() && Reach(Plain, a, 2) == 2 && r == Aborted && s.Mem().At(a) == s.Mem().At(a + 1) == Const(0)
  {
    s := TwoPages(Const(0), Const(0));
    a := PAGE + OBJECT - 1;
    ghost var m := s.Mem();
    assert m.RamRange(a, 2);
    PlainMapped(m, a, 2);
    r := s.WriteMemory(a, Const(0x0101), 2, Plain);
  }

  /** A byte about which nothing is known. */
  const UNKNOWN := Byte(Var(0), 0)

  lemma NoOneValue(v: nat)
    ensures (forall asg :: Eval(UNKNOWN, asg) < 0x100) && exists asg :: Eval(UNKNOWN, asg) != v
  {
    forall asg ensures Eval(UNKNOWN, asg) == Words.ByteOf(asg(0), 0) < 0x100 {
    }
    var asg: Assignment := _ => if v == 0 then 1 else 0;
    assert Eval(UNKNOWN, asg) != v;
  }

  /** Such a byte, in a state without constraints, has a single value after it was read for an example. */
  method ExampleChangesMeaning(solver: Solver) returns (s: State, result: nat)
    requires Sound(solver)
    ensures s.Ready() && s.constraints == [] && s.Mem().At(PAGE) == Const(result)
    ensures exists asg :: Meets(asg, s.constraints) && Eval(s.Mem().At(PAGE), asg) != Eval(UNKNOWN, asg)
  {
    s := TwoPages(UNKNOWN, Const(0));
    assert s.Mem().Ram(PAGE);
    NoOneValue(0);
    result := ReadExample(s, PAGE, solver);
    NoOneValue(result);
    ghost var asg: Assignment :| Eval(UNKNOWN, asg) != result;
    assert Meets(asg, s.constraints);
  }

  /** Read a byte without a constraint, in a state that has none. */
  method ReadExample(s: State, a: nat, solver: Solver) returns (result: nat)
    requires s.Ready() && Sound(solver) && s.constraints == [] && s.Mem().Ram(a)
    requires forall asg :: Eval(s.Mem().At(a), asg) < 0x100
    modifies s, s.heap, s.memcache`repr, s.memcache.repr
    ensures s.Ready() && s.constraints == [] && s.Mem().At(a) == Const(result)
  {
    ghost var m := s.Mem();
    PlainMapped(m, a, 1);
    assert Meets(_ => 0, s.constraints);
    var ok;
    ok, result := s.ReadMemoryConcrete8(a, Plain, Plain, false, solver);
    assert BecameAt(m, s.Mem(), a, [Const(result)], a);
  }

  /** The page table that maps the first page of memory to the second, and nothing else. */
  function NextPage(p: nat): Option<nat> { if p == PAGE then Some(2 * PAGE) else None }

  /** A byte that is 7 is read by its host address, with a constraint; the byte that has this address as a virtual one
      is 0 before and 7 afterwards. */
  method WrittenElsewhere(solver: Solver) returns (s: State, ok: bool, result: nat)
    requires Sound(solver)
    ensures s.Ready() && ok && result == 7 && HostAddress(NextPage, PAGE) == Some(2 * PAGE)
    ensures s.Mem().At(PAGE) == Const(7) && s.Mem().At(2 * PAGE) == Const(7) && s.Mem().At(2 * PAGE + 1) == Const(0)
  {
    s := TwoPages(Const(7), Const(0));
    ghost var m := s.Mem();
    HostsPageWise(NextPage);
    assert Meets(_ => 0, s.constraints) && m.Ram(PAGE) && m.Ram(2 * PAGE);
    ghost var before := s.constraints;
    assert m.At(PAGE) == Const(7);
    ok, result := s.ReadMemoryConcrete8(PAGE, Plain, HostsOf(NextPage), true, solver);
    SevenRead(m, before, s.constraints, result);
    assert BecameAt(m, s.Mem(), 2 * PAGE, [Const(result)], PAGE);
    assert BecameAt(m, s.Mem(), 2 * PAGE, [Const(result)], 2 * PAGE);
    assert BecameAt(m, s.Mem(), 2 * PAGE, [Const(result)], 2 * PAGE + 1);
  }

  lemma SevenRead(m: Memory, c: seq<Expr>, c': seq<Expr>, v: nat)
    requires m.At(PAGE) == Const(7) && Narrowed(c, c', m.Bytes(PAGE, 1), [v]) && Satisfiable(c)
    ensures v == 7
  {
    OneByte(m, PAGE);
    var a: Assignment :| Meets(a, c);
    assert NarrowedFor(a, c, c', m.Bytes(PAGE, 1), [v]);
    var b: Assignment :| Meets(b, c');
    assert NarrowedFor(b, c, c', m.Bytes(PAGE, 1), [v]) && [v][0] == v;
  }

  /** The same read of a byte that is mapped by its host address only fails, after it has added its constraint. */
  method NotWrittenBack(solver: Solver) returns (s: State, ok: bool, result: nat)
    requires Sound(solver)
    ensures s.Ready() && !ok && s.Mem().At(PAGE) == UNKNOWN && HostAddress(Nowhere, PAGE) == None
    ensures exists asg :: !Meets(asg, s.constraints)
  {
    s := TwoPages(UNKNOWN, Const(0));
    ghost var m, before := s.Mem(), s.constraints;
    HostsPageWise(Nowhere);
    NoOneValue(0);
    assert Meets(_ => 0, s.constraints) && m.Ram(PAGE) && m.At(PAGE) == UNKNOWN;
    ok, result := s.ReadMemoryConcrete8(PAGE, Plain, HostsOf(Nowhere), true, solver);
    Pinned(m, before, s.constraints, result);
  }

  lemma Pinned(m: Memory, c: seq<Expr>, c': seq<Expr>, v: nat)
    requires m.At(PAGE) == UNKNOWN && Narrowed(c, c', m.Bytes(PAGE, 1), [v])
    ensures exists asg :: !Meets(asg, c')
  {
    NoOneValue(v);
    var asg: Assignment :| Eval(UNKNOWN, asg) != v;
    OneByte(m, PAGE);
    assert NarrowedFor(asg, c, c', m.Bytes(PAGE, 1), [v]) && [v][0] == v;
  }

  /** The page table that maps nothing. */
  function Nowhere(p: nat): Option<nat> { None }
}
