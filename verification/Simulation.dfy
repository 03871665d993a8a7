/** One translated operation does to the machine what the operation does to the TCG state. */
module Simulation {
  import opened Options
  import opened Words
  import opened Tcg
  import opened LlvmIr
  import opened Translation

  /** An operand that has a value now and keeps it while code is only appended. */
  predicate Known(c: Cache, m: Machine, o: Operand) {
    (o.Reg? ==> o.id < c.next) && Eval(m, o).Some?
  }

  ghost predicate ValueOk(env: Env, ctx: Context, c: Cache, s: State, m: Machine, i: nat)
    requires Shaped(ctx, c) && i < |c.values|
  {
    c.values[i].Some? ==> Known(c, m, c.values[i].value) && Eval(m, c.values[i].value) == Read(env, ctx, s, i)
  }

  ghost predicate PtrOk(env: Env, ctx: Context, c: Cache, mem: Mem, m: Machine, i: nat)
    requires Shaped(ctx, c) && i < ctx.nbGlobals
  {
    c.ptrs[i].Some? ==> Known(c, m, c.ptrs[i].value) && Eval(m, c.ptrs[i].value) == Some(GlobalAddr(env, ctx, mem, i))
  }

  predicate LocalsTyped(ctx: Context, s: State) {
    forall i :: i in s.locals ==> i < |ctx.temps| && s.locals[i].w == ctx.temps[i].w
  }

  /** The translator's invariant: every cached value is its temp's current value and every cached address is
      its global's address. The cached value may be out of step for the one temp `ex` being assigned. */
  ghost predicate Match(env: Env, ctx: Context, c: Cache, s: State, m: Machine, ex: Option<nat>) {
    && Shaped(ctx, c)
    && m.mem == s.mem && m.slots == s.locals && LocalsTyped(ctx, s)
    && (forall i: nat :: i < |c.values| && ex != Some(i) ==> ValueOk(env, ctx, c, s, m, i))
    && (forall i: nat :: i < ctx.nbGlobals ==> PtrOk(env, ctx, c, s.mem, m, i))
  }

  /** The current block, run from m0, reaches m, and m matches s. */
  ghost predicate At(env: Env, ctx: Context, c: Cache, s: State, m0: Machine, m: Machine, ex: Option<nat>) {
    Exec(env, c.code, m0) == Next(m) && Match(env, ctx, c, s, m, ex)
  }

  predicate Keeps(c: Cache, m: Machine, m': Machine) {
    forall r :: r in m.regs && r < c.next ==> r in m'.regs && m'.regs[r] == m.regs[r]
  }

  lemma KnownKept(c: Cache, c': Cache, m: Machine, m': Machine, o: Operand)
    requires Known(c, m, o) && Keeps(c, m, m') && c.next <= c'.next
    ensures Known(c', m', o) && Eval(m', o) == Eval(m, o)
  {
  }

  lemma MatchKept(env: Env, ctx: Context, c: Cache, c': Cache, s: State, m: Machine, m': Machine, ex: Option<nat>)
    requires Match(env, ctx, c, s, m, ex) && Keeps(c, m, m') && c.next <= c'.next
    requires c'.values == c.values && c'.ptrs == c.ptrs && m'.mem == m.mem && m'.slots == m.slots
    ensures Match(env, ctx, c', s, m', ex)
  {
    forall i: nat | i < |c.values| && ex != Some(i) ensures ValueOk(env, ctx, c', s, m', i) {
      assert ValueOk(env, ctx, c, s, m, i);
    }
    forall i: nat | i < ctx.nbGlobals ensures PtrOk(env, ctx, c', s.mem, m', i) {
      assert PtrOk(env, ctx, c, s.mem, m, i);
    }
  }

  lemma CacheValue(env: Env, ctx: Context, c: Cache, s: State, m: Machine, ex: Option<nat>, i: nat, v: Operand)
    requires Match(env, ctx, c, s, m, ex) && i < |c.values|
    requires Known(c, m, v) && Eval(m, v) == Read(env, ctx, s, i)
    ensures Match(env, ctx, c.(values := c.values[i := Some(v)]), s, m, ex)
  {
    var c' := c.(values := c.values[i := Some(v)]);
    forall j: nat | j < |c.values| && ex != Some(j) ensures ValueOk(env, ctx, c', s, m, j) {
      assert ValueOk(env, ctx, c, s, m, j);
    }
    forall j: nat | j < ctx.nbGlobals ensures PtrOk(env, ctx, c', s.mem, m, j) {
      assert PtrOk(env, ctx, c, s.mem, m, j);
    }
  }

  lemma CachePtr(env: Env, ctx: Context, c: Cache, s: State, m: Machine, ex: Option<nat>, i: nat, p: Operand)
    requires Match(env, ctx, c, s, m, ex) && i < ctx.nbGlobals
    requires Known(c, m, p) && Eval(m, p) == Some(GlobalAddr(env, ctx, s.mem, i))
    ensures Match(env, ctx, c.(ptrs := c.ptrs[i := Some(p)]), s, m, ex)
  {
    var c' := c.(ptrs := c.ptrs[i := Some(p)]);
    forall j: nat | j < |c.values| && ex != Some(j) ensures ValueOk(env, ctx, c', s, m, j) {
      assert ValueOk(env, ctx, c, s, m, j);
    }
    forall j: nat | j < ctx.nbGlobals ensures PtrOk(env, ctx, c', s.mem, m, j) {
      assert PtrOk(env, ctx, c, s.mem, m, j);
    }
  }

  /** Appending one instruction that defines a register. */
  lemma DefSim(env: Env, ctx: Context, c: Cache, s: State, m0: Machine, m: Machine, ex: Option<nat>, i: Instr, x: Word)
    returns (m': Machine)
    requires At(env, ctx, c, s, m0, m, ex)
    requires Exec1(env, i, m) == Next(m.(regs := m.regs[c.next := x]))
    ensures At(env, ctx, Def(ctx, c, i), s, m0, m', ex) && Keeps(c, m, m')
    ensures Known(Def(ctx, c, i), m', Reg(c.next, x.w)) && Eval(m', Reg(c.next, x.w)) == Some(x)
  {
    m' := m.(regs := m.regs[c.next := x]);
    ExecConcat(env, c.code, [i], m0);
    assert [i][1..] == [];
    assert Exec(env, [i], m) == Next(m');
    MatchKept(env, ctx, c, Def(ctx, c, i), s, m, m', ex);
  }

  lemma BinRuns(env: Env, m: Machine, d: nat, op: BinOp, oa: Operand, ob: Operand, a: Word, b: Word, x: Word)
    requires Eval(m, oa) == Some(a) && Eval(m, ob) == Some(b) && Compute(op, a, b) == Some(x)
    ensures Exec1(env, Bin(d, op, oa, ob), m) == Next(m.(regs := m.regs[d := x]))
  {
  }

  lemma GetValueSim(env: Env, ctx: Context, c: Cache, s: State, m0: Machine, m: Machine, ex: Option<nat>, i: nat)
    returns (m': Machine)
    requires At(env, ctx, c, s, m0, m, ex) && ex != Some(i)
    requires ex.Some? ==> ex.value < |ctx.temps| && !ctx.temps[ex.value].kind.FixedReg?
    requires GetValue(ctx, c, i).Some? && Read(env, ctx, s, i).Some?
    ensures var (c', v) := GetValue(ctx, c, i).value;
      && At(env, ctx, c', s, m0, m', ex) && Keeps(c, m, m')
      && Known(c', m', v) && Eval(m', v) == Read(env, ctx, s, i)
    decreases if i < ctx.nbGlobals && ctx.temps[i].kind.InMemory? then 3 else 1
  {
    var w := ctx.temps[i].w;
    if c.values[i].Some? {
      m' := m;
      assert ValueOk(env, ctx, c, s, m, i);
    } else if i < ctx.nbGlobals {
      var (c1, p) := GetPtr(ctx, c, i).value;
      var m1 := GetPtrSim(env, ctx, c, s, m0, m, ex, i);
      LoadRuns(env, m1, c1.next, w, p, GlobalAddr(env, ctx, s.mem, i));
      m' := FreshValueSim(env, ctx, c1, s, m0, m1, ex, i, LoadMem(c1.next, w, p));
    } else {
      m' := FreshValueSim(env, ctx, c, s, m0, m, ex, i, LoadSlot(c.next, w, i));
    }
  }

  lemma LoadRuns(env: Env, m: Machine, d: nat, w: Width, p: Operand, a: Word)
    requires Eval(m, p) == Some(a) && a.w == W64
    ensures Exec1(env, LoadMem(d, w, p), m) == Next(m.(regs := m.regs[d := Load(m.mem, a.bits, w)]))
  {
  }

  /** An instruction that loads temp i, whose value is then cached. */
  lemma FreshValueSim(env: Env, ctx: Context, c: Cache, s: State, m0: Machine, m: Machine, ex: Option<nat>, i: nat,
                      instr: Instr)
    returns (m': Machine)
    requires At(env, ctx, c, s, m0, m, ex) && i < |ctx.temps|
    requires Read(env, ctx, s, i).Some? && Read(env, ctx, s, i).value.w == ctx.temps[i].w
    requires Exec1(env, instr, m) == Next(m.(regs := m.regs[c.next := Read(env, ctx, s, i).value]))
    ensures var c' := Def(ctx, c, instr);
      var v := Reg(c.next, ctx.temps[i].w);
      && At(env, ctx, c'.(values := c'.values[i := Some(v)]), s, m0, m', ex) && Keeps(c, m, m')
      && Known(c', m', v) && Eval(m', v) == Read(env, ctx, s, i)
  {
    m' := DefSim(env, ctx, c, s, m0, m, ex, instr, Read(env, ctx, s, i).value);
    CacheValue(env, ctx, Def(ctx, c, instr), s, m', ex, i, Reg(c.next, ctx.temps[i].w));
  }

  lemma GetPtrSim(env: Env, ctx: Context, c: Cache, s: State, m0: Machine, m: Machine, ex: Option<nat>, i: nat)
    returns (m': Machine)
    requires At(env, ctx, c, s, m0, m, ex) && i < ctx.nbGlobals
    requires ex.Some? ==> ex.value < |ctx.temps| && !ctx.temps[ex.value].kind.FixedReg?
    requires GetPtr(ctx, c, i).Some?
    ensures var (c', p) := GetPtr(ctx, c, i).value;
      && At(env, ctx, c', s, m0, m', ex) && Keeps(c, m, m')
      && Known(c', m', p) && Eval(m', p) == Some(GlobalAddr(env, ctx, s.mem, i))
    decreases if ctx.temps[i].kind.InMemory? then 2 else 0
  {
    var a := GlobalAddr(env, ctx, s.mem, i);
    if c.ptrs[i].Some? {
      m' := m;
      assert PtrOk(env, ctx, c, s.mem, m, i);
    } else if ctx.temps[i].kind.FixedReg? {
      var instr := ArgPtr(c.next, FixedCount(ctx, i));
      m' := DefSim(env, ctx, c, s, m0, m, ex, instr, a);
      CachePtr(env, ctx, Def(ctx, c, instr), s, m', ex, i, Reg(c.next, W64));
    } else {
      var (c1, v) := GetValue(ctx, c, Base(ctx, i)).value;
      var m1 := GetValueSim(env, ctx, c, s, m0, m, ex, Base(ctx, i));
      m' := OffsetSim(env, ctx, c1, s, m0, m1, ex, i, v);
    }
  }

  /** The address of a memory global from the value of its base. */
  lemma OffsetSim(env: Env, ctx: Context, c: Cache, s: State, m0: Machine, m: Machine, ex: Option<nat>, i: nat,
                  v: Operand)
    returns (m': Machine)
    requires At(env, ctx, c, s, m0, m, ex) && i < ctx.nbGlobals && ctx.temps[i].kind.InMemory?
    requires Eval(m, v) == Read(env, ctx, s, Base(ctx, i))
    ensures var c' := Def(ctx, c, Bin(c.next, BinOp.Add, v, Const(Cut(W64, ctx.temps[i].kind.memOffset))));
      && At(env, ctx, c'.(ptrs := c'.ptrs[i := Some(Reg(c.next, W64))]), s, m0, m', ex) && Keeps(c, m, m')
      && Known(c', m', Reg(c.next, W64)) && Eval(m', Reg(c.next, W64)) == Some(GlobalAddr(env, ctx, s.mem, i))
  {
    var a := GlobalAddr(env, ctx, s.mem, i);
    var ofs := Cut(W64, ctx.temps[i].kind.memOffset);
    var instr := Bin(c.next, BinOp.Add, v, Const(ofs));
    BinRuns(env, m, c.next, BinOp.Add, v, Const(ofs), Eval(m, v).value, ofs, a);
    m' := DefSim(env, ctx, c, s, m0, m, ex, instr, a);
    CachePtr(env, ctx, Def(ctx, c, instr), s, m', ex, i, Reg(c.next, W64));
  }

  // ----- assignment -----

  lemma ContentStays(env: Env, ctx: Context, mem: Mem, a: nat, x: Word, except: Option<nat>, j: nat)
    requires GoodContext(ctx) && Separate(env, ctx, mem, a, x.w, except) && j < ctx.nbGlobals && except != Some(j)
    ensures Load(Store(mem, a, x), GlobalAddr(env, ctx, mem, j).bits, ctx.temps[j].w)
         == Load(mem, GlobalAddr(env, ctx, mem, j).bits, ctx.temps[j].w)
  {
    StoreElsewhere(mem, a, x, GlobalAddr(env, ctx, mem, j).bits, ctx.temps[j].w);
  }

  /** A global's address depends on memory through its base register only. */
  lemma AddrFromBase(env: Env, ctx: Context, mem: Mem, mem': Mem, j: nat)
    requires GoodContext(ctx) && j < ctx.nbGlobals
    requires ctx.temps[j].kind.InMemory? ==>
      var b := GlobalAddr(env, ctx, mem, Base(ctx, j)).bits;
      Load(mem', b, W64) == Load(mem, b, W64)
    ensures GlobalAddr(env, ctx, mem', j) == GlobalAddr(env, ctx, mem, j)
  {
  }

  /** A store that touches no global except one that is not a base moves no global and changes no other. */
  lemma GlobalsAfterStore(env: Env, ctx: Context, mem: Mem, a: nat, x: Word, except: Option<nat>, j: nat)
    requires GoodContext(ctx) && Separate(env, ctx, mem, a, x.w, except) && j < ctx.nbGlobals
    requires except.Some? && except.value < ctx.nbGlobals ==> !ctx.temps[except.value].kind.FixedReg?
    ensures GlobalAddr(env, ctx, Store(mem, a, x), j) == GlobalAddr(env, ctx, mem, j)
    ensures except != Some(j) ==>
      Load(Store(mem, a, x), GlobalAddr(env, ctx, mem, j).bits, ctx.temps[j].w)
        == Load(mem, GlobalAddr(env, ctx, mem, j).bits, ctx.temps[j].w)
  {
    if ctx.temps[j].kind.InMemory? {
      ContentStays(env, ctx, mem, a, x, except, Base(ctx, j));
    }
    AddrFromBase(env, ctx, mem, Store(mem, a, x), j);
    if except != Some(j) {
      ContentStays(env, ctx, mem, a, x, except, j);
    }
  }

  /** After a store that keeps clear of the globals, or that assigns one of them, the caches are right. */
  lemma MatchStored(env: Env, ctx: Context, c: Cache, s: State, m: Machine, a: nat, x: Word, ex: Option<nat>)
    requires Match(env, ctx, c, s, m, ex) && Separate(env, ctx, s.mem, a, x.w, ex)
    requires ex.Some? ==>
      && ex.value < ctx.nbGlobals && !ctx.temps[ex.value].kind.FixedReg? && x.w == ctx.temps[ex.value].w
      && a == GlobalAddr(env, ctx, s.mem, ex.value).bits
      && c.values[ex.value].Some? && Known(c, m, c.values[ex.value].value)
      && Eval(m, c.values[ex.value].value) == Some(x)
    ensures Match(env, ctx, c, s.(mem := Store(s.mem, a, x)), m.(mem := Store(s.mem, a, x)), None)
  {
    var s', m' := s.(mem := Store(s.mem, a, x)), m.(mem := Store(s.mem, a, x));
    forall j: nat | j < |c.values| ensures ValueOk(env, ctx, c, s', m', j) {
      if j < ctx.nbGlobals { GlobalsAfterStore(env, ctx, s.mem, a, x, ex, j); }
      if ex == Some(j) {
        LoadStored(s.mem, a, x);
      } else {
        assert ValueOk(env, ctx, c, s, m, j);
      }
    }
    forall j: nat | j < ctx.nbGlobals ensures PtrOk(env, ctx, c, s'.mem, m', j) {
      GlobalsAfterStore(env, ctx, s.mem, a, x, ex, j);
      assert PtrOk(env, ctx, c, s.mem, m, j);
    }
  }

  /** Appending one store to memory. */
  lemma PutStoreSim(env: Env, ctx: Context, c: Cache, s: State, m0: Machine, m: Machine, v: Operand, p: Operand,
                    a: Word, x: Word, ex: Option<nat>)
    returns (m': Machine)
    requires At(env, ctx, c, s, m0, m, ex) && Separate(env, ctx, s.mem, a.bits, x.w, ex)
    requires Eval(m, v) == Some(x) && Eval(m, p) == Some(a) && a.w == W64
    requires ex.Some? ==>
      && ex.value < ctx.nbGlobals && !ctx.temps[ex.value].kind.FixedReg? && x.w == ctx.temps[ex.value].w
      && a == GlobalAddr(env, ctx, s.mem, ex.value)
      && c.values[ex.value] == Some(v) && Known(c, m, v)
    ensures At(env, ctx, Put(ctx, c, StoreMem(v, p)), s.(mem := Store(s.mem, a.bits, x)), m0, m', None)
    ensures Keeps(c, m, m')
  {
    m' := m.(mem := Store(s.mem, a.bits, x));
    ExecConcat(env, c.code, [StoreMem(v, p)], m0);
    assert [StoreMem(v, p)][1..] == [];
    assert Exec(env, [StoreMem(v, p)], m) == Next(m');
    MatchStored(env, ctx, c, s, m, a.bits, x, ex);
    assert Match(env, ctx, Put(ctx, c, StoreMem(v, p)), s.(mem := Store(s.mem, a.bits, x)), m', None) by {
      MatchKept(env, ctx, c, Put(ctx, c, StoreMem(v, p)), s.(mem := Store(s.mem, a.bits, x)), m', m', None);
    }
  }

  /** Caching the new value of temp idx breaks the match at idx only. */
  lemma CacheAssigned(env: Env, ctx: Context, c: Cache, s: State, m: Machine, idx: nat, v: Operand)
    requires Match(env, ctx, c, s, m, None) && idx < |c.values|
    ensures Match(env, ctx, c.(values := c.values[idx := Some(v)]), s, m, Some(idx))
  {
    var c' := c.(values := c.values[idx := Some(v)]);
    forall j: nat | j < |c.values| && Some(idx) != Some(j) ensures ValueOk(env, ctx, c', s, m, j) {
      assert ValueOk(env, ctx, c, s, m, j);
    }
    forall j: nat | j < ctx.nbGlobals ensures PtrOk(env, ctx, c', s.mem, m, j) {
      assert PtrOk(env, ctx, c, s.mem, m, j);
    }
  }

  /** A variable assignment: the match is restored at idx. */
  lemma VariableAssigned(env: Env, ctx: Context, c: Cache, s: State, s': State, m: Machine, m': Machine, idx: nat,
                         x: Word)
    requires Match(env, ctx, c, s, m, Some(idx)) && ctx.nbGlobals <= idx < |c.values| && x.w == ctx.temps[idx].w
    requires c.values[idx].Some? && Known(c, m, c.values[idx].value) && Eval(m, c.values[idx].value) == Some(x)
    requires Write(env, ctx, s, idx, x) == Some(s')
    requires m' == m.(slots := s'.locals)
    ensures Match(env, ctx, c, s', m', None)
  {
    forall j: nat | j < |c.values| ensures ValueOk(env, ctx, c, s', m', j) {
      if j != idx { assert ValueOk(env, ctx, c, s, m, j); }
    }
    forall j: nat | j < ctx.nbGlobals ensures PtrOk(env, ctx, c, s'.mem, m', j) {
      assert PtrOk(env, ctx, c, s.mem, m, j);
    }
  }

  lemma SetValueSim(env: Env, ctx: Context, c: Cache, s: State, m0: Machine, m: Machine, idx: nat, v: Operand, x: Word)
    returns (m': Machine)
    requires At(env, ctx, c, s, m0, m, None) && Known(c, m, v) && Eval(m, v) == Some(x)
    requires SetValue(ctx, c, idx, v).Some? && Write(env, ctx, s, idx, x).Some?
    ensures At(env, ctx, SetValue(ctx, c, idx, v).value, Write(env, ctx, s, idx, x).value, m0, m', None)
    ensures Keeps(c, m, m')
  {
    var c1 := c.(values := c.values[idx := Some(v)]);
    CacheAssigned(env, ctx, c, s, m, idx, v);
    if idx < ctx.nbGlobals {
      var (c2, p) := GetPtr(ctx, c1, idx).value;
      var m1 := GetPtrSim(env, ctx, c1, s, m0, m, Some(idx), idx);
      PtrKeepsValues(ctx, c1, idx, idx);
      KnownKept(c1, c2, m, m1, v);
      m' := PutStoreSim(env, ctx, c2, s, m0, m1, v, p, GlobalAddr(env, ctx, s.mem, idx), x, Some(idx));
    } else {
      var s' := Write(env, ctx, s, idx, x).value;
      m' := m.(slots := s'.locals);
      VariableAssigned(env, ctx, c1, s, s', m, m', idx, x);
      if ctx.temps[idx].kind.Local? {
        ExecConcat(env, c1.code, [StoreSlot(v, idx)], m0);
        assert [StoreSlot(v, idx)][1..] == [];
        assert Exec(env, [StoreSlot(v, idx)], m) == Next(m');
        MatchKept(env, ctx, c1, Put(ctx, c1, StoreSlot(v, idx)), s', m', m', None);
      }
    }
  }

  /** Computing an address or a value never drops what is cached for another temp. */
  lemma PtrKeepsValues(ctx: Context, c: Cache, idx: nat, j: nat)
    requires Shaped(ctx, c) && idx < ctx.nbGlobals && GetPtr(ctx, c, idx).Some?
    requires j < |c.values| && c.values[j].Some?
    ensures GetPtr(ctx, c, idx).value.0.values[j] == c.values[j]
    decreases if ctx.temps[idx].kind.InMemory? then 2 else 0
  {
    if c.ptrs[idx].None? && ctx.temps[idx].kind.InMemory? {
      var b := Base(ctx, idx);
      if c.values[b].None? {
        PtrKeepsValues(ctx, c, b, j);
      }
    }
  }
}
