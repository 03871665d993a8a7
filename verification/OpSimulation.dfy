/** Each straight-line operation, translated and run, has the operation's own effect. */
module OpSimulation {
  import opened Options
  import opened Words
  import opened Tcg
  import opened LlvmIr
  import opened Translation
  import opened Simulation
  import opened BitLaws
  import opened NumberLaws

  // ----- emitted instructions -----

  lemma BinSim(env: Env, ctx: Context, c: Cache, s: State, m0: Machine, m: Machine, op: BinOp,
               oa: Operand, ob: Operand, a: Word, b: Word, x: Word)
    returns (m': Machine)
    requires At(env, ctx, c, s, m0, m, None)
    requires Eval(m, oa) == Some(a) && Eval(m, ob) == Some(b) && Compute(op, a, b) == Some(x)
    ensures var (c', o) := EmitBin(ctx, c, op, oa, ob);
      At(env, ctx, c', s, m0, m', None) && Keeps(c, m, m') && Known(c', m', o) && Eval(m', o) == Some(x)
  {
    BinRuns(env, m, c.next, op, oa, ob, a, b, x);
    m' := DefSim(env, ctx, c, s, m0, m, None, Bin(c.next, op, oa, ob), x);
  }

  lemma TruncSim(env: Env, ctx: Context, c: Cache, s: State, m0: Machine, m: Machine, w: Width, o: Operand, x: Word)
    returns (m': Machine)
    requires At(env, ctx, c, s, m0, m, None)
    requires Known(c, m, o) && Eval(m, o) == Some(x) && BitCount(w) <= BitCount(x.w)
    ensures var (c', o') := EmitTrunc(ctx, c, w, o);
      At(env, ctx, c', s, m0, m', None) && Keeps(c, m, m') && Known(c', m', o') && Eval(m', o') == Some(Cut(w, x.bits))
  {
    if x.w == w {
      m' := m;
      CutSame(x);
    } else {
      m' := DefSim(env, ctx, c, s, m0, m, None, Trunc(c.next, w, o), Cut(w, x.bits));
    }
  }

  lemma WidenSame(signed: bool, x: Word)
    ensures Widen(signed, x.w, x) == x
  {
  }

  lemma ExtSim(env: Env, ctx: Context, c: Cache, s: State, m0: Machine, m: Machine, signed: bool, w: Width,
               o: Operand, x: Word)
    returns (m': Machine)
    requires At(env, ctx, c, s, m0, m, None)
    requires Known(c, m, o) && Eval(m, o) == Some(x) && BitCount(x.w) <= BitCount(w)
    ensures var (c', o') := EmitExt(ctx, c, signed, w, o);
      At(env, ctx, c', s, m0, m', None) && Keeps(c, m, m') && Known(c', m', o')
      && Eval(m', o') == Some(Widen(signed, w, x))
  {
    if x.w == w {
      m' := m;
      WidenSame(signed, x);
    } else {
      var i := if signed then SExt(c.next, w, o) else ZExt(c.next, w, o);
      m' := DefSim(env, ctx, c, s, m0, m, None, i, Widen(signed, w, x));
    }
  }

  lemma AdjustSim(env: Env, ctx: Context, c: Cache, s: State, m0: Machine, m: Machine, w: Width, o: Operand, x: Word)
    returns (m': Machine)
    requires At(env, ctx, c, s, m0, m, None)
    requires Known(c, m, o) && Eval(m, o) == Some(x) && Adjust(ctx, c, w, o).Some?
    ensures var (c', o') := Adjust(ctx, c, w, o).value;
      At(env, ctx, c', s, m0, m', None) && Keeps(c, m, m') && Known(c', m', o') && Eval(m', o') == Narrow(w, x)
  {
    if x.w == w {
      m' := m;
    } else {
      m' := TruncSim(env, ctx, c, s, m0, m, W32, o, x);
    }
  }

  lemma AddrSim(env: Env, ctx: Context, c: Cache, s: State, m0: Machine, m: Machine, o: Operand, b: Word, ofs: int)
    returns (m': Machine)
    requires At(env, ctx, c, s, m0, m, None)
    requires Known(c, m, o) && Eval(m, o) == Some(b) && EmitAddr(ctx, c, o, ofs).Some?
    ensures var (c', p) := EmitAddr(ctx, c, o, ofs).value;
      At(env, ctx, c', s, m0, m', None) && Keeps(c, m, m') && Known(c', m', p)
      && Eval(m', p) == Some(Displaced(b, ofs))
  {
    m' := BinSim(env, ctx, c, s, m0, m, BinOp.Add, o, Const(Cut(W64, ofs)), b, Cut(W64, ofs),
                 Displaced(b, ofs));
  }

  lemma ArgsSim(env: Env, ctx: Context, c: Cache, s: State, m0: Machine, m: Machine, args: seq<CallArg>)
    returns (m': Machine)
    requires At(env, ctx, c, s, m0, m, None)
    requires GetArgs(ctx, c, args).Some? && ReadArgs(env, ctx, s, args).Some?
    ensures var (c', os) := GetArgs(ctx, c, args).value;
      && At(env, ctx, c', s, m0, m', None) && Keeps(c, m, m')
      && EvalAll(m', os) == ReadArgs(env, ctx, s, args)
    decreases args
  {
    if args == [] {
      m' := m;
    } else if args[0].Dummy? {
      m' := ArgsSim(env, ctx, c, s, m0, m, args[1..]);
    } else {
      var m1 := GetValueSim(env, ctx, c, s, m0, m, None, args[0].t);
      var (c1, o) := GetValue(ctx, c, args[0].t).value;
      m' := ArgsSim(env, ctx, c1, s, m0, m1, args[1..]);
      var (c2, os) := GetArgs(ctx, c1, args[1..]).value;
      KnownKept(c1, c2, m1, m', o);
      assert ([o] + os)[1..] == os;
    }
  }

  /** Two operands fetched one after the other are both known afterwards. */
  lemma FetchSim(env: Env, ctx: Context, c: Cache, s: State, m0: Machine, m: Machine, ta: nat, tb: nat)
    returns (c2: Cache, a: Operand, b: Operand, m': Machine)
    requires At(env, ctx, c, s, m0, m, None)
    requires GetValue(ctx, c, ta).Some? && GetValue(ctx, GetValue(ctx, c, ta).value.0, tb).Some?
    requires Read(env, ctx, s, ta).Some? && Read(env, ctx, s, tb).Some?
    ensures a == GetValue(ctx, c, ta).value.1
    ensures (c2, b) == GetValue(ctx, GetValue(ctx, c, ta).value.0, tb).value
    ensures At(env, ctx, c2, s, m0, m', None) && Keeps(c, m, m') && c.next <= c2.next
    ensures Known(c2, m', a) && Eval(m', a) == Read(env, ctx, s, ta)
    ensures Known(c2, m', b) && Eval(m', b) == Read(env, ctx, s, tb)
  {
    var c1 := GetValue(ctx, c, ta).value.0;
    a := GetValue(ctx, c, ta).value.1;
    var m1 := GetValueSim(env, ctx, c, s, m0, m, None, ta);
    c2 := GetValue(ctx, c1, tb).value.0;
    b := GetValue(ctx, c1, tb).value.1;
    m' := GetValueSim(env, ctx, c1, s, m0, m1, None, tb);
    KnownKept(c1, c2, m1, m', a);
  }

  // ----- operations -----

  lemma MovSim(env: Env, ctx: Context, c: Cache, op: Op, s: State, m0: Machine, m: Machine) returns (m': Machine)
    requires At(env, ctx, c, s, m0, m, None) && op.Mov?
    requires GenMov(ctx, c, op).Some? && StepMov(env, ctx, op, s).Some?
    ensures At(env, ctx, GenMov(ctx, c, op).value, StepMov(env, ctx, op, s).value, m0, m', None)
  {
    var (c1, v) := GetValue(ctx, c, op.src).value;
    var m1 := GetValueSim(env, ctx, c, s, m0, m, None, op.src);
    var x := Read(env, ctx, s, op.src).value;
    var (c2, o) := EmitTrunc(ctx, c1, op.w, v);
    var m2 := TruncSim(env, ctx, c1, s, m0, m1, op.w, v, x);
    if x.w == op.w { CutSame(x); }
    m' := SetValueSim(env, ctx, c2, s, m0, m2, op.dst, o, Cut(op.w, x.bits));
  }

  lemma ExtendSim(env: Env, ctx: Context, c: Cache, op: Op, s: State, m0: Machine, m: Machine) returns (m': Machine)
    requires At(env, ctx, c, s, m0, m, None) && op.Extend?
    requires GenExtend(ctx, c, op).Some? && StepExtend(env, ctx, op, s).Some?
    ensures At(env, ctx, GenExtend(ctx, c, op).value, StepExtend(env, ctx, op, s).value, m0, m', None)
  {
    var (c1, v) := GetValue(ctx, c, op.src).value;
    var m1 := GetValueSim(env, ctx, c, s, m0, m, None, op.src);
    var x := Read(env, ctx, s, op.src).value;
    var (c2, o) := EmitTrunc(ctx, c1, op.from, v);
    var m2 := TruncSim(env, ctx, c1, s, m0, m1, op.from, v, x);
    var (c3, o3) := EmitExt(ctx, c2, op.signed, op.w, o);
    var m3 := ExtSim(env, ctx, c2, s, m0, m2, op.signed, op.w, o, Cut(op.from, x.bits));
    m' := SetValueSim(env, ctx, c3, s, m0, m3, op.dst, o3, Widen(op.signed, op.w, Cut(op.from, x.bits)));
  }

  /** Address, load and extension, once the base operand is known. */
  lemma LoadSim(env: Env, ctx: Context, c: Cache, s: State, m0: Machine, m: Machine, b: Operand, x: Word, ofs: int,
                signed: bool, memW: Width, w: Width)
    returns (m': Machine)
    requires At(env, ctx, c, s, m0, m, None) && Known(c, m, b) && Eval(m, b) == Some(x)
    requires EmitLoad(ctx, c, b, ofs, signed, memW, w).Some? && BitCount(memW) <= BitCount(w)
    ensures var (c1, o) := EmitLoad(ctx, c, b, ofs, signed, memW, w).value;
      && At(env, ctx, c1, s, m0, m', None) && Known(c1, m', o)
      && Eval(m', o) == Some(Widen(signed, w, Load(s.mem, Displaced(x, ofs).bits, memW)))
  {
    var (c2, p) := EmitAddr(ctx, c, b, ofs).value;
    var m2 := AddrSim(env, ctx, c, s, m0, m, b, x, ofs);
    var a := Displaced(x, ofs);
    var y := Load(s.mem, a.bits, memW);
    var i := LoadMem(c2.next, memW, p);
    assert Exec1(env, i, m2) == Next(m2.(regs := m2.regs[c2.next := y]));
    var m3 := DefSim(env, ctx, c2, s, m0, m2, None, i, y);
    m' := ExtSim(env, ctx, Def(ctx, c2, i), s, m0, m3, signed, w, Reg(c2.next, memW), y);
  }

  lemma LdSim(env: Env, ctx: Context, c: Cache, op: Op, s: State, m0: Machine, m: Machine) returns (m': Machine)
    requires At(env, ctx, c, s, m0, m, None) && op.Ld?
    requires GenLd(ctx, c, op).Some? && StepLd(env, ctx, op, s).Some?
    ensures At(env, ctx, GenLd(ctx, c, op).value, StepLd(env, ctx, op, s).value, m0, m', None)
  {
    var Ld(signed, memW, w, dst, base, ofs) := op;
    var (c1, b) := GetValue(ctx, c, base).value;
    var m1 := GetValueSim(env, ctx, c, s, m0, m, None, base);
    var x := Read(env, ctx, s, base).value;
    var m4 := LoadSim(env, ctx, c1, s, m0, m1, b, x, ofs, signed, memW, w);
    var (c2, o) := EmitLoad(ctx, c1, b, ofs, signed, memW, w).value;
    m' := SetValueSim(env, ctx, c2, s, m0, m4, dst, o,
                      Widen(signed, w, Load(s.mem, Displaced(x, ofs).bits, memW)));
  }

  /** Address, truncation and store, once both operands are known. */
  lemma StoreSim(env: Env, ctx: Context, c: Cache, s: State, m0: Machine, m: Machine, v: Operand, x: Word,
                 b: Operand, y: Word, ofs: int, memW: Width)
    returns (m': Machine)
    requires At(env, ctx, c, s, m0, m, None)
    requires Known(c, m, v) && Eval(m, v) == Some(x) && Known(c, m, b) && Eval(m, b) == Some(y)
    requires EmitAddr(ctx, c, b, ofs).Some? && BitCount(memW) <= BitCount(x.w)
    requires RawStore(env, ctx, s, Displaced(y, ofs).bits, Cut(memW, x.bits)).Some?
    ensures var (c3, p) := EmitAddr(ctx, c, b, ofs).value;
      var (c4, o) := EmitTrunc(ctx, c3, memW, v);
      At(env, ctx, Put(ctx, c4, StoreMem(o, p)),
         RawStore(env, ctx, s, Displaced(y, ofs).bits, Cut(memW, x.bits)).value, m0, m', None)
  {
    var (c3, p) := EmitAddr(ctx, c, b, ofs).value;
    var m3 := AddrSim(env, ctx, c, s, m0, m, b, y, ofs);
    KnownKept(c, c3, m, m3, v);
    var (c4, o) := EmitTrunc(ctx, c3, memW, v);
    var m4 := TruncSim(env, ctx, c3, s, m0, m3, memW, v, x);
    KnownKept(c3, c4, m3, m4, p);
    m' := PutStoreSim(env, ctx, c4, s, m0, m4, o, p, Displaced(y, ofs), Cut(memW, x.bits), None);
  }

  lemma StSim(env: Env, ctx: Context, c: Cache, op: Op, s: State, m0: Machine, m: Machine) returns (m': Machine)
    requires At(env, ctx, c, s, m0, m, None) && op.St?
    requires GenSt(ctx, c, op).Some? && StepSt(env, ctx, op, s).Some?
    ensures At(env, ctx, GenSt(ctx, c, op).value, StepSt(env, ctx, op, s).value, m0, m', None)
  {
    var c2, v, b, m2 := FetchSim(env, ctx, c, s, m0, m, op.src, op.base);
    m' := StoreSim(env, ctx, c2, s, m0, m2, v, Read(env, ctx, s, op.src).value, b, Read(env, ctx, s, op.base).value,
                   op.ofs, op.memW);
  }

  lemma ArithSim(env: Env, ctx: Context, c: Cache, op: Op, s: State, m0: Machine, m: Machine) returns (m': Machine)
    requires At(env, ctx, c, s, m0, m, None) && op.Arith?
    requires GenArith(ctx, c, op).Some? && StepArith(env, ctx, op, s).Some?
    ensures At(env, ctx, GenArith(ctx, c, op).value, StepArith(env, ctx, op, s).value, m0, m', None)
  {
    var Arith(bop, w, dst, ta, tb) := op;
    var c2, a, b, m2 := FetchSim(env, ctx, c, s, m0, m, ta, tb);
    var (c3, x) := Adjust(ctx, c2, w, a).value;
    var m3 := AdjustSim(env, ctx, c2, s, m0, m2, w, a, Read(env, ctx, s, ta).value);
    KnownKept(c2, c3, m2, m3, b);
    var (c4, y) := Adjust(ctx, c3, w, b).value;
    var m4 := AdjustSim(env, ctx, c3, s, m0, m3, w, b, Read(env, ctx, s, tb).value);
    KnownKept(c3, c4, m3, m4, x);
    var vx, vy := Narrow(w, Read(env, ctx, s, ta).value).value, Narrow(w, Read(env, ctx, s, tb).value).value;
    var vz := Compute(bop, vx, vy).value;
    var (c5, z) := EmitBin(ctx, c4, bop, x, y);
    var m5 := BinSim(env, ctx, c4, s, m0, m4, bop, x, y, vx, vy, vz);
    m' := SetValueSim(env, ctx, c5, s, m0, m5, dst, z, vz);
  }

  lemma NotSim(env: Env, ctx: Context, c: Cache, op: Op, s: State, m0: Machine, m: Machine) returns (m': Machine)
    requires At(env, ctx, c, s, m0, m, None) && op.Not?
    requires GenUnary(ctx, c, op.w, op.dst, op.src, BinOp.Xor, -1).Some? && StepNot(env, ctx, op, s).Some?
    ensures At(env, ctx, GenUnary(ctx, c, op.w, op.dst, op.src, BinOp.Xor, -1).value, StepNot(env, ctx, op, s).value,
      m0, m', None)
  {
    var Not(w, dst, src) := op;
    var (c1, v) := GetValue(ctx, c, src).value;
    var m1 := GetValueSim(env, ctx, c, s, m0, m, None, src);
    var x := Read(env, ctx, s, src).value;
    assert x.w == w;
    NotIsXor(x);
    var (c2, o) := EmitBin(ctx, c1, BinOp.Xor, Const(Cut(w, -1)), v);
    var y := Complement(x);
    var m2 := BinSim(env, ctx, c1, s, m0, m1, BinOp.Xor, Const(Cut(w, -1)), v, Cut(w, -1), x, y);
    m' := SetValueSim(env, ctx, c2, s, m0, m2, dst, o, y);
  }

  lemma NotIsXor(x: Word)
    ensures Compute(BinOp.Xor, Cut(x.w, -1), x) == Some(Complement(x))
  {
    Pow2Values();
    RangeIsPow2(x.w);
    XorOnes(x.bits, BitCount(x.w));
    assert Cut(x.w, -1).bits == Range(x.w) - 1;
  }

  lemma RangeIsPow2(w: Width)
    ensures Range(w) == Pow2(BitCount(w))
  {
    Pow2Values();
  }

  lemma NegSim(env: Env, ctx: Context, c: Cache, op: Op, s: State, m0: Machine, m: Machine) returns (m': Machine)
    requires At(env, ctx, c, s, m0, m, None) && op.Neg?
    requires GenUnary(ctx, c, op.w, op.dst, op.src, BinOp.Sub, 0).Some? && StepNeg(env, ctx, op, s).Some?
    ensures At(env, ctx, GenUnary(ctx, c, op.w, op.dst, op.src, BinOp.Sub, 0).value, StepNeg(env, ctx, op, s).value,
      m0, m', None)
  {
    var Neg(w, dst, src) := op;
    var (c1, v) := GetValue(ctx, c, src).value;
    var m1 := GetValueSim(env, ctx, c, s, m0, m, None, src);
    var x := Read(env, ctx, s, src).value;
    assert x.w == w;
    NegIsSub(x);
    var (c2, o) := EmitBin(ctx, c1, BinOp.Sub, Const(Cut(w, 0)), v);
    var y := Negated(x);
    var m2 := BinSim(env, ctx, c1, s, m0, m1, BinOp.Sub, Const(Cut(w, 0)), v, Cut(w, 0), x, y);
    m' := SetValueSim(env, ctx, c2, s, m0, m2, dst, o, y);
  }

  lemma NegIsSub(x: Word)
    ensures Compute(BinOp.Sub, Cut(x.w, 0), x) == Some(Negated(x))
  {
    match x.w {
      case W1 =>
      case W8 =>
      case W16 =>
      case W32 =>
      case W64 =>
    }
  }

  /** The deposit sequence: and, shift, and, or. */
  lemma DepositSim(env: Env, ctx: Context, c: Cache, s: State, m0: Machine, m: Machine, oa: Operand, ob: Operand,
                   a: Word, b: Word, ofs: nat, len: nat)
    returns (m': Machine)
    requires At(env, ctx, c, s, m0, m, None) && 0 < len && ofs + len <= 32 && a.w == W32 && b.w == W32
    requires Known(c, m, oa) && Eval(m, oa) == Some(a) && Known(c, m, ob) && Eval(m, ob) == Some(b)
    ensures var (c', o) := EmitDeposit(ctx, c, oa, ob, ofs, len);
      && At(env, ctx, c', s, m0, m', None) && Known(c', m', o)
      && Eval(m', o) == Some(Deposited(a, b, ofs, len))
  {
    Pow2Values();
    if ofs == 0 && len == 32 {
      m' := m;
      DepositAll(a.bits, b.bits);
      CutSame(b);
    } else {
      var (c2, t1) := EmitField(ctx, c, ob, ofs, len);
      var m2 := FieldSim(env, ctx, c, s, m0, m, ob, b, ofs, len);
      KnownKept(c, c2, m, m2, oa);
      m' := FillSim(env, ctx, c2, s, m0, m2, oa, t1, a, b, ofs, len);
    }
  }

  /** Clear the hole in a, then or the field into it. */
  lemma FillSim(env: Env, ctx: Context, c: Cache, s: State, m0: Machine, m: Machine, oa: Operand, ot: Operand,
                a: Word, b: Word, ofs: nat, len: nat)
    returns (m': Machine)
    requires At(env, ctx, c, s, m0, m, None) && ofs + len <= 32 && a.w == W32
    requires Known(c, m, oa) && Eval(m, oa) == Some(a)
    requires Known(c, m, ot) && Eval(m, ot) == Some(Cut(W32, Field(b.bits, ofs, len)))
    ensures var (c', o) := EmitFill(ctx, c, oa, ot, ofs, len);
      && At(env, ctx, c', s, m0, m', None) && Known(c', m', o)
      && Eval(m', o) == Some(Deposited(a, b, ofs, len))
  {
    HoleWord(a, ofs, len);
    var hole := Cut(W32, Hole(a.bits, ofs, len));
    var (c3, oh) := EmitBin(ctx, c, BinOp.And, oa, Const(KeepMask(ofs, len)));
    var m3 := BinSim(env, ctx, c, s, m0, m, BinOp.And, oa, Const(KeepMask(ofs, len)), a, KeepMask(ofs, len), hole);
    KnownKept(c, c3, m, m3, ot);
    OrWord(a, b, ofs, len);
    m' := BinSim(env, ctx, c3, s, m0, m3, BinOp.Or, oh, ot, hole, Cut(W32, Field(b.bits, ofs, len)),
                 Deposited(a, b, ofs, len));
  }

  /** The field of b, masked only when something above it would be shifted in. */
  lemma FieldSim(env: Env, ctx: Context, c: Cache, s: State, m0: Machine, m: Machine, ob: Operand, b: Word,
                 ofs: nat, len: nat)
    returns (m': Machine)
    requires At(env, ctx, c, s, m0, m, None) && 0 < len && ofs + len <= 32 && b.w == W32 && ofs < 32
    requires Known(c, m, ob) && Eval(m, ob) == Some(b)
    ensures var (c', o) := EmitField(ctx, c, ob, ofs, len);
      && At(env, ctx, c', s, m0, m', None) && Keeps(c, m, m') && Known(c', m', o)
      && Eval(m', o) == Some(Cut(W32, Field(b.bits, ofs, len)))
  {
    var fld := Cut(W32, Field(b.bits, ofs, len));
    if ofs + len < 32 {
      var (c1, t0) := EmitBin(ctx, c, BinOp.And, ob, Const(Cut(W32, Pow2(len) - 1)));
      var v := b.bits % Pow2(len);
      MaskWord(b, len);
      var m1 := BinSim(env, ctx, c, s, m0, m, BinOp.And, ob, Const(Cut(W32, Pow2(len) - 1)), b,
                       Cut(W32, Pow2(len) - 1), Cut(W32, v));
      Pow2Less(len, 32);
      ShiftWord(v, b.bits, ofs, len);
      m' := BinSim(env, ctx, c1, s, m0, m1, BinOp.Shl, t0, Const(Cut(W32, ofs)), Cut(W32, v), Cut(W32, ofs), fld);
    } else {
      ShiftTop(b, ofs, len);
      m' := BinSim(env, ctx, c, s, m0, m, BinOp.Shl, ob, Const(Cut(W32, ofs)), b, Cut(W32, ofs), fld);
    }
  }

  lemma NarrowIsCut(y: Word)
    requires Narrow(W32, y).Some?
    ensures Narrow(W32, y) == Some(Cut(W32, y.bits))
  {
    if y.w == W32 { CutSame(y); }
  }

  lemma Deposit32Sim(env: Env, ctx: Context, c: Cache, op: Op, s: State, m0: Machine, m: Machine) returns (m': Machine)
    requires At(env, ctx, c, s, m0, m, None) && op.Deposit32?
    requires GenDeposit(ctx, c, op).Some? && StepDeposit32(env, ctx, op, s).Some?
    ensures At(env, ctx, GenDeposit(ctx, c, op).value, StepDeposit32(env, ctx, op, s).value, m0, m', None)
  {
    var Deposit32(dst, ta, tb, at, len) := op;
    var c2, a, b, m2 := FetchSim(env, ctx, c, s, m0, m, ta, tb);
    var x, y := Read(env, ctx, s, ta).value, Read(env, ctx, s, tb).value;
    m' := DepositTailSim(env, ctx, c2, s, m0, m2, dst, a, b, x, y, at, len);
  }

  lemma DepositTailSim(env: Env, ctx: Context, c: Cache, s: State, m0: Machine, m: Machine, dst: nat,
                       oa: Operand, ob: Operand, a: Word, b: Word, ofs: nat, len: nat)
    returns (m': Machine)
    requires At(env, ctx, c, s, m0, m, None) && 0 < len && ofs + len <= 32 && a.w == W32 && Narrow(W32, b).Some?
    requires Known(c, m, oa) && Eval(m, oa) == Some(a) && Known(c, m, ob) && Eval(m, ob) == Some(b)
    requires GenDepositTail(ctx, c, dst, oa, ob, ofs, len).Some?
    requires Write(env, ctx, s, dst, Deposited(a, Narrow(W32, b).value, ofs, len)).Some?
    ensures At(env, ctx, GenDepositTail(ctx, c, dst, oa, ob, ofs, len).value,
               Write(env, ctx, s, dst, Deposited(a, Narrow(W32, b).value, ofs, len)).value, m0, m', None)
  {
    var (c3, b32) := EmitTrunc(ctx, c, W32, ob);
    var m3 := TruncSim(env, ctx, c, s, m0, m, W32, ob, b);
    NarrowIsCut(b);
    KnownKept(c, c3, m, m3, oa);
    var z := Narrow(W32, b).value;
    var m4 := DepositSim(env, ctx, c3, s, m0, m3, oa, b32, a, z, ofs, len);
    var (c4, o) := EmitDeposit(ctx, c3, oa, b32, ofs, len);
    m' := SetValueSim(env, ctx, c4, s, m0, m4, dst, o, Deposited(a, z, ofs, len));
  }

  lemma PairSim(env: Env, ctx: Context, c: Cache, s: State, m0: Machine, m: Machine, ohi: Operand, olo: Operand,
                hi: Word, lo: Word)
    returns (m': Machine)
    requires At(env, ctx, c, s, m0, m, None) && hi.w == W32 && lo.w == W32
    requires Known(c, m, ohi) && Eval(m, ohi) == Some(hi) && Known(c, m, olo) && Eval(m, olo) == Some(lo)
    ensures var (c', o) := EmitPair(ctx, c, ohi, olo);
      && At(env, ctx, c', s, m0, m', None) && Keeps(c, m, m') && Known(c', m', o) && Eval(m', o) == Some(Pair(hi, lo))
  {
    var (c1, h) := EmitExt(ctx, c, false, W64, ohi);
    var m1 := ExtSim(env, ctx, c, s, m0, m, false, W64, ohi, hi);
    KnownKept(c, c1, m, m1, olo);
    PairShl(hi);
    var up := Num(W64, hi.bits * 0x1_0000_0000);
    var (c2, t) := EmitBin(ctx, c1, BinOp.Shl, h, Const(Cut(W64, 32)));
    var m2 := BinSim(env, ctx, c1, s, m0, m1, BinOp.Shl, h, Const(Cut(W64, 32)), Widen(false, W64, hi), Cut(W64, 32),
      up);
    KnownKept(c1, c2, m1, m2, olo);
    var (c3, l) := EmitExt(ctx, c2, false, W64, olo);
    var m3 := ExtSim(env, ctx, c2, s, m0, m2, false, W64, olo, lo);
    KnownKept(c2, c3, m2, m3, t);
    PairOr(hi, lo);
    m' := BinSim(env, ctx, c3, s, m0, m3, BinOp.Or, t, l, up, Widen(false, W64, lo), Pair(hi, lo));
  }

  /** The 64-bit addition and its split into halves, once the four operands are known. */
  lemma SumSim(env: Env, ctx: Context, c: Cache, s: State, m0: Machine, m: Machine,
               oa: Operand, ob: Operand, al: Word, ah: Word, bl: Word, bh: Word)
    returns (m': Machine)
    requires At(env, ctx, c, s, m0, m, None) && al.w == W32 && ah.w == W32 && bl.w == W32 && bh.w == W32
    requires Known(c, m, oa) && Eval(m, oa) == Some(Pair(ah, al)) && Known(c, m, ob)
    requires Eval(m, ob) == Some(Pair(bh, bl))
    ensures var (c7, sum) := EmitBin(ctx, c, BinOp.Add, oa, ob);
      var (c8, lo) := EmitTrunc(ctx, c7, W32, sum);
      var (c9, up) := EmitBin(ctx, c8, BinOp.LShr, sum, Const(Cut(W64, 32)));
      var (c10, hi) := EmitTrunc(ctx, c9, W32, up);
      && At(env, ctx, c10, s, m0, m', None)
      && Known(c10, m', lo) && Eval(m', lo) == Some(SumLow(al, bl))
      && Known(c10, m', hi) && Eval(m', hi) == Some(SumHigh(al, ah, bl, bh))
  {
    var x := PairSum(al, ah, bl, bh);
    SumWord(al, ah, bl, bh, x);
    PairAdd(al, ah, bl, bh);
    var (c7, sum) := EmitBin(ctx, c, BinOp.Add, oa, ob);
    var m7 := BinSim(env, ctx, c, s, m0, m, BinOp.Add, oa, ob, Pair(ah, al), Pair(bh, bl), x);
    var (c8, lo) := EmitTrunc(ctx, c7, W32, sum);
    var m8 := TruncSim(env, ctx, c7, s, m0, m7, W32, sum, x);
    KnownKept(c7, c8, m7, m8, sum);
    HighHalf(x);
    var h := Upper(x);
    var (c9, up) := EmitBin(ctx, c8, BinOp.LShr, sum, Const(Cut(W64, 32)));
    var m9 := BinSim(env, ctx, c8, s, m0, m8, BinOp.LShr, sum, Const(Cut(W64, 32)), x, Cut(W64, 32), h);
    KnownKept(c8, c9, m8, m9, lo);
    var (c10, hi) := EmitTrunc(ctx, c9, W32, up);
    m' := TruncSim(env, ctx, c9, s, m0, m9, W32, up, h);
    KnownKept(c9, c10, m9, m', lo);
  }

  lemma Add2Sim(env: Env, ctx: Context, c: Cache, op: Op, s: State, m0: Machine, m: Machine) returns (m': Machine)
    requires At(env, ctx, c, s, m0, m, None) && op.Add2?
    requires GenAdd2(ctx, c, op).Some? && StepAdd2(env, ctx, op, s).Some?
    ensures At(env, ctx, GenAdd2(ctx, c, op).value, StepAdd2(env, ctx, op, s).value, m0, m', None)
  {
    var Add2(rl, rh, tal, tah, tbl, tbh) := op;
    var c2, al, ah, m2 := FetchSim(env, ctx, c, s, m0, m, tal, tah);
    var c4, bl, bh, m4 := FetchSim(env, ctx, c2, s, m0, m2, tbl, tbh);
    KnownKept(c2, c4, m2, m4, al);
    KnownKept(c2, c4, m2, m4, ah);
    var xal, xah := Read(env, ctx, s, tal).value, Read(env, ctx, s, tah).value;
    var xbl, xbh := Read(env, ctx, s, tbl).value, Read(env, ctx, s, tbh).value;
    m' := Add2TailSim(env, ctx, c4, s, m0, m4, rl, rh, al, ah, bl, bh, xal, xah, xbl, xbh);
  }

  lemma Add2TailSim(env: Env, ctx: Context, c: Cache, s: State, m0: Machine, m: Machine, rl: nat, rh: nat,
                    al: Operand, ah: Operand, bl: Operand, bh: Operand, xal: Word, xah: Word, xbl: Word, xbh: Word)
    returns (m': Machine)
    requires At(env, ctx, c, s, m0, m, None) && xal.w == W32 && xah.w == W32 && xbl.w == W32 && xbh.w == W32
    requires Known(c, m, al) && Eval(m, al) == Some(xal) && Known(c, m, ah) && Eval(m, ah) == Some(xah)
    requires Known(c, m, bl) && Eval(m, bl) == Some(xbl) && Known(c, m, bh) && Eval(m, bh) == Some(xbh)
    requires GenAdd2Tail(ctx, c, rl, rh, al, ah, bl, bh).Some?
    requires Write(env, ctx, s, rl, SumLow(xal, xbl)).Some?
    requires Write(env, ctx, Write(env, ctx, s, rl, SumLow(xal, xbl)).value, rh, SumHigh(xal, xah, xbl, xbh)).Some?
    ensures At(env, ctx, GenAdd2Tail(ctx, c, rl, rh, al, ah, bl, bh).value,
               Write(env, ctx, Write(env, ctx, s, rl, SumLow(xal, xbl)).value, rh, SumHigh(xal, xah, xbl, xbh)).value,
               m0, m', None)
  {
    var (c5, a) := EmitPair(ctx, c, ah, al);
    var m5 := PairSim(env, ctx, c, s, m0, m, ah, al, xah, xal);
    KnownKept(c, c5, m, m5, bh);
    KnownKept(c, c5, m, m5, bl);
    var (c6, b) := EmitPair(ctx, c5, bh, bl);
    var m6 := PairSim(env, ctx, c5, s, m0, m5, bh, bl, xbh, xbl);
    KnownKept(c5, c6, m5, m6, a);
    var m10 := SumSim(env, ctx, c6, s, m0, m6, a, b, xal, xah, xbl, xbh);
    var (c7, sum) := EmitBin(ctx, c6, BinOp.Add, a, b);
    var (c8, lo) := EmitTrunc(ctx, c7, W32, sum);
    var (c9, up) := EmitBin(ctx, c8, BinOp.LShr, sum, Const(Cut(W64, 32)));
    var (c10, hi) := EmitTrunc(ctx, c9, W32, up);
    m' := TwoSetsSim(env, ctx, c10, s, m0, m10, rl, rh, lo, hi, SumLow(xal, xbl), SumHigh(xal, xah, xbl, xbh));
  }

  lemma TwoSetsSim(env: Env, ctx: Context, c: Cache, s: State, m0: Machine, m: Machine, r1: nat, r2: nat,
                   o1: Operand, o2: Operand, x1: Word, x2: Word)
    returns (m': Machine)
    requires At(env, ctx, c, s, m0, m, None)
    requires Known(c, m, o1) && Eval(m, o1) == Some(x1) && Known(c, m, o2) && Eval(m, o2) == Some(x2)
    requires SetValue(ctx, c, r1, o1).Some? && SetValue(ctx, SetValue(ctx, c, r1, o1).value, r2, o2).Some?
    requires Write(env, ctx, s, r1, x1).Some? && Write(env, ctx, Write(env, ctx, s, r1, x1).value, r2, x2).Some?
    ensures At(env, ctx, SetValue(ctx, SetValue(ctx, c, r1, o1).value, r2, o2).value,
               Write(env, ctx, Write(env, ctx, s, r1, x1).value, r2, x2).value, m0, m', None)
  {
    var c1, s1 := SetValue(ctx, c, r1, o1).value, Write(env, ctx, s, r1, x1).value;
    var m1 := SetValueSim(env, ctx, c, s, m0, m, r1, o1, x1);
    KnownKept(c, c1, m, m1, o2);
    m' := SetValueSim(env, ctx, c1, s1, m0, m1, r2, o2, x2);
  }

  /** Forgetting everything memory-backed after a helper changed memory. */
  lemma ForgetSim(env: Env, ctx: Context, c: Cache, s: State, m: Machine, mem: Mem, m': Machine)
    requires Match(env, ctx, c, s, m, None) && Keeps(c, m, m') && m'.mem == mem && m'.slots == m.slots
    ensures Match(env, ctx, ForgetMemory(ctx, c).(next := c.next + 1), s.(mem := mem), m', None)
  {
    var c', s' := ForgetMemory(ctx, c).(next := c.next + 1), s.(mem := mem);
    forall j: nat | j < |c.values| ensures ValueOk(env, ctx, c', s', m', j) {
      assert ValueOk(env, ctx, c, s, m, j);
    }
  }

  lemma CallSim(env: Env, ctx: Context, c: Cache, op: Op, s: State, m0: Machine, m: Machine) returns (m': Machine)
    requires At(env, ctx, c, s, m0, m, None) && op.Call?
    requires GenCall(ctx, c, op).Some? && StepCall(env, ctx, op, s).Some?
    ensures At(env, ctx, GenCall(ctx, c, op).value, StepCall(env, ctx, op, s).value, m0, m', None)
  {
    var Call(helper, result, args) := op;
    var (c1, os) := GetArgs(ctx, c, args).value;
    var m1 := ArgsSim(env, ctx, c, s, m0, m, args);
    var xs := ReadArgs(env, ctx, s, args).value;
    var (ret, mem) := env.helper(helper, xs, s.mem);
    var resultW := if result.None? then None else Some(ctx.temps[result.value].w);
    var m2 := HelperSim(env, ctx, c1, s, m0, m1, helper, resultW, os, xs);
    if result.None? {
      m' := m2;
    } else {
      var c3 := ForgetMemory(ctx, Def(ctx, c1, CallHelper(c1.next, resultW, helper, os)));
      m' := SetValueSim(env, ctx, c3, s.(mem := mem), m0, m2, result.value, Reg(c1.next, resultW.value),
                        Cut(resultW.value, ret));
    }
  }

  /** The call itself: memory becomes what the helper makes of it and the caches forget it. */
  lemma HelperSim(env: Env, ctx: Context, c: Cache, s: State, m0: Machine, m: Machine, helper: nat,
                  resultW: Option<Width>, os: seq<Operand>, xs: seq<Word>)
    returns (m': Machine)
    requires At(env, ctx, c, s, m0, m, None) && EvalAll(m, os) == Some(xs)
    ensures var (ret, mem) := env.helper(helper, xs, s.mem);
      var c' := ForgetMemory(ctx, Def(ctx, c, CallHelper(c.next, resultW, helper, os)));
      && At(env, ctx, c', s.(mem := mem), m0, m', None)
      && (resultW.Some? ==>
            && Known(c', m', Reg(c.next, resultW.value))
            && Eval(m', Reg(c.next, resultW.value)) == Some(Cut(resultW.value, ret)))
  {
    var (ret, mem) := env.helper(helper, xs, s.mem);
    m' := if resultW.None? then m.(mem := mem)
          else m.(mem := mem, regs := m.regs[c.next := Cut(resultW.value, ret)]);
    var i := CallHelper(c.next, resultW, helper, os);
    assert Exec1(env, i, m) == Next(m');
    ExecConcat(env, c.code, [i], m0);
    assert [i][1..] == [];
    assert Exec(env, [i], m) == Next(m');
    ForgetSim(env, ctx, c, s, m, mem, m');
    MatchKept(env, ctx, ForgetMemory(ctx, c).(next := c.next + 1), ForgetMemory(ctx, Def(ctx, c, i)), s.(mem := mem),
              m', m', None);
  }

  lemma DiscardSim(env: Env, ctx: Context, c: Cache, t: nat, s: State, m: Machine)
    requires Match(env, ctx, c, s, m, None) && t < |c.values|
    ensures Match(env, ctx, c.(values := c.values[t := None]), s, m, None)
  {
    var c' := c.(values := c.values[t := None]);
    forall j: nat | j < |c.values| ensures ValueOk(env, ctx, c', s, m, j) {
      assert ValueOk(env, ctx, c, s, m, j);
    }
    forall j: nat | j < ctx.nbGlobals ensures PtrOk(env, ctx, c', s.mem, m, j) {
      assert PtrOk(env, ctx, c, s.mem, m, j);
    }
  }

  /** The translator's invariant survives every straight-line operation, and the code emitted for it makes
      the machine follow the operation's effect. */
  lemma StepSim(env: Env, ctx: Context, c: Cache, op: Op, s: State, m0: Machine, m: Machine) returns (m': Machine)
    requires At(env, ctx, c, s, m0, m, None) && op.Straight()
    requires Gen(ctx, c, op).Some? && Step(env, ctx, op, s).Some?
    ensures At(env, ctx, Gen(ctx, c, op).value, Step(env, ctx, op, s).value, m0, m', None)
  {
    match op
    case Nop => m' := m;
    case Discard(t) =>
      DiscardSim(env, ctx, c, t, s, m);
      m' := m;
    case Movi(w, dst, imm) => m' := SetValueSim(env, ctx, c, s, m0, m, dst, Const(Cut(w, imm)), Cut(w, imm));
    case Mov(_, _, _) => m' := MovSim(env, ctx, c, op, s, m0, m);
    case Extend(_, _, _, _, _) => m' := ExtendSim(env, ctx, c, op, s, m0, m);
    case Ld(_, _, _, _, _, _) => m' := LdSim(env, ctx, c, op, s, m0, m);
    case St(_, _, _, _, _) => m' := StSim(env, ctx, c, op, s, m0, m);
    case Arith(_, _, _, _, _) => m' := ArithSim(env, ctx, c, op, s, m0, m);
    case Not(_, _, _) => m' := NotSim(env, ctx, c, op, s, m0, m);
    case Neg(_, _, _) => m' := NegSim(env, ctx, c, op, s, m0, m);
    case Deposit32(_, _, _, _, _) => m' := Deposit32Sim(env, ctx, c, op, s, m0, m);
    case Add2(_, _, _, _, _, _) => m' := Add2Sim(env, ctx, c, op, s, m0, m);
    case Call(_, _, _) => m' := CallSim(env, ctx, c, op, s, m0, m);
    case GotoTb(n) =>
      m' := PutStoreSim(env, ctx, c, s, m0, m, Const(Cut(W8, n)), Const(Cut(W64, ctx.gotoTb)), Cut(W64, ctx.gotoTb),
                        Cut(W8, n), None);
  }
}
