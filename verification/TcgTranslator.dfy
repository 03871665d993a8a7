/** The translator itself: an object that walks the operations once and updates its caches in place. */
module TcgTranslator {
  import opened Options
  import opened Words
  import opened Tcg
  import opened LlvmIr
  import T = Translation
  import C = TranslationCorrectness
  import Typing

  class Translator {
    const ctx: Context
    const values: array<Option<Operand>>
    const memValuesPtr: array<Option<Operand>>
    const globalsIdx: array<nat>
    var next: nat
    var cur: BlockId
    var code: seq<Instr>
    var done: map<BlockId, seq<Instr>>

    ghost predicate Valid()
      reads this, globalsIdx
    {
      && GoodContext(ctx)
      && values.Length == memValuesPtr.Length == globalsIdx.Length == |ctx.temps|
      && values != memValuesPtr
      && forall i :: 0 <= i < ctx.nbGlobals ==>
           globalsIdx[i] == GlobalIndex(ctx, i)
    }

    ghost function State(): T.Cache
      reads this, values, memValuesPtr
    {
      T.Cache(values[..], memValuesPtr[..], next, cur, code, done)
    }

    constructor (ctx: Context)
      requires GoodContext(ctx)
      ensures this.ctx == ctx && fresh(values) && fresh(memValuesPtr) && fresh(globalsIdx)
      ensures Valid() && State() == T.Start(ctx)
    {
      this.ctx := ctx;
      values := new Option<Operand>[|ctx.temps|](_ => None);
      memValuesPtr := new Option<Operand>[|ctx.temps|](_ => None);
      globalsIdx := new nat[|ctx.temps|](_ => 0);
      next, cur, code, done := 0, Entry, [], map[];
      new;
      InitGlobalsAndLocalTemps();
    }

    ghost predicate Allocated()
      reads this
    {
      GoodContext(ctx) && values.Length == memValuesPtr.Length == globalsIdx.Length == |ctx.temps|
      && values != memValuesPtr
    }

    method InitGlobalsAndLocalTemps()
      requires Allocated() && State() == T.Start(ctx).(code := [])
      modifies this`code, globalsIdx
      ensures Valid() && State() == T.Start(ctx)
    {
      var regToIdx := NumberRegisters();
      FindBases(regToIdx);
      AllocateLocals();
    }

    /** Number the register globals; note the base register of each memory global. */
    method NumberRegisters() returns (regToIdx: map<nat, nat>)
      requires Allocated()
      modifies globalsIdx
      ensures Indexes(ctx, regToIdx, ctx.nbGlobals)
      ensures forall j :: 0 <= j < ctx.nbGlobals ==>
        globalsIdx[j] == RawIndex(ctx, j)
    {
      regToIdx := map[];
      var argNumber := 0;
      for i := 0 to ctx.nbGlobals
        invariant argNumber == FixedCount(ctx, i)
        invariant Indexes(ctx, regToIdx, i)
        invariant forall j :: 0 <= j < i ==>
          globalsIdx[j] == RawIndex(ctx, j)
      {
        IndexesNext(ctx, regToIdx, i);
        match ctx.temps[i].kind
        case FixedReg(reg) =>
          globalsIdx[i] := argNumber;
          argNumber := argNumber + 1;
          regToIdx := regToIdx[reg := i];
        case InMemory(memReg, _) => globalsIdx[i] := memReg;
      }
    }

    /** Replace each base register by the global that lives in it. */
    method FindBases(regToIdx: map<nat, nat>)
      requires Allocated()
      requires Indexes(ctx, regToIdx, ctx.nbGlobals)
      requires forall j :: 0 <= j < ctx.nbGlobals ==>
        globalsIdx[j] == RawIndex(ctx, j)
      modifies globalsIdx
      ensures Valid()
    {
      for i := 0 to ctx.nbGlobals
        invariant forall j :: 0 <= j < i ==>
          globalsIdx[j] == GlobalIndex(ctx, j)
        invariant forall j :: i <= j < ctx.nbGlobals ==>
          globalsIdx[j] == RawIndex(ctx, j)
      {
        if !ctx.temps[i].kind.FixedReg? {
          assert RegIndex(ctx, globalsIdx[i], ctx.nbGlobals).Some?;
          globalsIdx[i] := regToIdx[globalsIdx[i]];
        }
      }
    }

    method AllocateLocals()
      requires Valid() && State() == T.Start(ctx).(code := [])
      modifies this`code
      ensures Valid() && State() == T.Start(ctx)
    {
      NoLocalGlobals(ctx, ctx.nbGlobals);
      for i := ctx.nbGlobals to |ctx.temps|
        invariant Valid() && code == T.Allocas(ctx, i)
      {
        if ctx.temps[i].kind.Local? {
          code := code + [Alloca(i)];
        }
      }
    }

    method Define(i: Instr)
      requires Valid()
      modifies this`code, this`next
      ensures State() == T.Def(ctx, old(State()), i)
    {
      code, next := code + [i], next + 1;
    }

    method Put(i: Instr)
      requires Valid()
      modifies this`code
      ensures State() == T.Put(ctx, old(State()), i)
    {
      code := code + [i];
    }

    method CachePtr(idx: nat, p: Operand)
      requires Valid() && idx < memValuesPtr.Length
      modifies memValuesPtr
      ensures State() == old(State()).(ptrs := old(State()).ptrs[idx := Some(p)])
    {
      memValuesPtr[idx] := Some(p);
    }

    method GetPtrForValue(idx: nat) returns (r: Option<Operand>)
      requires Valid() && idx < ctx.nbGlobals
      modifies this`code, this`next, values, memValuesPtr
      ensures Valid()
      ensures var s := T.GetPtr(ctx, old(State()), idx);
        if s.None? then r.None? else r == Some(s.value.1) && State() == s.value.0
      decreases if ctx.temps[idx].kind.InMemory? then 2 else 0
    {
      if memValuesPtr[idx].Some? {
        return memValuesPtr[idx];
      }
      match ctx.temps[idx].kind {
        case FixedReg(_) =>
          Define(ArgPtr(next, globalsIdx[idx]));
        case InMemory(_, ofs) =>
          var v :- GetValue(globalsIdx[idx]);
          if v.Type() != W64 { return None; }
          Define(Bin(next, BinOp.Add, v, Const(Cut(W64, ofs))));
      }
      CachePtr(idx, Reg(next - 1, W64));
      return Some(Reg(next - 1, W64));
    }

    method GetValue(idx: nat) returns (r: Option<Operand>)
      requires Valid()
      modifies this`code, this`next, values, memValuesPtr
      ensures Valid()
      ensures var s := T.GetValue(ctx, old(State()), idx);
        if s.None? then r.None? else r == Some(s.value.1) && State() == s.value.0
      decreases if idx < ctx.nbGlobals && ctx.temps[idx].kind.InMemory? then 3 else 1
    {
      if idx >= |ctx.temps| { return None; }
      if values[idx].None? {
        if idx < ctx.nbGlobals {
          var p :- GetPtrForValue(idx);
          Define(LoadMem(next, ctx.temps[idx].w, p));
        } else if ctx.temps[idx].kind.Local? {
          Define(LoadSlot(next, ctx.temps[idx].w, idx));
        } else {
          return None;
        }
        values[idx] := Some(Reg(next - 1, ctx.temps[idx].w));
      }
      return values[idx];
    }

    method SetValue(idx: nat, v: Operand) returns (r: Option<()>)
      requires Valid()
      modifies this`code, this`next, values, memValuesPtr
      ensures Valid()
      ensures var s := T.SetValue(ctx, old(State()), idx, v);
        if s.None? then r.None? else r.Some? && State() == s.value
    {
      if idx >= |ctx.temps| { return None; }
      values[idx] := Some(v);
      if idx < ctx.nbGlobals {
        var p :- GetPtrForValue(idx);
        if v.Type() != ctx.temps[idx].w { return None; }
        Put(StoreMem(v, p));
      } else if ctx.temps[idx].kind.Local? {
        if v.Type() != ctx.temps[idx].w { return None; }
        Put(StoreSlot(v, idx));
      }
      return Some(());
    }

    /** Forget every value and every address. */
    method StartNewBasicBlock(b: BlockId)
      requires Valid()
      modifies this, values, memValuesPtr
      ensures Valid() && State() == T.StartBlock(ctx, old(State()), b)
    {
      if !T.EndsBlock(code) {
        code := code + [Jump(b)];
      }
      done, cur, code := done[cur := code], b, [];
      ghost var s := T.StartBlock(ctx, old(State()), b);
      for i := 0 to values.Length
        invariant Valid() && memValuesPtr[..] == old(memValuesPtr[..])
        invariant next == s.next && cur == s.cur && code == s.code && done == s.done
        invariant forall j :: 0 <= j < i ==> values[j] == None
      {
        values[i] := None;
      }
      assert values[..] == s.values;
      for i := 0 to ctx.nbGlobals
        invariant Valid() && values[..] == s.values
        invariant next == s.next && cur == s.cur && code == s.code && done == s.done
        invariant forall j :: i <= j < memValuesPtr.Length ==> memValuesPtr[j] == old(memValuesPtr[j])
        invariant forall j :: 0 <= j < i ==> memValuesPtr[j] == None
      {
        memValuesPtr[i] := None;
      }
      assert memValuesPtr[..] == s.ptrs;
    }

    /** What a helper may have changed is no longer known. */
    method ForgetMemory()
      requires Valid()
      modifies values, memValuesPtr
      ensures Valid() && State() == T.ForgetMemory(ctx, old(State()))
    {
      for i := 0 to values.Length
        invariant Valid()
        invariant forall j :: i <= j < values.Length ==> values[j] == old(values[j])
        invariant forall j :: 0 <= j < i ==>
          values[j] == if j < ctx.nbGlobals || ctx.temps[j].kind.Local? then None else old(values[j])
        invariant memValuesPtr[..] == old(memValuesPtr[..])
      {
        if i < ctx.nbGlobals || ctx.temps[i].kind.Local? {
          values[i] := None;
        }
      }
      for i := 0 to ctx.nbGlobals
        invariant Valid()
        invariant values[..] == T.ForgetMemory(ctx, old(State())).values
        invariant forall j :: i <= j < memValuesPtr.Length ==> memValuesPtr[j] == old(memValuesPtr[j])
        invariant forall j :: 0 <= j < i ==> memValuesPtr[j] == None
      {
        memValuesPtr[i] := None;
      }
    }

    method EmitBin(op: BinOp, a: Operand, b: Operand) returns (r: Operand)
      requires Valid()
      modifies this`code, this`next
      ensures Valid() && (State(), r) == T.EmitBin(ctx, old(State()), op, a, b)
    {
      r := Reg(next, a.Type());
      Define(Bin(next, op, a, b));
    }

    method EmitTrunc(w: Width, a: Operand) returns (r: Operand)
      requires Valid()
      modifies this`code, this`next
      ensures Valid() && (State(), r) == T.EmitTrunc(ctx, old(State()), w, a)
    {
      if a.Type() == w { return a; }
      r := Reg(next, w);
      Define(Trunc(next, w, a));
    }

    method EmitExt(signed: bool, w: Width, a: Operand) returns (r: Operand)
      requires Valid()
      modifies this`code, this`next
      ensures Valid() && (State(), r) == T.EmitExt(ctx, old(State()), signed, w, a)
    {
      if a.Type() == w { return a; }
      r := Reg(next, w);
      Define(if signed then SExt(next, w, a) else ZExt(next, w, a));
    }

    method AdjustTypeSize(w: Width, a: Operand) returns (r: Option<Operand>)
      requires Valid()
      modifies this`code, this`next
      ensures Valid()
      ensures var s := T.Adjust(ctx, old(State()), w, a);
        if s.None? then r.None? else r == Some(s.value.1) && State() == s.value.0
    {
      if a.Type() == w { return Some(a); }
      if w != W32 || a.Type() != W64 { return None; }
      var x := EmitTrunc(W32, a);
      return Some(x);
    }

    method EmitAddr(b: Operand, ofs: int) returns (r: Option<Operand>)
      requires Valid()
      modifies this`code, this`next
      ensures Valid()
      ensures var s := T.EmitAddr(ctx, old(State()), b, ofs);
        if s.None? then r.None? else r == Some(s.value.1) && State() == s.value.0
    {
      if b.Type() != W64 { return None; }
      var x := EmitBin(BinOp.Add, b, Const(Cut(W64, ofs)));
      return Some(x);
    }

    method EmitLoad(b: Operand, ofs: int, signed: bool, memW: Width, w: Width) returns (r: Option<Operand>)
      requires Valid()
      modifies this`code, this`next
      ensures Valid()
      ensures var s := T.EmitLoad(ctx, old(State()), b, ofs, signed, memW, w);
        if s.None? then r.None? else r == Some(s.value.1) && State() == s.value.0
    {
      var p :- EmitAddr(b, ofs);
      Define(LoadMem(next, memW, p));
      var v := EmitExt(signed, w, Reg(next - 1, memW));
      return Some(v);
    }

    method EmitDeposit(a: Operand, b: Operand, ofs: nat, len: nat) returns (r: Operand)
      requires Valid()
      modifies this`code, this`next
      ensures Valid() && (State(), r) == T.EmitDeposit(ctx, old(State()), a, b, ofs, len)
    {
      if ofs == 0 && len == 32 { return b; }
      var mask := Pow2(len) - 1;
      var t1 := b;
      if ofs + len < 32 {
        t1 := EmitBin(BinOp.And, b, Const(Cut(W32, mask)));
      }
      t1 := EmitBin(BinOp.Shl, t1, Const(Cut(W32, ofs)));
      r := EmitBin(BinOp.And, a, Const(T.KeepMask(ofs, len)));
      r := EmitBin(BinOp.Or, r, t1);
    }

    method EmitPair(hi: Operand, lo: Operand) returns (r: Operand)
      requires Valid()
      modifies this`code, this`next
      ensures Valid() && (State(), r) == T.EmitPair(ctx, old(State()), hi, lo)
    {
      var h := EmitExt(false, W64, hi);
      h := EmitBin(BinOp.Shl, h, Const(Cut(W64, 32)));
      var l := EmitExt(false, W64, lo);
      r := EmitBin(BinOp.Or, h, l);
    }

    method GetArgs(args: seq<CallArg>) returns (r: Option<seq<Operand>>)
      requires Valid()
      modifies this`code, this`next, values, memValuesPtr
      ensures Valid()
      ensures var s := T.GetArgs(ctx, old(State()), args);
        if s.None? then r.None? else r == Some(s.value.1) && State() == s.value.0
      decreases args
    {
      if args == [] { return Some([]); }
      if args[0].Dummy? {
        r := GetArgs(args[1..]);
        return;
      }
      var v :- GetValue(args[0].t);
      var vs :- GetArgs(args[1..]);
      return Some([v] + vs);
    }

    method GenMov(op: Op) returns (r: Option<()>)
      requires Valid() && op.Mov?
      modifies this`code, this`next, values, memValuesPtr
      ensures Valid()
      ensures var s := T.GenMov(ctx, old(State()), op);
        if s.None? then r.None? else r.Some? && State() == s.value
    {
      var v :- GetValue(op.src);
      if v.Type() != op.w && !(op.w == W32 && v.Type() == W64) { return None; }
      v := EmitTrunc(op.w, v);
      r := SetValue(op.dst, v);
    }

    method GenExtend(op: Op) returns (r: Option<()>)
      requires Valid() && op.Extend?
      modifies this`code, this`next, values, memValuesPtr
      ensures Valid()
      ensures var s := T.GenExtend(ctx, old(State()), op);
        if s.None? then r.None? else r.Some? && State() == s.value
    {
      var v :- GetValue(op.src);
      if BitCount(v.Type()) < BitCount(op.from) || BitCount(op.from) >= BitCount(op.w) { return None; }
      v := EmitTrunc(op.from, v);
      v := EmitExt(op.signed, op.w, v);
      r := SetValue(op.dst, v);
    }

    method GenLd(op: Op) returns (r: Option<()>)
      requires Valid() && op.Ld?
      modifies this`code, this`next, values, memValuesPtr
      ensures Valid()
      ensures var s := T.GenLd(ctx, old(State()), op);
        if s.None? then r.None? else r.Some? && State() == s.value
    {
      var b :- GetValue(op.base);
      if BitCount(op.memW) > BitCount(op.w) || op.memW == W1 { return None; }
      var v :- EmitLoad(b, op.ofs, op.signed, op.memW, op.w);
      r := SetValue(op.dst, v);
    }

    method GenSt(op: Op) returns (r: Option<()>)
      requires Valid() && op.St?
      modifies this`code, this`next, values, memValuesPtr
      ensures Valid()
      ensures var s := T.GenSt(ctx, old(State()), op);
        if s.None? then r.None? else r.Some? && State() == s.value
    {
      var v :- GetValue(op.src);
      var b :- GetValue(op.base);
      if v.Type() != op.w || BitCount(op.memW) > BitCount(op.w) || op.memW == W1 { return None; }
      var p :- EmitAddr(b, op.ofs);
      v := EmitTrunc(op.memW, v);
      Put(StoreMem(v, p));
      return Some(());
    }

    method GenArith(op: Op) returns (r: Option<()>)
      requires Valid() && op.Arith?
      modifies this`code, this`next, values, memValuesPtr
      ensures Valid()
      ensures var s := T.GenArith(ctx, old(State()), op);
        if s.None? then r.None? else r.Some? && State() == s.value
    {
      var Arith(bop, w, dst, ta, tb) := op;
      var a :- GetValue(ta);
      var b :- GetValue(tb);
      var x :- AdjustTypeSize(w, a);
      var y :- AdjustTypeSize(w, b);
      var z := EmitBin(bop, x, y);
      r := SetValue(dst, z);
    }

    method GenUnary(w: Width, dst: nat, src: nat, op: BinOp, left: int) returns (r: Option<()>)
      requires Valid()
      modifies this`code, this`next, values, memValuesPtr
      ensures Valid()
      ensures var s := T.GenUnary(ctx, old(State()), w, dst, src, op, left);
        if s.None? then r.None? else r.Some? && State() == s.value
    {
      var v :- GetValue(src);
      if v.Type() != w { return None; }
      v := EmitBin(op, Const(Cut(w, left)), v);
      r := SetValue(dst, v);
    }

    method GenDeposit(op: Op) returns (r: Option<()>)
      requires Valid() && op.Deposit32?
      modifies this`code, this`next, values, memValuesPtr
      ensures Valid()
      ensures var s := T.GenDeposit(ctx, old(State()), op);
        if s.None? then r.None? else r.Some? && State() == s.value
    {
      var Deposit32(dst, ta, tb, at, len) := op;
      var a :- GetValue(ta);
      var b :- GetValue(tb);
      if a.Type() != W32 || BitCount(b.Type()) < 32 || len == 0 || at + len > 32 { return None; }
      b := EmitTrunc(W32, b);
      var x := EmitDeposit(a, b, at, len);
      r := SetValue(dst, x);
    }

    method GenAdd2(op: Op) returns (r: Option<()>)
      requires Valid() && op.Add2?
      modifies this`code, this`next, values, memValuesPtr
      ensures Valid()
      ensures var s := T.GenAdd2(ctx, old(State()), op);
        if s.None? then r.None? else r.Some? && State() == s.value
    {
      var Add2(rl, rh, tal, tah, tbl, tbh) := op;
      var al :- GetValue(tal);
      var ah :- GetValue(tah);
      var bl :- GetValue(tbl);
      var bh :- GetValue(tbh);
      if al.Type() != W32 || ah.Type() != W32 || bl.Type() != W32 || bh.Type() != W32 { return None; }
      r := GenAdd2Tail(rl, rh, al, ah, bl, bh);
    }

    method GenAdd2Tail(rl: nat, rh: nat, al: Operand, ah: Operand, bl: Operand, bh: Operand) returns (r: Option<()>)
      requires Valid()
      modifies this`code, this`next, values, memValuesPtr
      ensures Valid()
      ensures var s := T.GenAdd2Tail(ctx, old(State()), rl, rh, al, ah, bl, bh);
        if s.None? then r.None? else r.Some? && State() == s.value
    {
      var a := EmitPair(ah, al);
      var b := EmitPair(bh, bl);
      var sum := EmitBin(BinOp.Add, a, b);
      var lo := EmitTrunc(W32, sum);
      var up := EmitBin(BinOp.LShr, sum, Const(Cut(W64, 32)));
      var hi := EmitTrunc(W32, up);
      var _ :- SetValue(rl, lo);
      r := SetValue(rh, hi);
    }

    method GenCall(op: Op) returns (r: Option<()>)
      requires Valid() && op.Call?
      modifies this`code, this`next, values, memValuesPtr
      ensures Valid()
      ensures var s := T.GenCall(ctx, old(State()), op);
        if s.None? then r.None? else r.Some? && State() == s.value
    {
      var Call(helper, result, args) := op;
      var vs :- GetArgs(args);
      if result.Some? && result.value >= |ctx.temps| { return None; }
      var resultW := if result.None? then None else Some(ctx.temps[result.value].w);
      var d := next;
      Define(CallHelper(d, resultW, helper, vs));
      ForgetMemory();
      if result.None? { return Some(()); }
      r := SetValue(result.value, Reg(d, resultW.value));
    }

    method GenBrCond(pos: nat, op: Op) returns (r: Option<()>)
      requires Valid() && op.BrCond?
      modifies this, values, memValuesPtr
      ensures Valid()
      ensures var s := T.GenOp(ctx, old(State()), pos, op);
        if s.None? then r.None? else r.Some? && State() == s.value
    {
      var BrCond(w, ta, tb, cond, target) := op;
      var a :- GetValue(ta);
      var b :- GetValue(tb);
      if a.Type() != w || b.Type() != w { return None; }
      Define(ICmp(next, cond, a, b));
      Put(CondJump(Reg(next - 1, W1), Label(target), After(pos)));
      StartNewBasicBlock(After(pos));
      return Some(());
    }

    /** It answers, while the caches are typed, exactly if the operation gets what it asks for. */
    method GenerateOperation(pos: nat, op: Op) returns (r: Option<()>)
      requires Valid()
      modifies this, values, memValuesPtr
      ensures Valid()
      ensures op.Straight() && old(Typing.Typed(ctx, State())) ==>
        (r.Some? <==> Typing.Asks(ctx, old(Typing.TypesIn(ctx, State())), op))
      ensures var s := T.GenOp(ctx, old(State()), pos, op);
        if s.None? then r.None? else r.Some? && State() == s.value
    {
      if op.Straight() {
        C.GenStraight(ctx, State(), pos, op);
        if Typing.Typed(ctx, State()) { Typing.JudgeStraight(ctx, State(), op); }
        r := GenStraight(op);
      } else {
        r := GenTransfer(pos, op);
      }
    }

    /** Operations that are followed by the next one. */
    method GenStraight(op: Op) returns (r: Option<()>)
      requires Valid() && op.Straight()
      modifies this`code, this`next, values, memValuesPtr
      ensures Valid()
      ensures var s := T.Gen(ctx, old(State()), op);
        if s.None? then r.None? else r.Some? && State() == s.value
    {
      match op
      case Nop => r := Some(());
      case Discard(t) =>
        if t >= values.Length { return None; }
        values[t] := None;
        r := Some(());
      case Movi(w, dst, imm) => r := SetValue(dst, Const(Cut(w, imm)));
      case Mov(_, _, _) => r := GenMov(op);
      case Extend(_, _, _, _, _) => r := GenExtend(op);
      case Ld(_, _, _, _, _, _) => r := GenLd(op);
      case St(_, _, _, _, _) => r := GenSt(op);
      case Arith(_, _, _, _, _) => r := GenArith(op);
      case Not(w, dst, src) => r := GenUnary(w, dst, src, BinOp.Xor, -1);
      case Neg(w, dst, src) => r := GenUnary(w, dst, src, BinOp.Sub, 0);
      case Deposit32(_, _, _, _, _) => r := GenDeposit(op);
      case Add2(_, _, _, _, _, _) => r := GenAdd2(op);
      case Call(_, _, _) => r := GenCall(op);
      case GotoTb(n) =>
        Put(StoreMem(Const(Cut(W8, n)), Const(Cut(W64, ctx.gotoTb))));
        r := Some(());
    }

    /** Branches, labels and the end of the block. */
    method GenTransfer(pos: nat, op: Op) returns (r: Option<()>)
      requires Valid() && !op.Straight()
      modifies this, values, memValuesPtr
      ensures Valid()
      ensures var s := T.GenOp(ctx, old(State()), pos, op);
        if s.None? then r.None? else r.Some? && State() == s.value
    {
      match op
      case Br(target) =>
        Put(Jump(Label(target)));
        StartNewBasicBlock(After(pos));
        r := Some(());
      case BrCond(_, _, _, _, _) => r := GenBrCond(pos, op);
      case SetLabel(target) =>
        if Label(target) in done || cur == Label(target) { return None; }
        StartNewBasicBlock(Label(target));
        r := Some(());
      case ExitTb(ret) =>
        Put(Ret(Cut(W64, ret)));
        r := Some(());
    }

    /** Translate a whole block. For every environment and memory, and however long the block runs, the
        function that comes out does what the operations do. */
    method GenerateCode(ops: seq<Op>) returns (r: Option<map<BlockId, seq<Instr>>>)
      requires Valid() && State() == T.Start(ctx)
      modifies this, values, memValuesPtr
      ensures r == T.Translate(ctx, ops)
      ensures r.Some? <==> Typing.Acceptable(ctx, ops)
      ensures r.Some? ==> forall env: Env, mem: Mem, fuel: nat ::
        Run(env, ctx, ops, 0, Tcg.State(mem, map[], map[]), fuel) != Undefined ==>
        RunBlocks(env, r.value, Entry, Machine(map[], map[], mem), fuel)
          == Run(env, ctx, ops, 0, Tcg.State(mem, map[], map[]), fuel)
    {
      Typing.TranslatesIff(ctx, ops);
      for i := 0 to |ops|
        invariant Valid() && T.GenPrefix(ctx, ops, i) == Some(State())
      {
        var ok := GenerateOperation(i, ops[i]);
        if ok.None? {
          NeverTranslates(ctx, ops, i);
          return None;
        }
      }
      if code == [] || !code[|code| - 1].Ret? {
        code := code + [Ret(Cut(W64, 0))];
      }
      r := Some(done[cur := code]);
      forall env: Env, mem: Mem, fuel: nat | Run(env, ctx, ops, 0, Tcg.State(mem, map[], map[]), fuel) != Undefined
        ensures RunBlocks(env, r.value, Entry, Machine(map[], map[], mem), fuel)
             == Run(env, ctx, ops, 0, Tcg.State(mem, map[], map[]), fuel)
      {
        C.TranslationCorrect(env, ctx, ops, mem, fuel);
      }
    }
  }

  /** What the translator keeps for a global: the argument number of a register, the base of a memory global. */
  function GlobalIndex(ctx: Context, i: nat): nat
    requires GoodContext(ctx) && i < ctx.nbGlobals
  {
    if ctx.temps[i].kind.FixedReg? then FixedCount(ctx, i) else Base(ctx, i)
  }

  function RawIndex(ctx: Context, i: nat): nat
    requires GoodContext(ctx) && i < ctx.nbGlobals
  {
    if ctx.temps[i].kind.FixedReg? then FixedCount(ctx, i) else ctx.temps[i].kind.memReg
  }

  ghost predicate Indexes(ctx: Context, m: map<nat, nat>, n: nat)
    requires n <= |ctx.temps|
  {
    forall r: nat :: RegIndex(ctx, r, n) == if r in m then Some(m[r]) else None
  }

  lemma IndexesNext(ctx: Context, m: map<nat, nat>, n: nat)
    requires n < |ctx.temps| && Indexes(ctx, m, n)
    ensures ctx.temps[n].kind.FixedReg? ==> Indexes(ctx, m[ctx.temps[n].kind.reg := n], n + 1)
    ensures !ctx.temps[n].kind.FixedReg? ==> Indexes(ctx, m, n + 1)
  {
  }

  lemma NeverTranslates(ctx: Context, ops: seq<Op>, i: nat)
    requires GoodContext(ctx) && i < |ops| && T.GenPrefix(ctx, ops, i + 1).None?
    ensures T.Translate(ctx, ops).None?
  {
    if T.Translate(ctx, ops).Some? { C.PrefixesTranslate(ctx, ops, i + 1, |ops|); }
  }

  lemma NoLocalGlobals(ctx: Context, n: nat)
    requires GoodContext(ctx) && n <= ctx.nbGlobals
    ensures T.Allocas(ctx, n) == []
  {
    if n > 0 { NoLocalGlobals(ctx, n - 1); }
  }
}
