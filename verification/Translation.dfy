/** What each step of the TCG to LLVM translator does to its caches and to the code under construction.
    None is an assertion of the translator that fails. */
module Translation {
  import opened Options
  import opened Words
  import opened Tcg
  import opened LlvmIr

  /** values: the known value of each temp (m_values); ptrs: the known address of each memory-backed global
      (m_memValuesPtr); cur and code: the block at the insertion point; done: the finished blocks. */
  datatype Cache = Cache(
    values: seq<Option<Operand>>,
    ptrs: seq<Option<Operand>>,
    next: nat,
    cur: BlockId,
    code: seq<Instr>,
    done: map<BlockId, seq<Instr>>)

  predicate Shaped(ctx: Context, c: Cache) {
    GoodContext(ctx) && |c.values| == |ctx.temps| && |c.ptrs| == |ctx.temps|
  }

  /** Every step keeps the shape, the block and the finished blocks, and only appends code. */
  predicate Grows(ctx: Context, c: Cache, c': Cache) {
    && Shaped(ctx, c')
    && c'.cur == c.cur && c'.done == c.done
    && c.next <= c'.next
    && c.code <= c'.code
  }

  /** Append an instruction that defines the next register. */
  function Def(ctx: Context, c: Cache, i: Instr): (c': Cache)
    requires Shaped(ctx, c)
    ensures Grows(ctx, c, c')
  {
    c.(code := c.code + [i], next := c.next + 1)
  }

  /** Append an instruction that defines nothing. */
  function Put(ctx: Context, c: Cache, i: Instr): (c': Cache)
    requires Shaped(ctx, c)
    ensures Grows(ctx, c, c')
  {
    c.(code := c.code + [i])
  }

  /** The value of temp idx: the cached one, or a fresh load that is then cached. */
  function GetValue(ctx: Context, c: Cache, idx: nat): (r: Option<(Cache, Operand)>)
    requires Shaped(ctx, c)
    ensures r.Some? ==> Grows(ctx, c, r.value.0)
    decreases if idx < ctx.nbGlobals && ctx.temps[idx].kind.InMemory? then 3 else 1
  {
    if idx >= |ctx.temps| then None
    else if c.values[idx].Some? then Some((c, c.values[idx].value))
    else if idx < ctx.nbGlobals then
      var (c1, p) :- GetPtr(ctx, c, idx);
      var v := Reg(c1.next, ctx.temps[idx].w);
      var c2 := Def(ctx, c1, LoadMem(c1.next, ctx.temps[idx].w, p));
      Some((c2.(values := c2.values[idx := Some(v)]), v))
    else if ctx.temps[idx].kind.Local? then
      var v := Reg(c.next, ctx.temps[idx].w);
      var c2 := Def(ctx, c, LoadSlot(c.next, ctx.temps[idx].w, idx));
      Some((c2.(values := c2.values[idx := Some(v)]), v))
    else None
  }

  /** The address of global idx: the cached one, or a fresh computation that is then cached. */
  function GetPtr(ctx: Context, c: Cache, idx: nat): (r: Option<(Cache, Operand)>)
    requires Shaped(ctx, c) && idx < ctx.nbGlobals
    ensures r.Some? ==> Grows(ctx, c, r.value.0)
    decreases if ctx.temps[idx].kind.InMemory? then 2 else 0
  {
    if c.ptrs[idx].Some? then Some((c, c.ptrs[idx].value))
    else if ctx.temps[idx].kind.FixedReg? then
      var p := Reg(c.next, W64);
      var c1 := Def(ctx, c, ArgPtr(c.next, FixedCount(ctx, idx)));
      Some((c1.(ptrs := c1.ptrs[idx := Some(p)]), p))
    else
      var (c1, v) :- GetValue(ctx, c, Base(ctx, idx));
      if v.Type() != W64 then None
      else
        var p := Reg(c1.next, W64);
        var c2 := Def(ctx, c1, Bin(c1.next, BinOp.Add, v, Const(Cut(W64, ctx.temps[idx].kind.memOffset))));
        Some((c2.(ptrs := c2.ptrs[idx := Some(p)]), p))
  }

  /** Assign temp idx: cache the value and, for a global or a local, write it through to memory. */
  function SetValue(ctx: Context, c: Cache, idx: nat, v: Operand): (r: Option<Cache>)
    requires Shaped(ctx, c)
    ensures r.Some? ==> Grows(ctx, c, r.value)
  {
    if idx >= |ctx.temps| then None
    else
      var c1 := c.(values := c.values[idx := Some(v)]);
      if idx < ctx.nbGlobals then
        var (c2, p) :- GetPtr(ctx, c1, idx);
        if v.Type() != ctx.temps[idx].w then None else Some(Put(ctx, c2, StoreMem(v, p)))
      else if ctx.temps[idx].kind.Local? then
        if v.Type() != ctx.temps[idx].w then None else Some(Put(ctx, c1, StoreSlot(v, idx)))
      else Some(c1)
  }

  function EmitBin(ctx: Context, c: Cache, op: BinOp, a: Operand, b: Operand): (r: (Cache, Operand))
    requires Shaped(ctx, c)
    ensures Grows(ctx, c, r.0)
  {
    (Def(ctx, c, Bin(c.next, op, a, b)), Reg(c.next, a.Type()))
  }

  /** CreateTrunc returns its operand when the width is already right. */
  function EmitTrunc(ctx: Context, c: Cache, w: Width, a: Operand): (r: (Cache, Operand))
    requires Shaped(ctx, c)
    ensures Grows(ctx, c, r.0)
  {
    if a.Type() == w then (c, a) else (Def(ctx, c, Trunc(c.next, w, a)), Reg(c.next, w))
  }

  /** CreateSExt and CreateZExt return their operand when the width is already right. */
  function EmitExt(ctx: Context, c: Cache, signed: bool, w: Width, a: Operand): (r: (Cache, Operand))
    requires Shaped(ctx, c)
    ensures Grows(ctx, c, r.0)
  {
    if a.Type() == w then (c, a)
    else (Def(ctx, c, if signed then SExt(c.next, w, a) else ZExt(c.next, w, a)), Reg(c.next, w))
  }

  /** adjustTypeSize: 64-bit operands of a 32-bit operation are truncated. */
  function Adjust(ctx: Context, c: Cache, w: Width, a: Operand): (r: Option<(Cache, Operand)>)
    requires Shaped(ctx, c)
    ensures r.Some? ==> Grows(ctx, c, r.value.0)
  {
    if a.Type() == w then Some((c, a))
    else if w == W32 && a.Type() == W64 then Some(EmitTrunc(ctx, c, W32, a))
    else None
  }

  function GetArgs(ctx: Context, c: Cache, args: seq<CallArg>): (r: Option<(Cache, seq<Operand>)>)
    requires Shaped(ctx, c)
    ensures r.Some? ==> Grows(ctx, c, r.value.0)
    decreases args
  {
    if args == [] then Some((c, []))
    else if args[0].Dummy? then GetArgs(ctx, c, args[1..])
    else
      var (c1, v) :- GetValue(ctx, c, args[0].t);
      var (c2, vs) :- GetArgs(ctx, c1, args[1..]);
      Some((c2, [v] + vs))
  }

  /** After a call nothing in memory is known any more. */
  function ForgetMemory(ctx: Context, c: Cache): (c': Cache)
    requires Shaped(ctx, c)
    ensures Grows(ctx, c, c')
  {
    c.(values := seq(|c.values|, i requires 0 <= i < |c.values| =>
                     if i < ctx.nbGlobals || ctx.temps[i].kind.Local? then None else c.values[i]),
       ptrs := seq(|c.ptrs|, i requires 0 <= i < |c.ptrs| => if i < ctx.nbGlobals then None else c.ptrs[i]))
  }

  /** Address of a raw access: base plus constant offset. */
  function EmitAddr(ctx: Context, c: Cache, b: Operand, ofs: int): (r: Option<(Cache, Operand)>)
    requires Shaped(ctx, c)
    ensures r.Some? ==> Grows(ctx, c, r.value.0)
  {
    if b.Type() != W64 then None else Some(EmitBin(ctx, c, BinOp.Add, b, Const(Cut(W64, ofs))))
  }

  /** ~(mask << ofs) */
  function KeepMask(ofs: nat, len: nat): Word { Cut(W32, Range(W32) - 1 - (Pow2(len) - 1) * Pow2(ofs)) }

  /** The len low bits of b shifted to ofs. The mask is left out when the shift itself drops the high bits. */
  function EmitField(ctx: Context, c: Cache, b: Operand, ofs: nat, len: nat): (r: (Cache, Operand))
    requires Shaped(ctx, c)
    ensures Grows(ctx, c, r.0)
  {
    var (c1, t0) :=
      if ofs + len < 32 then EmitBin(ctx, c, BinOp.And, b, Const(Cut(W32, Pow2(len) - 1))) else (c, b);
    EmitBin(ctx, c1, BinOp.Shl, t0, Const(Cut(W32, ofs)))
  }

  /** a with the field's place cleared and the field put there. */
  function EmitFill(ctx: Context, c: Cache, a: Operand, field: Operand, ofs: nat, len: nat): (r: (Cache, Operand))
    requires Shaped(ctx, c)
    ensures Grows(ctx, c, r.0)
  {
    var (c3, hole) := EmitBin(ctx, c, BinOp.And, a, Const(KeepMask(ofs, len)));
    EmitBin(ctx, c3, BinOp.Or, hole, field)
  }

  /** Insert the low len bits of b into a at position ofs. */
  function EmitDeposit(ctx: Context, c: Cache, a: Operand, b: Operand, ofs: nat, len: nat): (r: (Cache, Operand))
    requires Shaped(ctx, c)
    ensures Grows(ctx, c, r.0)
  {
    if ofs == 0 && len == 32 then (c, b)
    else
      var (c2, field) := EmitField(ctx, c, b, ofs, len);
      EmitFill(ctx, c2, a, field, ofs, len)
  }

  /** (hi << 32) | lo as a 64-bit value. */
  function EmitPair(ctx: Context, c: Cache, hi: Operand, lo: Operand): (r: (Cache, Operand))
    requires Shaped(ctx, c)
    ensures Grows(ctx, c, r.0)
  {
    var (c1, h) := EmitExt(ctx, c, false, W64, hi);
    var (c2, s) := EmitBin(ctx, c1, BinOp.Shl, h, Const(Cut(W64, 32)));
    var (c3, l) := EmitExt(ctx, c2, false, W64, lo);
    EmitBin(ctx, c3, BinOp.Or, s, l)
  }

  function GenMov(ctx: Context, c: Cache, op: Op): (r: Option<Cache>)
    requires Shaped(ctx, c) && op.Mov?
    ensures r.Some? ==> Grows(ctx, c, r.value)
  {
    var Mov(w, dst, src) := op;
    var (c1, v) :- GetValue(ctx, c, src);
    if v.Type() == w || (w == W32 && v.Type() == W64) then
      var (c2, x) := EmitTrunc(ctx, c1, w, v);
      SetValue(ctx, c2, dst, x)
    else None
  }

  function GenExtend(ctx: Context, c: Cache, op: Op): (r: Option<Cache>)
    requires Shaped(ctx, c) && op.Extend?
    ensures r.Some? ==> Grows(ctx, c, r.value)
  {
    var Extend(signed, from, w, dst, src) := op;
    var (c1, v) :- GetValue(ctx, c, src);
    if BitCount(v.Type()) < BitCount(from) || BitCount(from) >= BitCount(w) then None
    else
      var (c2, x) := EmitTrunc(ctx, c1, from, v);
      var (c3, y) := EmitExt(ctx, c2, signed, w, x);
      SetValue(ctx, c3, dst, y)
  }

  /** Address, load and extension. */
  function EmitLoad(ctx: Context, c: Cache, b: Operand, ofs: int, signed: bool, memW: Width, w: Width)
    : (r: Option<(Cache, Operand)>)
    requires Shaped(ctx, c)
    ensures r.Some? ==> Grows(ctx, c, r.value.0)
  {
    var (c1, p) :- EmitAddr(ctx, c, b, ofs);
    Some(EmitExt(ctx, Def(ctx, c1, LoadMem(c1.next, memW, p)), signed, w, Reg(c1.next, memW)))
  }

  function GenLd(ctx: Context, c: Cache, op: Op): (r: Option<Cache>)
    requires Shaped(ctx, c) && op.Ld?
    ensures r.Some? ==> Grows(ctx, c, r.value)
  {
    var Ld(signed, memW, w, dst, base, ofs) := op;
    var (c1, b) :- GetValue(ctx, c, base);
    if BitCount(memW) > BitCount(w) || memW == W1 then None
    else
      var (c2, y) :- EmitLoad(ctx, c1, b, ofs, signed, memW, w);
      SetValue(ctx, c2, dst, y)
  }

  function GenSt(ctx: Context, c: Cache, op: Op): (r: Option<Cache>)
    requires Shaped(ctx, c) && op.St?
    ensures r.Some? ==> Grows(ctx, c, r.value)
  {
    var St(memW, w, src, base, ofs) := op;
    var (c1, v) :- GetValue(ctx, c, src);
    var (c2, b) :- GetValue(ctx, c1, base);
    if v.Type() != w || BitCount(memW) > BitCount(w) || memW == W1 then None
    else
      var (c3, p) :- EmitAddr(ctx, c2, b, ofs);
      var (c4, x) := EmitTrunc(ctx, c3, memW, v);
      Some(Put(ctx, c4, StoreMem(x, p)))
  }

  function GenArith(ctx: Context, c: Cache, op: Op): (r: Option<Cache>)
    requires Shaped(ctx, c) && op.Arith?
    ensures r.Some? ==> Grows(ctx, c, r.value)
  {
    var Arith(bop, w, dst, ta, tb) := op;
    var (c1, a) :- GetValue(ctx, c, ta);
    var (c2, b) :- GetValue(ctx, c1, tb);
    var (c3, x) :- Adjust(ctx, c2, w, a);
    var (c4, y) :- Adjust(ctx, c3, w, b);
    var (c5, z) := EmitBin(ctx, c4, bop, x, y);
    SetValue(ctx, c5, dst, z)
  }

  /** not is xor with all ones, neg is subtraction from zero. */
  function GenUnary(ctx: Context, c: Cache, w: Width, dst: nat, src: nat, op: BinOp, left: int): (r: Option<Cache>)
    requires Shaped(ctx, c)
    ensures r.Some? ==> Grows(ctx, c, r.value)
  {
    var (c1, v) :- GetValue(ctx, c, src);
    if v.Type() != w then None
    else
      var (c2, x) := EmitBin(ctx, c1, op, Const(Cut(w, left)), v);
      SetValue(ctx, c2, dst, x)
  }

  /** Everything in deposit after the operands are fetched. */
  function GenDepositTail(ctx: Context, c: Cache, dst: nat, a: Operand, b: Operand, ofs: nat, len: nat)
    : (r: Option<Cache>)
    requires Shaped(ctx, c)
    ensures r.Some? ==> Grows(ctx, c, r.value)
  {
    var (c3, b32) := EmitTrunc(ctx, c, W32, b);
    var (c4, x) := EmitDeposit(ctx, c3, a, b32, ofs, len);
    SetValue(ctx, c4, dst, x)
  }

  function GenDeposit(ctx: Context, c: Cache, op: Op): (r: Option<Cache>)
    requires Shaped(ctx, c) && op.Deposit32?
    ensures r.Some? ==> Grows(ctx, c, r.value)
  {
    var Deposit32(dst, ta, tb, at, len) := op;
    var (c1, a) :- GetValue(ctx, c, ta);
    var (c2, b) :- GetValue(ctx, c1, tb);
    if a.Type() != W32 || BitCount(b.Type()) < 32 || len == 0 || at + len > 32 then None
    else GenDepositTail(ctx, c2, dst, a, b, at, len)
  }

  /** Everything in add2 after the operands are fetched. */
  function GenAdd2Tail(ctx: Context, c4: Cache, rl: nat, rh: nat, al: Operand, ah: Operand, bl: Operand, bh: Operand)
    : (r: Option<Cache>)
    requires Shaped(ctx, c4)
    ensures r.Some? ==> Grows(ctx, c4, r.value)
  {
    var (c5, a) := EmitPair(ctx, c4, ah, al);
    var (c6, b) := EmitPair(ctx, c5, bh, bl);
    var (c7, sum) := EmitBin(ctx, c6, BinOp.Add, a, b);
    var (c8, lo) := EmitTrunc(ctx, c7, W32, sum);
    var (c9, up) := EmitBin(ctx, c8, BinOp.LShr, sum, Const(Cut(W64, 32)));
    var (c10, hi) := EmitTrunc(ctx, c9, W32, up);
    var c11 :- SetValue(ctx, c10, rl, lo);
    SetValue(ctx, c11, rh, hi)
  }

  function GenAdd2(ctx: Context, c: Cache, op: Op): (r: Option<Cache>)
    requires Shaped(ctx, c) && op.Add2?
    ensures r.Some? ==> Grows(ctx, c, r.value)
  {
    var Add2(rl, rh, tal, tah, tbl, tbh) := op;
    var (c1, al) :- GetValue(ctx, c, tal);
    var (c2, ah) :- GetValue(ctx, c1, tah);
    var (c3, bl) :- GetValue(ctx, c2, tbl);
    var (c4, bh) :- GetValue(ctx, c3, tbh);
    if al.Type() != W32 || ah.Type() != W32 || bl.Type() != W32 || bh.Type() != W32 then None
    else GenAdd2Tail(ctx, c4, rl, rh, al, ah, bl, bh)
  }

  function GenCall(ctx: Context, c: Cache, op: Op): (r: Option<Cache>)
    requires Shaped(ctx, c) && op.Call?
    ensures r.Some? ==> Grows(ctx, c, r.value)
  {
    var Call(helper, result, args) := op;
    var (c1, vs) :- GetArgs(ctx, c, args);
    if result.Some? && result.value >= |ctx.temps| then None
    else
      var resultW := if result.None? then None else Some(ctx.temps[result.value].w);
      var c2 := Def(ctx, c1, CallHelper(c1.next, resultW, helper, vs));
      var c3 := ForgetMemory(ctx, c2);
      if result.None? then Some(c3) else SetValue(ctx, c3, result.value, Reg(c1.next, resultW.value))
  }

  /** Translate one operation that stays in its block. */
  function Gen(ctx: Context, c: Cache, op: Op): (r: Option<Cache>)
    requires Shaped(ctx, c) && op.Straight()
    ensures r.Some? ==> Grows(ctx, c, r.value)
  {
    match op
    case Nop => Some(c)
    case Discard(t) => if t < |c.values| then Some(c.(values := c.values[t := None])) else None
    case Movi(w, dst, imm) => SetValue(ctx, c, dst, Const(Cut(w, imm)))
    case Mov(_, _, _) => GenMov(ctx, c, op)
    case Extend(_, _, _, _, _) => GenExtend(ctx, c, op)
    case Ld(_, _, _, _, _, _) => GenLd(ctx, c, op)
    case St(_, _, _, _, _) => GenSt(ctx, c, op)
    case Arith(_, _, _, _, _) => GenArith(ctx, c, op)
    case Not(w, dst, src) => GenUnary(ctx, c, w, dst, src, BinOp.Xor, -1)
    case Neg(w, dst, src) => GenUnary(ctx, c, w, dst, src, BinOp.Sub, 0)
    case Deposit32(_, _, _, _, _) => GenDeposit(ctx, c, op)
    case Add2(_, _, _, _, _, _) => GenAdd2(ctx, c, op)
    case Call(_, _, _) => GenCall(ctx, c, op)
    case GotoTb(n) => Some(Put(ctx, c, StoreMem(Const(Cut(W8, n)), Const(Cut(W64, ctx.gotoTb)))))
  }

  // ----- blocks -----

  predicate EndsBlock(code: seq<Instr>) { code != [] && code[|code| - 1].IsTerminator() }

  /** Close the current block, falling through to b if nothing else ended it, and start b with nothing known. */
  function StartBlock(ctx: Context, c: Cache, b: BlockId): (c': Cache)
    requires Shaped(ctx, c)
    ensures Shaped(ctx, c')
  {
    var code := if EndsBlock(c.code) then c.code else c.code + [Jump(b)];
    Cache(seq(|c.values|, _ => None),
          seq(|c.ptrs|, i requires 0 <= i < |c.ptrs| => if i < ctx.nbGlobals then None else c.ptrs[i]),
          c.next, b, [], c.done[c.cur := code])
  }

  /** The comparison of a conditional branch, and the jump it decides. */
  function GenCondition(ctx: Context, c: Cache, pos: nat, op: Op): (r: Option<(Cache, Instr)>)
    requires Shaped(ctx, c) && op.BrCond?
    ensures r.Some? ==> Grows(ctx, c, r.value.0) && r.value.1.CondJump?
  {
    var BrCond(w, ta, tb, cond, target) := op;
    var (c1, a) :- GetValue(ctx, c, ta);
    var (c2, b) :- GetValue(ctx, c1, tb);
    if a.Type() != w || b.Type() != w then None
    else Some((Def(ctx, c2, ICmp(c2.next, cond, a, b)), CondJump(Reg(c2.next, W1), Label(target), After(pos))))
  }

  /** Translate the operation at position pos. */
  function GenOp(ctx: Context, c: Cache, pos: nat, op: Op): (r: Option<Cache>)
    requires Shaped(ctx, c)
    ensures r.Some? ==> Shaped(ctx, r.value)
  {
    match op
    case Br(target) => Some(StartBlock(ctx, Put(ctx, c, Jump(Label(target))), After(pos)))
    case BrCond(_, _, _, _, _) =>
      var (c3, j) :- GenCondition(ctx, c, pos, op);
      Some(StartBlock(ctx, Put(ctx, c3, j), After(pos)))
    case SetLabel(target) =>
      if Label(target) in c.done || c.cur == Label(target) then None else Some(StartBlock(ctx, c, Label(target)))
    case ExitTb(ret) => Some(Put(ctx, c, Ret(Cut(W64, ret))))
    case op => Gen(ctx, c, op)
  }

  /** One alloca per local temp, in order of their indices. */
  function Allocas(ctx: Context, n: nat): seq<Instr>
    requires n <= |ctx.temps|
  {
    if n == 0 then []
    else Allocas(ctx, n - 1) + if ctx.temps[n - 1].kind.Local? then [Alloca(n - 1)] else []
  }

  function Start(ctx: Context): (c: Cache)
    requires GoodContext(ctx)
    ensures Shaped(ctx, c)
  {
    Cache(seq(|ctx.temps|, _ => None), seq(|ctx.temps|, _ => None), 0, Entry, Allocas(ctx, |ctx.temps|), map[])
  }

  /** The translator after the first n operations. */
  function GenPrefix(ctx: Context, ops: seq<Op>, n: nat): (r: Option<Cache>)
    requires GoodContext(ctx) && n <= |ops|
    ensures r.Some? ==> Shaped(ctx, r.value)
  {
    if n == 0 then Some(Start(ctx))
    else
      var c :- GenPrefix(ctx, ops, n - 1);
      GenOp(ctx, c, n - 1, ops[n - 1])
  }

  /** The finished function: the last block returns 0 unless it already ends in a return. */
  function Finish(c: Cache): map<BlockId, seq<Instr>> {
    c.done[c.cur := if c.code != [] && c.code[|c.code| - 1].Ret? then c.code else c.code + [Ret(Cut(W64, 0))]]
  }

  /** The function emitted for a translation block; None when an assertion of the translator fails. */
  function Translate(ctx: Context, ops: seq<Op>): Option<map<BlockId, seq<Instr>>>
    requires GoodContext(ctx)
  {
    var c :- GenPrefix(ctx, ops, |ops|);
    Some(Finish(c))
  }
}
