/** The TCG operations the translator handles, and what they mean.
    A global is the memory at its canonical address; a plain temporary or a local temporary is a variable. */
module Tcg {
  import opened Options
  import opened Words

  datatype TempKind =
    | FixedReg(reg: nat)
    | InMemory(memReg: nat, memOffset: int)
    | Local
    | Plain

  datatype Temp = Temp(kind: TempKind, w: Width) {
    predicate IsGlobal() { kind.FixedReg? || kind.InMemory? }
  }

  /** The temps of a translation block, globals first, and the address of the run-time goto_tb slot. */
  datatype Context = Context(temps: seq<Temp>, nbGlobals: nat, gotoTb: nat)

  datatype CallArg = Dummy | Arg(t: nat)

  datatype Op =
    | Nop
    | Discard(t: nat)
    | Movi(w: Width, dst: nat, imm: int)
    | Mov(w: Width, dst: nat, src: nat)
    | Extend(signed: bool, from: Width, w: Width, dst: nat, src: nat)
    | Ld(signed: bool, memW: Width, w: Width, dst: nat, base: nat, ofs: int)
    | St(memW: Width, w: Width, src: nat, base: nat, ofs: int)
    | Arith(op: BinOp, w: Width, dst: nat, a: nat, b: nat)
    | Not(w: Width, dst: nat, src: nat)
    | Neg(w: Width, dst: nat, src: nat)
    | Deposit32(dst: nat, a: nat, b: nat, at: nat, len: nat)
    | Add2(rl: nat, rh: nat, al: nat, ah: nat, bl: nat, bh: nat)
    | Call(helper: nat, result: Option<nat>, args: seq<CallArg>)
    | GotoTb(n: nat)
    | Br(target: nat)
    | BrCond(w: Width, a: nat, b: nat, cond: Cond, target: nat)
    | SetLabel(target: nat)
    | ExitTb(ret: nat)
  {
    predicate Straight() { !Br? && !BrCond? && !SetLabel? && !ExitTb? }
  }

  /** What the generated code runs in: where the caller keeps the array of fixed registers, and what
      the helper functions do. */
  datatype Env = Env(args: nat, helper: (nat, seq<Word>, Mem) -> (nat, Mem))

  /** The last of the first n globals that lives in host register reg. */
  function RegIndex(ctx: Context, reg: nat, n: nat): (r: Option<nat>)
    requires n <= |ctx.temps|
    ensures r.Some? ==> r.value < n && ctx.temps[r.value].kind == FixedReg(reg)
    ensures r.Some? ==> forall j :: r.value < j < n ==> ctx.temps[j].kind != FixedReg(reg)
    ensures r.None? ==> forall j :: 0 <= j < n ==> ctx.temps[j].kind != FixedReg(reg)
  {
    if n == 0 then None
    else if ctx.temps[n - 1].kind == FixedReg(reg) then Some(n - 1)
    else RegIndex(ctx, reg, n - 1)
  }

  /** How many of the first n globals live in host registers. */
  function FixedCount(ctx: Context, n: nat): nat
    requires n <= |ctx.temps|
  {
    if n == 0 then 0 else FixedCount(ctx, n - 1) + if ctx.temps[n - 1].kind.FixedReg? then 1 else 0
  }

  /** Globals come first; every memory global hangs off a word-sized host register. */
  predicate GoodContext(ctx: Context) {
    && ctx.nbGlobals <= |ctx.temps|
    && (forall i :: 0 <= i < |ctx.temps| ==> (i < ctx.nbGlobals <==> ctx.temps[i].IsGlobal()))
    && (forall i :: 0 <= i < |ctx.temps| ==> ctx.temps[i].w == W32 || ctx.temps[i].w == W64)
    && (forall i :: 0 <= i < ctx.nbGlobals && ctx.temps[i].kind.InMemory? ==>
          var r := RegIndex(ctx, ctx.temps[i].kind.memReg, ctx.nbGlobals);
          r.Some? && ctx.temps[r.value].w == W64)
  }

  /** The register global a memory global is addressed from. */
  function Base(ctx: Context, i: nat): (b: nat)
    requires GoodContext(ctx) && i < ctx.nbGlobals && ctx.temps[i].kind.InMemory?
    ensures b < ctx.nbGlobals && ctx.temps[b].kind.FixedReg? && ctx.temps[b].w == W64
  {
    RegIndex(ctx, ctx.temps[i].kind.memReg, ctx.nbGlobals).value
  }

  /** The address ofs bytes away from b. */
  function Displaced(b: Word, ofs: int): Word { Cut(W64, b.bits + Cut(W64, ofs).bits) }

  /** The address of slot k of the register array. */
  function ArgAddr(env: Env, k: nat): Word { Cut(W64, env.args + 8 * k) }

  /** The address of global i: its slot in the register array, or its offset from its base register. */
  function GlobalAddr(env: Env, ctx: Context, mem: Mem, i: nat): (a: Word)
    requires GoodContext(ctx) && i < ctx.nbGlobals
    ensures a.w == W64
    decreases ctx.temps[i].kind.InMemory?
  {
    if ctx.temps[i].kind.FixedReg? then ArgAddr(env, FixedCount(ctx, i))
    else Displaced(Load(mem, GlobalAddr(env, ctx, mem, Base(ctx, i)).bits, W64), ctx.temps[i].kind.memOffset)
  }

  /** A write of width w at address a touches no global other than `except`. */
  predicate Separate(env: Env, ctx: Context, mem: Mem, a: nat, w: Width, except: Option<nat>)
    requires GoodContext(ctx)
  {
    forall j: nat :: j < ctx.nbGlobals && except != Some(j) ==>
      Apart(a, ByteCount(w), GlobalAddr(env, ctx, mem, j).bits, ByteCount(ctx.temps[j].w))
  }

  datatype State = State(mem: Mem, locals: map<nat, Word>, temps: map<nat, Word>)

  function Lookup(m: map<nat, Word>, i: nat): Option<Word> { if i in m then Some(m[i]) else None }

  /** The current value of temp i; None if it never got one. */
  function Read(env: Env, ctx: Context, s: State, i: nat): Option<Word>
    requires GoodContext(ctx)
  {
    if i >= |ctx.temps| then None
    else if i < ctx.nbGlobals then Some(Load(s.mem, GlobalAddr(env, ctx, s.mem, i).bits, ctx.temps[i].w))
    else if ctx.temps[i].kind.Local? then Lookup(s.locals, i)
    else Lookup(s.temps, i)
  }

  /** Assign temp i. Undefined when the width is wrong, when the global is a fixed register, or when the
      global's memory overlaps another global. */
  function Write(env: Env, ctx: Context, s: State, i: nat, x: Word): Option<State>
    requires GoodContext(ctx)
  {
    if i >= |ctx.temps| || x.w != ctx.temps[i].w || ctx.temps[i].kind.FixedReg? then None
    else if i < ctx.nbGlobals then
      var a := GlobalAddr(env, ctx, s.mem, i).bits;
      if Separate(env, ctx, s.mem, a, x.w, Some(i)) then Some(s.(mem := Store(s.mem, a, x))) else None
    else if ctx.temps[i].kind.Local? then Some(s.(locals := s.locals[i := x]))
    else Some(s.(temps := s.temps[i := x]))
  }

  /** Raw store: undefined when it hits a global. */
  function RawStore(env: Env, ctx: Context, s: State, a: nat, x: Word): Option<State>
    requires GoodContext(ctx)
  {
    if Separate(env, ctx, s.mem, a, x.w, None) then Some(s.(mem := Store(s.mem, a, x))) else None
  }

  /** The low part of a 64-bit operand when the operation works on 32 bits. */
  function Narrow(w: Width, x: Word): Option<Word> {
    if x.w == w then Some(x) else if w == W32 && x.w == W64 then Some(Cut(W32, x.bits)) else None
  }

  /** a with the len bits from position ofs replaced by the len low bits of b, bit by bit. */
  function Deposit(a: nat, b: nat, ofs: nat, len: nat): nat {
    if ofs > 0 then a % 2 + 2 * Deposit(a / 2, b, ofs - 1, len)
    else if len > 0 then b % 2 + 2 * Deposit(a / 2, b / 2, 0, len - 1)
    else a
  }

  function Deposited(a: Word, b: Word, ofs: nat, len: nat): Word { Cut(W32, Deposit(a.bits, b.bits, ofs, len)) }

  function ReadArgs(env: Env, ctx: Context, s: State, args: seq<CallArg>): Option<seq<Word>>
    requires GoodContext(ctx)
  {
    if args == [] then Some([])
    else if args[0].Dummy? then ReadArgs(env, ctx, s, args[1..])
    else
      var x :- Read(env, ctx, s, args[0].t);
      var xs :- ReadArgs(env, ctx, s, args[1..]);
      Some([x] + xs)
  }

  function Complement(x: Word): Word { Cut(x.w, Range(x.w) - 1 - x.bits) }

  /** Two's complement negation. */
  function Negated(x: Word): Word { Cut(x.w, Range(x.w) - x.bits) }

  function StepMov(env: Env, ctx: Context, op: Op, s: State): Option<State>
    requires GoodContext(ctx) && op.Mov?
  {
    var Mov(w, dst, src) := op;
    var x :- Read(env, ctx, s, src);
    var y :- Narrow(w, x);
    Write(env, ctx, s, dst, y)
  }

  function StepExtend(env: Env, ctx: Context, op: Op, s: State): Option<State>
    requires GoodContext(ctx) && op.Extend?
  {
    var Extend(signed, from, w, dst, src) := op;
    var x :- Read(env, ctx, s, src);
    if BitCount(x.w) < BitCount(from) then None else Write(env, ctx, s, dst, Widen(signed, w, Cut(from, x.bits)))
  }

  function StepLd(env: Env, ctx: Context, op: Op, s: State): Option<State>
    requires GoodContext(ctx) && op.Ld?
  {
    var Ld(signed, memW, w, dst, base, ofs) := op;
    var b :- Read(env, ctx, s, base);
    if b.w != W64 then None else Write(env, ctx, s, dst, Widen(signed, w, Load(s.mem, Displaced(b, ofs).bits, memW)))
  }

  function StepSt(env: Env, ctx: Context, op: Op, s: State): Option<State>
    requires GoodContext(ctx) && op.St?
  {
    var St(memW, w, src, base, ofs) := op;
    var x :- Read(env, ctx, s, src);
    var b :- Read(env, ctx, s, base);
    if x.w != w || b.w != W64 then None else RawStore(env, ctx, s, Displaced(b, ofs).bits, Cut(memW, x.bits))
  }

  function StepArith(env: Env, ctx: Context, op: Op, s: State): Option<State>
    requires GoodContext(ctx) && op.Arith?
  {
    var Arith(bop, w, dst, ta, tb) := op;
    var a :- Read(env, ctx, s, ta);
    var b :- Read(env, ctx, s, tb);
    var x :- Narrow(w, a);
    var y :- Narrow(w, b);
    var z :- Compute(bop, x, y);
    Write(env, ctx, s, dst, z)
  }

  function StepNot(env: Env, ctx: Context, op: Op, s: State): Option<State>
    requires GoodContext(ctx) && op.Not?
  {
    var Not(w, dst, src) := op;
    var x :- Read(env, ctx, s, src);
    if x.w != w then None else Write(env, ctx, s, dst, Complement(x))
  }

  function StepNeg(env: Env, ctx: Context, op: Op, s: State): Option<State>
    requires GoodContext(ctx) && op.Neg?
  {
    var Neg(w, dst, src) := op;
    var x :- Read(env, ctx, s, src);
    if x.w != w then None else Write(env, ctx, s, dst, Negated(x))
  }

  function StepDeposit32(env: Env, ctx: Context, op: Op, s: State): Option<State>
    requires GoodContext(ctx) && op.Deposit32?
  {
    var Deposit32(dst, ta, tb, at, len) := op;
    var a :- Read(env, ctx, s, ta);
    var b :- Read(env, ctx, s, tb);
    var b32 :- Narrow(W32, b);
    if a.w != W32 || len == 0 || at + len > 32 then None
    else Write(env, ctx, s, dst, Deposited(a, b32, at, len))
  }

  /** The low and the high word of a sum of two 64-bit numbers given as 32-bit halves. */
  function SumLow(al: Word, bl: Word): Word { Cut(W32, al.bits + bl.bits) }

  function SumHigh(al: Word, ah: Word, bl: Word, bh: Word): Word {
    Cut(W32, ah.bits + bh.bits + if al.bits + bl.bits >= Range(W32) then 1 else 0)
  }

  function StepAdd2(env: Env, ctx: Context, op: Op, s: State): Option<State>
    requires GoodContext(ctx) && op.Add2?
  {
    var Add2(rl, rh, tal, tah, tbl, tbh) := op;
    var al :- Read(env, ctx, s, tal);
    var ah :- Read(env, ctx, s, tah);
    var bl :- Read(env, ctx, s, tbl);
    var bh :- Read(env, ctx, s, tbh);
    if al.w != W32 || ah.w != W32 || bl.w != W32 || bh.w != W32 then None
    else
      var s1 :- Write(env, ctx, s, rl, SumLow(al, bl));
      Write(env, ctx, s1, rh, SumHigh(al, ah, bl, bh))
  }

  function StepCall(env: Env, ctx: Context, op: Op, s: State): Option<State>
    requires GoodContext(ctx) && op.Call?
  {
    var Call(helper, result, args) := op;
    var xs :- ReadArgs(env, ctx, s, args);
    var (ret, mem) := env.helper(helper, xs, s.mem);
    var s1 := s.(mem := mem);
    if result.None? then Some(s1)
    else if result.value >= |ctx.temps| then None
    else Write(env, ctx, s1, result.value, Cut(ctx.temps[result.value].w, ret))
  }

  /** The effect of one operation that does not transfer control; None is undefined behaviour. */
  function Step(env: Env, ctx: Context, op: Op, s: State): Option<State>
    requires GoodContext(ctx) && op.Straight()
  {
    match op
    case Nop => Some(s)
    case Discard(t) => Some(s)
    case Movi(w, dst, imm) => Write(env, ctx, s, dst, Cut(w, imm))
    case Mov(_, _, _) => StepMov(env, ctx, op, s)
    case Extend(_, _, _, _, _) => StepExtend(env, ctx, op, s)
    case Ld(_, _, _, _, _, _) => StepLd(env, ctx, op, s)
    case St(_, _, _, _, _) => StepSt(env, ctx, op, s)
    case Arith(_, _, _, _, _) => StepArith(env, ctx, op, s)
    case Not(_, _, _) => StepNot(env, ctx, op, s)
    case Neg(_, _, _) => StepNeg(env, ctx, op, s)
    case Deposit32(_, _, _, _, _) => StepDeposit32(env, ctx, op, s)
    case Add2(_, _, _, _, _, _) => StepAdd2(env, ctx, op, s)
    case Call(_, _, _) => StepCall(env, ctx, op, s)
    case GotoTb(n) => RawStore(env, ctx, s, Cut(W64, ctx.gotoTb).bits, Cut(W8, n))
  }

  datatype Outcome = Finished(ret: Word, mem: Mem) | OutOfFuel | Undefined

  /** Where label k is set. */
  function LabelPos(ops: seq<Op>, k: nat, from: nat): (p: Option<nat>)
    requires from <= |ops|
    ensures p.Some? ==> from <= p.value < |ops| && ops[p.value] == SetLabel(k)
    decreases |ops| - from
  {
    if from == |ops| then None
    else if ops[from] == SetLabel(k) then Some(from)
    else LabelPos(ops, k, from + 1)
  }

  /** Run a translation block from operation pc. One unit of fuel pays for each basic block entered. */
  function Run(env: Env, ctx: Context, ops: seq<Op>, pc: nat, s: State, fuel: nat): Outcome
    requires GoodContext(ctx) && pc <= |ops|
    decreases fuel, |ops| - pc
  {
    if pc == |ops| then Finished(Cut(W64, 0), s.mem)
    else match ops[pc]
      case ExitTb(ret) => Finished(Cut(W64, ret), s.mem)
      case SetLabel(_) => if fuel == 0 then OutOfFuel else Run(env, ctx, ops, pc + 1, s, fuel - 1)
      case Br(target) => Goto(env, ctx, ops, target, s, fuel)
      case BrCond(w, ta, tb, cond, target) =>
        var a := Read(env, ctx, s, ta);
        var b := Read(env, ctx, s, tb);
        if a.None? || b.None? || a.value.w != w || b.value.w != w then Undefined
        else if Holds(cond, a.value, b.value) then Goto(env, ctx, ops, target, s, fuel)
        else if fuel == 0 then OutOfFuel
        else Run(env, ctx, ops, pc + 1, s, fuel - 1)
      case op =>
        match Step(env, ctx, op, s)
        case None => Undefined
        case Some(s') => Run(env, ctx, ops, pc + 1, s', fuel)
  }

  function Goto(env: Env, ctx: Context, ops: seq<Op>, target: nat, s: State, fuel: nat): Outcome
    requires GoodContext(ctx)
    decreases fuel, 0
  {
    match LabelPos(ops, target, 0)
    case None => Undefined
    case Some(p) => if fuel == 0 then OutOfFuel else Run(env, ctx, ops, p + 1, s, fuel - 1)
  }
}
