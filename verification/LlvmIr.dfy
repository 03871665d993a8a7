/** The LLVM instructions the translator emits, and a machine that runs them.
    A register holds a value only within the block that defines it: an emitted function that runs on this
    machine never uses a value from another block. */
module LlvmIr {
  import opened Options
  import opened Words
  import opened Tcg

  datatype Operand = Const(x: Word) | Reg(id: nat, width: Width) {
    function Type(): Width { match this case Const(x) => x.w case Reg(_, width) => width }
  }

  datatype BlockId = Entry | Label(k: nat) | After(pos: nat)

  datatype Instr =
    | Bin(d: nat, op: BinOp, a: Operand, b: Operand)
    | Trunc(d: nat, w: Width, a: Operand)
    | ZExt(d: nat, w: Width, a: Operand)
    | SExt(d: nat, w: Width, a: Operand)
    | ICmp(d: nat, cond: Cond, a: Operand, b: Operand)
    | ArgPtr(d: nat, k: nat)
    | LoadMem(d: nat, w: Width, p: Operand)
    | StoreMem(v: Operand, p: Operand)
    | Alloca(slot: nat)
    | LoadSlot(d: nat, w: Width, slot: nat)
    | StoreSlot(v: Operand, slot: nat)
    | CallHelper(d: nat, resultW: Option<Width>, helper: nat, args: seq<Operand>)
    | Jump(block: BlockId)
    | CondJump(c: Operand, t: BlockId, f: BlockId)
    | Ret(value: Word)
  {
    predicate IsTerminator() { Jump? || CondJump? || Ret? }
  }

  datatype Machine = Machine(regs: map<nat, Word>, slots: map<nat, Word>, mem: Mem)

  datatype Result = Next(m: Machine) | Enter(b: BlockId, m: Machine) | Return(v: Word, m: Machine) | Stuck

  function Eval(m: Machine, o: Operand): Option<Word> {
    match o
    case Const(x) => Some(x)
    case Reg(id, width) => if id in m.regs && m.regs[id].w == width then Some(m.regs[id]) else None
  }

  function EvalAll(m: Machine, os: seq<Operand>): Option<seq<Word>> {
    if os == [] then Some([])
    else
      var x :- Eval(m, os[0]);
      var xs :- EvalAll(m, os[1..]);
      Some([x] + xs)
  }

  function Define(m: Machine, d: nat, x: Option<Word>): Result {
    match x
    case None => Stuck
    case Some(v) => Next(m.(regs := m.regs[d := v]))
  }

  function Exec1(env: Env, i: Instr, m: Machine): Result {
    match i
    case Bin(d, op, oa, ob) =>
      var a := Eval(m, oa);
      var b := Eval(m, ob);
      if a.None? || b.None? then Stuck else Define(m, d, Compute(op, a.value, b.value))
    case Trunc(d, w, oa) =>
      var a := Eval(m, oa);
      if a.None? || BitCount(a.value.w) <= BitCount(w) then Stuck else Define(m, d, Some(Cut(w, a.value.bits)))
    case ZExt(d, w, oa) =>
      var a := Eval(m, oa);
      if a.None? || BitCount(a.value.w) >= BitCount(w) then Stuck else Define(m, d, Some(Widen(false, w, a.value)))
    case SExt(d, w, oa) =>
      var a := Eval(m, oa);
      if a.None? || BitCount(a.value.w) >= BitCount(w) then Stuck else Define(m, d, Some(Widen(true, w, a.value)))
    case ICmp(d, cond, oa, ob) =>
      var a := Eval(m, oa);
      var b := Eval(m, ob);
      if a.None? || b.None? || a.value.w != b.value.w then Stuck
      else Define(m, d, Some(Cut(W1, if Holds(cond, a.value, b.value) then 1 else 0)))
    case ArgPtr(d, k) => Define(m, d, Some(ArgAddr(env, k)))
    case LoadMem(d, w, op) =>
      var p := Eval(m, op);
      if p.None? || p.value.w != W64 then Stuck else Define(m, d, Some(Load(m.mem, p.value.bits, w)))
    case StoreMem(ov, op) =>
      var v := Eval(m, ov);
      var p := Eval(m, op);
      if v.None? || p.None? || p.value.w != W64 then Stuck else Next(m.(mem := Store(m.mem, p.value.bits, v.value)))
    case Alloca(slot) => Next(m.(slots := m.slots - {slot}))
    case LoadSlot(d, w, slot) =>
      if slot !in m.slots || m.slots[slot].w != w then Stuck else Define(m, d, Some(m.slots[slot]))
    case StoreSlot(ov, slot) =>
      var v := Eval(m, ov);
      if v.None? then Stuck else Next(m.(slots := m.slots[slot := v.value]))
    case CallHelper(d, resultW, helper, oargs) =>
      var xs := EvalAll(m, oargs);
      if xs.None? then Stuck
      else
        var (ret, mem) := env.helper(helper, xs.value, m.mem);
        var m1 := m.(mem := mem);
        if resultW.None? then Next(m1) else Define(m1, d, Some(Cut(resultW.value, ret)))
    case Jump(b) => Enter(b, m)
    case CondJump(oc, t, f) =>
      var c := Eval(m, oc);
      if c.None? || c.value.w != W1 then Stuck else Enter(if c.value.bits == 1 then t else f, m)
    case Ret(v) => Return(v, m)
  }

  /** Run a block's instructions up to the first that leaves the block. */
  function Exec(env: Env, code: seq<Instr>, m: Machine): Result
    decreases |code|
  {
    if code == [] then Next(m)
    else match Exec1(env, code[0], m)
      case Next(m') => Exec(env, code[1..], m')
      case r => r
  }

  /** Run a function from the start of block b. One unit of fuel pays for each further block entered. */
  function RunBlocks(env: Env, body: map<BlockId, seq<Instr>>, b: BlockId, m: Machine, fuel: nat): Outcome
    decreases fuel
  {
    if b !in body then Undefined
    else match Exec(env, body[b], m.(regs := map[]))
      case Return(v, m') => Finished(v, m'.mem)
      case Enter(b', m') => if fuel == 0 then OutOfFuel else RunBlocks(env, body, b', m', fuel - 1)
      case Next(_) => Undefined
      case Stuck => Undefined
  }

  lemma {:induction false} ExecConcat(env: Env, a: seq<Instr>, b: seq<Instr>, m: Machine)
    ensures Exec(env, a + b, m) == match Exec(env, a, m) case Next(m') => Exec(env, b, m') case r => r
    decreases |a|
  {
    if a == [] {
      assert a + b == b;
    } else {
      assert (a + b)[0] == a[0] && (a + b)[1..] == a[1..] + b;
      match Exec1(env, a[0], m) {
        case Next(m') => ExecConcat(env, a[1..], b, m');
        case _ =>
      }
    }
  }
}
