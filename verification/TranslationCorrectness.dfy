/** Running the function emitted for a translation block is interpreting the block. */
module TranslationCorrectness {
  import opened Options
  import opened Words
  import opened Tcg
  import opened LlvmIr
  import opened Translation
  import opened Simulation
  import opened OpSimulation

  // ----- the emitted code only grows -----

  lemma PrefixesTranslate(ctx: Context, ops: seq<Op>, n: nat, m: nat)
    requires GoodContext(ctx) && n <= m <= |ops| && GenPrefix(ctx, ops, m).Some?
    ensures GenPrefix(ctx, ops, n).Some?
    decreases m
  {
    if n < m { PrefixesTranslate(ctx, ops, n, m - 1); }
  }

  /** What is in the function so far stays there: finished blocks unchanged, the open one as a prefix. */
  ghost predicate Extends(c: Cache, c': Cache) {
    && (forall b :: b in c.done ==> b in c'.done && c'.done[b] == c.done[b])
    && c.cur !in c.done && c'.cur !in c'.done
    && (if c'.cur == c.cur then c.code <= c'.code else c.cur in c'.done && c.code <= c'.done[c.cur])
  }

  /** Anonymous blocks are named after earlier positions, so a new name is always fresh. */
  ghost predicate Fresh(c: Cache, n: nat) {
    && c.cur !in c.done
    && (c.cur.After? ==> c.cur.pos < n)
    && forall b :: b in c.done && b.After? ==> b.pos < n
  }

  lemma GenOpExtends(ctx: Context, c: Cache, n: nat, op: Op)
    requires Shaped(ctx, c) && Fresh(c, n) && GenOp(ctx, c, n, op).Some?
    ensures Extends(c, GenOp(ctx, c, n, op).value) && Fresh(GenOp(ctx, c, n, op).value, n + 1)
  {
    var c' := GenOp(ctx, c, n, op).value;
    match op
    case Br(_) =>
    case BrCond(_, _, _, _, _) =>
    case SetLabel(_) =>
    case ExitTb(_) =>
    case _ => assert Grows(ctx, c, c');
  }

  lemma PrefixFresh(ctx: Context, ops: seq<Op>, n: nat)
    requires GoodContext(ctx) && n <= |ops| && GenPrefix(ctx, ops, n).Some?
    ensures Fresh(GenPrefix(ctx, ops, n).value, n)
  {
    if n > 0 {
      PrefixFresh(ctx, ops, n - 1);
      GenOpExtends(ctx, GenPrefix(ctx, ops, n - 1).value, n - 1, ops[n - 1]);
    }
  }

  lemma ExtendsTransitive(c0: Cache, c1: Cache, c2: Cache)
    requires Extends(c0, c1) && Extends(c1, c2)
    ensures Extends(c0, c2)
  {
  }

  lemma PrefixStep(ctx: Context, ops: seq<Op>, n: nat)
    requires GoodContext(ctx) && n < |ops| && GenPrefix(ctx, ops, n + 1).Some?
    ensures GenPrefix(ctx, ops, n).Some? && Extends(GenPrefix(ctx, ops, n).value, GenPrefix(ctx, ops, n + 1).value)
  {
    PrefixFresh(ctx, ops, n);
    GenOpExtends(ctx, GenPrefix(ctx, ops, n).value, n, ops[n]);
  }

  lemma PrefixExtends(ctx: Context, ops: seq<Op>, n: nat, m: nat)
    requires GoodContext(ctx) && n <= m <= |ops| && GenPrefix(ctx, ops, m).Some? && GenPrefix(ctx, ops, n).Some?
    ensures Extends(GenPrefix(ctx, ops, n).value, GenPrefix(ctx, ops, m).value)
    decreases m
  {
    if n == m {
      PrefixFresh(ctx, ops, n);
    } else {
      PrefixStep(ctx, ops, m - 1);
      PrefixExtends(ctx, ops, n, m - 1);
      ExtendsTransitive(GenPrefix(ctx, ops, n).value, GenPrefix(ctx, ops, m - 1).value, GenPrefix(ctx, ops, m).value);
    }
  }

  /** A block that is finished after n operations is final; the open one is a prefix of the final block. */
  lemma InFinal(ctx: Context, ops: seq<Op>, n: nat)
    requires GoodContext(ctx) && n <= |ops| && Translate(ctx, ops).Some?
    ensures GenPrefix(ctx, ops, n).Some?
    ensures var c := GenPrefix(ctx, ops, n).value;
      var body := Translate(ctx, ops).value;
      && (forall b :: b in c.done ==> b in body && body[b] == c.done[b])
      && c.cur in body && c.code <= body[c.cur]
  {
    PrefixesTranslate(ctx, ops, n, |ops|);
    PrefixExtends(ctx, ops, n, |ops|);
  }

  // ----- running -----

  /** What remains of a run once a block has produced r. */
  function Resume(env: Env, body: map<BlockId, seq<Instr>>, r: Result, fuel: nat): Outcome {
    match r
    case Return(v, m') => Finished(v, m'.mem)
    case Enter(b', m') => if fuel == 0 then OutOfFuel else RunBlocks(env, body, b', m', fuel - 1)
    case Next(_) => Undefined
    case Stuck => Undefined
  }

  lemma {:induction false} RunsThrough(env: Env, code: seq<Instr>, m0: Machine, m: Machine)
    requires Exec(env, code, m0) == Next(m)
    ensures !EndsBlock(code)
    decreases |code|
  {
    if |code| > 1 {
      match Exec1(env, code[0], m0) {
        case Next(m') => RunsThrough(env, code[1..], m', m);
        case _ =>
      }
    }
  }

  /** Code that starts by running to m and then leaves the block, whatever follows. */
  lemma LeavesAt(env: Env, block: seq<Instr>, code: seq<Instr>, i: Instr, m0: Machine, m: Machine)
    requires Exec(env, code, m0) == Next(m) && code + [i] <= block && !Exec1(env, i, m).Next?
    ensures Exec(env, block, m0) == Exec1(env, i, m)
  {
    var rest := block[|code|..];
    assert block == code + rest && rest[0] == i;
    ExecConcat(env, code, rest, m0);
  }

  /** A new block starts with nothing cached, so it matches whatever the state is. */
  lemma FreshBlock(env: Env, ctx: Context, c: Cache, s: State, m: Machine)
    requires Shaped(ctx, c) && c.code == [] && m.mem == s.mem && m.slots == s.locals && LocalsTyped(ctx, s)
    requires forall i :: 0 <= i < |c.values| ==> c.values[i].None?
    requires forall i :: 0 <= i < ctx.nbGlobals ==> c.ptrs[i].None?
    ensures At(env, ctx, c, s, m.(regs := map[]), m.(regs := map[]), None)
  {
  }

  /** The translator's state after n operations, and the emitted function. */
  function Reached(ctx: Context, ops: seq<Op>, n: nat): (c: Cache)
    requires GoodContext(ctx) && n <= |ops| && Translate(ctx, ops).Some?
    ensures Shaped(ctx, c)
  {
    PrefixesTranslate(ctx, ops, n, |ops|);
    GenPrefix(ctx, ops, n).value
  }

  lemma ReachedNext(ctx: Context, ops: seq<Op>, n: nat)
    requires GoodContext(ctx) && n < |ops| && Translate(ctx, ops).Some?
    ensures GenOp(ctx, Reached(ctx, ops, n), n, ops[n]) == Some(Reached(ctx, ops, n + 1))
  {
    PrefixesTranslate(ctx, ops, n + 1, |ops|);
    PrefixesTranslate(ctx, ops, n, |ops|);
  }

  lemma StartedBlock(ctx: Context, c: Cache, b: BlockId)
    requires Shaped(ctx, c)
    ensures var c' := StartBlock(ctx, c, b);
      c'.cur == b && c'.code == []
      && (forall i :: 0 <= i < |c'.values| ==> c'.values[i].None?)
      && (forall i :: 0 <= i < ctx.nbGlobals ==> c'.ptrs[i].None?)
  {
  }

  ghost predicate Ready(env: Env, ctx: Context, ops: seq<Op>, pc: nat, s: State, m0: Machine, m: Machine, fuel: nat) {
    && GoodContext(ctx) && pc <= |ops| && Translate(ctx, ops).Some?
    && At(env, ctx, Reached(ctx, ops, pc), s, m0, m, None)
    && Run(env, ctx, ops, pc, s, fuel) != Undefined
  }

  /** The rest of the current block, run from its start, finishes as the operations from pc do. */
  ghost predicate Agrees(env: Env, ctx: Context, ops: seq<Op>, pc: nat, s: State, m0: Machine, fuel: nat)
    requires GoodContext(ctx) && pc <= |ops| && Translate(ctx, ops).Some?
  {
    var body := Translate(ctx, ops).value;
    && Reached(ctx, ops, pc).cur in body
    && Resume(env, body, Exec(env, body[Reached(ctx, ops, pc).cur], m0), fuel) == Run(env, ctx, ops, pc, s, fuel)
  }

  /** From a point in a block where the machine matches the state, the emitted code finishes as the rest of
      the operations do. */
  lemma {:induction false} RunSim(env: Env, ctx: Context, ops: seq<Op>, pc: nat, s: State, m0: Machine, m: Machine,
                                  fuel: nat)
    requires Ready(env, ctx, ops, pc, s, m0, m, fuel)
    ensures Agrees(env, ctx, ops, pc, s, m0, fuel)
    decreases fuel, |ops| - pc, 1
  {
    if pc == |ops| {
      EndSim(env, ctx, ops, s, m0, m, fuel);
    } else if ops[pc].Straight() {
      StraightSim(env, ctx, ops, pc, s, m0, m, fuel);
    } else if ops[pc].BrCond? {
      BranchSim(env, ctx, ops, pc, s, m0, m, fuel);
    } else {
      TransferSim(env, ctx, ops, pc, s, m0, m, fuel);
    }
  }

  lemma EndSim(env: Env, ctx: Context, ops: seq<Op>, s: State, m0: Machine, m: Machine, fuel: nat)
    requires Ready(env, ctx, ops, |ops|, s, m0, m, fuel)
    ensures Agrees(env, ctx, ops, |ops|, s, m0, fuel)
  {
    var c := Reached(ctx, ops, |ops|);
    RunsThrough(env, c.code, m0, m);
    LeavesAt(env, Translate(ctx, ops).value[c.cur], c.code, Ret(Cut(W64, 0)), m0, m);
  }

  lemma {:induction false} StraightSim(env: Env, ctx: Context, ops: seq<Op>, pc: nat, s: State, m0: Machine, m: Machine,
                                       fuel: nat)
    requires Ready(env, ctx, ops, pc, s, m0, m, fuel) && pc < |ops| && ops[pc].Straight()
    ensures Agrees(env, ctx, ops, pc, s, m0, fuel)
    decreases fuel, |ops| - pc, 0
  {
    ReachedNext(ctx, ops, pc);
    var c, op := Reached(ctx, ops, pc), ops[pc];
    RunStraight(env, ctx, ops, pc, s, fuel);
    GenStraight(ctx, c, pc, op);
    var m' := StepSim(env, ctx, c, op, s, m0, m);
    RunSim(env, ctx, ops, pc + 1, Step(env, ctx, op, s).value, m0, m', fuel);
  }

  lemma RunStraight(env: Env, ctx: Context, ops: seq<Op>, pc: nat, s: State, fuel: nat)
    requires GoodContext(ctx) && pc < |ops| && ops[pc].Straight()
    ensures Run(env, ctx, ops, pc, s, fuel) ==
      match Step(env, ctx, ops[pc], s)
      case None => Undefined
      case Some(s') => Run(env, ctx, ops, pc + 1, s', fuel)
  {
  }

  lemma GenStraight(ctx: Context, c: Cache, n: nat, op: Op)
    requires Shaped(ctx, c) && op.Straight()
    ensures GenOp(ctx, c, n, op) == Gen(ctx, c, op)
    ensures Gen(ctx, c, op).Some? ==> Gen(ctx, c, op).value.cur == c.cur
  {
  }

  /** exit_tb, set_label and br: what the block's last instruction is. */
  lemma TransferCode(ctx: Context, ops: seq<Op>, pc: nat, i: Instr)
    requires GoodContext(ctx) && Translate(ctx, ops).Some? && pc < |ops|
    requires !EndsBlock(Reached(ctx, ops, pc).code)
    requires match ops[pc]
      case ExitTb(ret) => i == Ret(Cut(W64, ret))
      case SetLabel(target) => i == Jump(Label(target))
      case Br(target) => i == Jump(Label(target))
      case _ => false
    ensures var c := Reached(ctx, ops, pc);
      c.cur in Translate(ctx, ops).value && c.code + [i] <= Translate(ctx, ops).value[c.cur]
  {
    ReachedNext(ctx, ops, pc);
    InFinal(ctx, ops, pc + 1);
  }

  lemma {:induction false} TransferSim(env: Env, ctx: Context, ops: seq<Op>, pc: nat, s: State, m0: Machine, m: Machine,
                                       fuel: nat)
    requires Ready(env, ctx, ops, pc, s, m0, m, fuel)
    requires pc < |ops| && (ops[pc].ExitTb? || ops[pc].SetLabel? || ops[pc].Br?)
    ensures Agrees(env, ctx, ops, pc, s, m0, fuel)
    decreases fuel, |ops| - pc, 0
  {
    var c := Reached(ctx, ops, pc);
    var op := ops[pc];
    RunsThrough(env, c.code, m0, m);
    var i := if op.ExitTb? then Ret(Cut(W64, op.ret)) else Jump(Label(op.target));
    TransferCode(ctx, ops, pc, i);
    LeavesAt(env, Translate(ctx, ops).value[c.cur], c.code, i, m0, m);
    if op.SetLabel? {
      ReachedNext(ctx, ops, pc);
      StartedBlock(ctx, c, Label(op.target));
      EnterSim(env, ctx, ops, pc + 1, s, m, fuel);
    } else if op.Br? {
      GotoSim(env, ctx, ops, op.target, s, m, fuel);
    }
  }

  /** Entering the block that the translator has just started at pc. */
  lemma {:induction false} EnterSim(env: Env, ctx: Context, ops: seq<Op>, pc: nat, s: State, m: Machine, fuel: nat)
    requires GoodContext(ctx) && pc <= |ops| && Translate(ctx, ops).Some?
    requires var c := Reached(ctx, ops, pc);
      c.code == [] && (forall i :: 0 <= i < |c.values| ==> c.values[i].None?)
      && (forall i :: 0 <= i < ctx.nbGlobals ==> c.ptrs[i].None?)
    requires m.mem == s.mem && m.slots == s.locals && LocalsTyped(ctx, s)
    requires fuel > 0 ==> Run(env, ctx, ops, pc, s, fuel - 1) != Undefined
    ensures Resume(env, Translate(ctx, ops).value, Enter(Reached(ctx, ops, pc).cur, m), fuel)
         == if fuel == 0 then OutOfFuel else Run(env, ctx, ops, pc, s, fuel - 1)
    decreases fuel, 0, 0
  {
    if fuel == 0 {
    } else {
      FreshBlock(env, ctx, Reached(ctx, ops, pc), s, m);
      RunSim(env, ctx, ops, pc, s, m.(regs := map[]), m.(regs := map[]), fuel - 1);
    }
  }

  lemma {:induction false} GotoSim(env: Env, ctx: Context, ops: seq<Op>, target: nat, s: State, m: Machine, fuel: nat)
    requires GoodContext(ctx) && Translate(ctx, ops).Some?
    requires m.mem == s.mem && m.slots == s.locals && LocalsTyped(ctx, s)
    requires Goto(env, ctx, ops, target, s, fuel) != Undefined
    ensures Resume(env, Translate(ctx, ops).value, Enter(Label(target), m), fuel) ==
      Goto(env, ctx, ops, target, s, fuel)
    decreases fuel, 0, 1
  {
    var p := LabelPos(ops, target, 0).value;
    ReachedNext(ctx, ops, p);
    StartedBlock(ctx, Reached(ctx, ops, p), Label(target));
    EnterSim(env, ctx, ops, p + 1, s, m, fuel);
  }

  lemma {:induction false} BranchSim(env: Env, ctx: Context, ops: seq<Op>, pc: nat, s: State, m0: Machine, m: Machine,
                                     fuel: nat)
    requires Ready(env, ctx, ops, pc, s, m0, m, fuel) && pc < |ops| && ops[pc].BrCond?
    ensures Agrees(env, ctx, ops, pc, s, m0, fuel)
    decreases fuel, |ops| - pc, 0
  {
    var c := Reached(ctx, ops, pc);
    var op := ops[pc];
    RunBranch(env, ctx, ops, pc, s, fuel);
    BranchCode(ctx, ops, pc);
    var (c3, j) := GenCondition(ctx, c, pc, op).value;
    var m3 := ConditionSim(env, ctx, c, op, pc, s, m0, m);
    LeavesAt(env, Translate(ctx, ops).value[c.cur], c3.code, j, m0, m3);
    if Holds(op.cond, Read(env, ctx, s, op.a).value, Read(env, ctx, s, op.b).value) {
      GotoSim(env, ctx, ops, op.target, s, m3, fuel);
    } else {
      StartedBlock(ctx, Put(ctx, c3, j), After(pc));
      EnterSim(env, ctx, ops, pc + 1, s, m3, fuel);
    }
  }

  lemma BranchCode(ctx: Context, ops: seq<Op>, pc: nat)
    requires GoodContext(ctx) && Translate(ctx, ops).Some? && pc < |ops| && ops[pc].BrCond?
    ensures var c := Reached(ctx, ops, pc);
      && c.cur in Translate(ctx, ops).value && GenCondition(ctx, c, pc, ops[pc]).Some?
      && var (c3, j) := GenCondition(ctx, c, pc, ops[pc]).value;
      && c3.code + [j] <= Translate(ctx, ops).value[c.cur]
      && Reached(ctx, ops, pc + 1) == StartBlock(ctx, Put(ctx, c3, j), After(pc))
  {
    ReachedNext(ctx, ops, pc);
    InFinal(ctx, ops, pc + 1);
  }

  lemma RunBranch(env: Env, ctx: Context, ops: seq<Op>, pc: nat, s: State, fuel: nat)
    requires GoodContext(ctx) && pc < |ops| && ops[pc].BrCond? && Run(env, ctx, ops, pc, s, fuel) != Undefined
    ensures var op := ops[pc];
      && Read(env, ctx, s, op.a).Some? && Read(env, ctx, s, op.b).Some?
      && Run(env, ctx, ops, pc, s, fuel)
      == if Holds(op.cond, Read(env, ctx, s, op.a).value, Read(env, ctx, s, op.b).value)
         then Goto(env, ctx, ops, op.target, s, fuel)
         else if fuel == 0 then OutOfFuel else Run(env, ctx, ops, pc + 1, s, fuel - 1)
  {
  }

  /** The comparison and the conditional jump it feeds. */
  lemma ConditionSim(env: Env, ctx: Context, c: Cache, op: Op, pc: nat, s: State, m0: Machine, m: Machine)
    returns (m3: Machine)
    requires At(env, ctx, c, s, m0, m, None) && op.BrCond? && GenCondition(ctx, c, pc, op).Some?
    requires Read(env, ctx, s, op.a).Some? && Read(env, ctx, s, op.b).Some?
    ensures var (c3, j) := GenCondition(ctx, c, pc, op).value;
      && At(env, ctx, c3, s, m0, m3, None)
      && Exec1(env, j, m3)
         == Enter(if Holds(op.cond, Read(env, ctx, s, op.a).value, Read(env, ctx, s, op.b).value)
                  then Label(op.target) else After(pc), m3)
  {
    var c2, a, b, m2 := FetchSim(env, ctx, c, s, m0, m, op.a, op.b);
    var x, y := Read(env, ctx, s, op.a).value, Read(env, ctx, s, op.b).value;
    var bit := Cut(W1, if Holds(op.cond, x, y) then 1 else 0);
    CompareRuns(env, m2, c2.next, op.cond, a, b, x, y, bit);
    m3 := DefSim(env, ctx, c2, s, m0, m2, None, ICmp(c2.next, op.cond, a, b), bit);
    JumpRuns(env, m3, c2.next, Holds(op.cond, x, y), Label(op.target), After(pc), bit);
  }

  lemma CompareRuns(env: Env, m: Machine, d: nat, cond: Cond, a: Operand, b: Operand, x: Word, y: Word, bit: Word)
    requires Eval(m, a) == Some(x) && Eval(m, b) == Some(y) && x.w == y.w
    requires bit == Cut(W1, if Holds(cond, x, y) then 1 else 0)
    ensures Exec1(env, ICmp(d, cond, a, b), m) == Next(m.(regs := m.regs[d := bit]))
  {
  }

  lemma JumpRuns(env: Env, m: Machine, r: nat, holds: bool, t: BlockId, e: BlockId, bit: Word)
    requires bit == Cut(W1, if holds then 1 else 0) && Eval(m, Reg(r, W1)) == Some(bit)
    ensures Exec1(env, CondJump(Reg(r, W1), t, e), m) == Enter(if holds then t else e, m)
  {
  }

  lemma {:induction false} AllocasRun(env: Env, ctx: Context, n: nat, mem: Mem)
    requires n <= |ctx.temps|
    ensures Exec(env, Allocas(ctx, n), Machine(map[], map[], mem)) == Next(Machine(map[], map[], mem))
  {
    if n == 0 {
    } else {
      AllocasRun(env, ctx, n - 1, mem);
      ExecConcat(env, Allocas(ctx, n - 1), Allocas(ctx, n)[|Allocas(ctx, n - 1)|..], Machine(map[], map[], mem));
      if ctx.temps[n - 1].kind.Local? {
        assert Allocas(ctx, n)[|Allocas(ctx, n - 1)|..] == [Alloca(n - 1)];
        assert [Alloca(n - 1)][1..] == [];
      }
    }
  }

  /** The translation is correct: for every block whose run is defined, and however long it runs, the emitted
      function returns the same value and leaves the same memory, or is still running when the block is. */
  lemma TranslationCorrect(env: Env, ctx: Context, ops: seq<Op>, mem: Mem, fuel: nat)
    requires GoodContext(ctx) && Translate(ctx, ops).Some?
    requires Run(env, ctx, ops, 0, State(mem, map[], map[]), fuel) != Undefined
    ensures RunBlocks(env, Translate(ctx, ops).value, Entry, Machine(map[], map[], mem), fuel)
         == Run(env, ctx, ops, 0, State(mem, map[], map[]), fuel)
  {
    var s, m := State(mem, map[], map[]), Machine(map[], map[], mem);
    AllocasRun(env, ctx, |ctx.temps|, mem);
    assert Reached(ctx, ops, 0) == Start(ctx);
    assert At(env, ctx, Start(ctx), s, m, m, None);
    RunSim(env, ctx, ops, 0, s, m, m, fuel);
  }
}
