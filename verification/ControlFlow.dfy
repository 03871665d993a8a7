/** Functions in SSA form: blocks of instructions with phis, selects and jumps, and how they run. */
module ControlFlow {
  datatype Operand = Const(n: int) | Reg(id: nat)

  datatype Inst =
    | Phi(dst: nat, incoming: seq<(nat, Operand)>)
    | Select(dst: nat, cond: Operand, onTrue: Operand, onFalse: Operand)
    | Compute(dst: nat, opcode: nat, args: seq<Operand>)
    | Jump(to: nat)
    | Branch(cond: Operand, to: nat, orElse: nat)
    | Return(value: Operand)
  {
    predicate IsTerminator() { Jump? || Branch? || Return? }
  }

  type Block = seq<Inst>

  /** Blocks by name, and the order they are listed in; the first listed block is the entry. */
  datatype Func = Func(blocks: map<nat, Block>, order: seq<nat>)

  type World = seq<int>

  /** What an instruction other than phi, select and jumps computes and does to the world. */
  type Semantics = (nat, seq<int>, World) -> (int, World)

  datatype Machine = Machine(regs: map<nat, int>, world: World)

  datatype Result = Goto(b: nat, m: Machine) | Done(v: int, w: World) | FellOff

  function Eval(regs: map<nat, int>, o: Operand): int {
    match o
    case Const(n) => n
    case Reg(id) => if id in regs then regs[id] else 0
  }

  function EvalAll(regs: map<nat, int>, os: seq<Operand>): seq<int> {
    seq(|os|, i requires 0 <= i < |os| => Eval(regs, os[i]))
  }

  /** The operand a phi takes when control comes from block prev. */
  function Incoming(incoming: seq<(nat, Operand)>, prev: int): Operand {
    if incoming == [] then Const(0)
    else if incoming[0].0 == prev then incoming[0].1
    else Incoming(incoming[1..], prev)
  }

  /** One instruction that stays in its block. Phis look at the registers as they were on entry to it. */
  function Step(sem: Semantics, i: Inst, prev: int, entry: map<nat, int>, m: Machine): Machine
    requires !i.IsTerminator()
  {
    if i.Phi? then m.(regs := m.regs[i.dst := Eval(entry, Incoming(i.incoming, prev))])
    else if i.Select? then
      m.(regs := m.regs[i.dst := Eval(m.regs, if Eval(m.regs, i.cond) != 0 then i.onTrue else i.onFalse)])
    else
      var (x, world) := sem(i.opcode, EvalAll(m.regs, i.args), m.world);
      Machine(m.regs[i.dst := x], world)
  }

  function Leave(i: Inst, m: Machine): Result
    requires i.IsTerminator()
  {
    match i
    case Jump(to) => Goto(to, m)
    case Branch(cond, to, orElse) => Goto(if Eval(m.regs, cond) != 0 then to else orElse, m)
    case Return(value) => Done(Eval(m.regs, value), m.world)
  }

  /** Run the instructions of a block up to the first that leaves it. */
  function Exec(sem: Semantics, insts: Block, prev: int, entry: map<nat, int>, m: Machine): Result
    decreases insts
  {
    if insts == [] then FellOff
    else if insts[0].IsTerminator() then Leave(insts[0], m)
    else Exec(sem, insts[1..], prev, entry, Step(sem, insts[0], prev, entry, m))
  }

  datatype Outcome = Finished(v: int, w: World) | OutOfFuel | Stuck

  const NOWHERE := -1  // where control comes from when a function is called

  /** Run from the start of block b; fuel bounds the number of jumps. */
  function Run(f: Func, sem: Semantics, b: nat, prev: int, m: Machine, fuel: nat): Outcome
    decreases fuel
  {
    if b !in f.blocks then Stuck
    else match Exec(sem, f.blocks[b], prev, m.regs, m)
      case Done(v, w) => Finished(v, w)
      case FellOff => Stuck
      case Goto(b', m') => if fuel == 0 then OutOfFuel else Run(f, sem, b', b, m', fuel - 1)
  }

  /** The function, called on machine m, returns v and leaves world w. */
  ghost predicate Computes(f: Func, sem: Semantics, m: Machine, v: int, w: World) {
    |f.order| > 0 && exists fuel: nat :: Run(f, sem, f.order[0], NOWHERE, m, fuel) == Finished(v, w)
  }

  ghost predicate Alike(f: Func, g: Func, sem: Semantics, m: Machine, v: int, w: World) {
    Computes(f, sem, m, v, w) <==> Computes(g, sem, m, v, w)
  }

  /** On every input the two functions return the same value and leave the same world, or both run on. */
  ghost predicate Equivalent(f: Func, g: Func) {
    forall sem: Semantics, m: Machine, v: int, w: World {:trigger Alike(f, g, sem, m, v, w)} ::
      Alike(f, g, sem, m, v, w)
  }

  /** One terminator, at the end; phis only at the start. */
  predicate WellFormed(b: Block) {
    && b != [] && b[|b| - 1].IsTerminator()
    && (forall i :: 0 <= i < |b| - 1 ==> !b[i].IsTerminator())
    && (forall i :: 0 < i < |b| && b[i].Phi? ==> b[i - 1].Phi?)
  }

  function Successors(b: Block): set<nat> {
    if b == [] then {}
    else match b[|b| - 1]
      case Jump(to) => {to}
      case Branch(_, to, orElse) => {to, orElse}
      case _ => {}
  }

  predicate PhisFrom(b: Block, names: set<nat>) {
    forall i, j :: 0 <= i < |b| && b[i].Phi? && 0 <= j < |b[i].incoming| ==> b[i].incoming[j].0 in names
  }

  ghost predicate GoodBlock(f: Func, b: nat)
    requires b in f.blocks
  {
    WellFormed(f.blocks[b]) && PhisFrom(f.blocks[b], f.blocks.Keys) && Successors(f.blocks[b]) <= f.blocks.Keys
  }

  /** Exactly the blocks are listed, each once. */
  ghost predicate Listed(names: set<nat>, order: seq<nat>) {
    && (forall i, j :: 0 <= i < j < |order| ==> order[i] != order[j])
    && (forall b :: b in names <==> b in order)
  }

  ghost predicate Good(f: Func) {
    && |f.order| > 0 && Listed(f.blocks.Keys, f.order)
    && forall b {:trigger GoodBlock(f, b)} :: b in f.blocks ==> GoodBlock(f, b)
  }

  function Selects(c: Block): nat {
    if c == [] then 0 else (if c[0].Select? then 1 else 0) + Selects(c[1..])
  }

  lemma {:induction false} SelectsConcat(a: Block, c: Block)
    ensures Selects(a + c) == Selects(a) + Selects(c)
  {
    if a == [] {
      assert a + c == c;
    } else {
      assert (a + c)[0] == a[0] && (a + c)[1..] == a[1..] + c;
      SelectsConcat(a[1..], c);
    }
  }

  /** The selects of the listed blocks. */
  function Total(blocks: map<nat, Block>, names: seq<nat>): nat
    requires forall i :: 0 <= i < |names| ==> names[i] in blocks
  {
    if names == [] then 0 else Selects(blocks[names[0]]) + Total(blocks, names[1..])
  }

  lemma {:induction false} TotalConcat(blocks: map<nat, Block>, a: seq<nat>, c: seq<nat>)
    requires forall i :: 0 <= i < |a| ==> a[i] in blocks
    requires forall i :: 0 <= i < |c| ==> c[i] in blocks
    requires forall i :: 0 <= i < |a + c| ==> (a + c)[i] in blocks
    ensures Total(blocks, a + c) == Total(blocks, a) + Total(blocks, c)
  {
    if a == [] {
      assert a + c == c;
    } else {
      assert (a + c)[0] == a[0] && (a + c)[1..] == a[1..] + c;
      TotalConcat(blocks, a[1..], c);
    }
  }

  lemma {:induction false} TotalSame(blocks: map<nat, Block>, blocks': map<nat, Block>, names: seq<nat>)
    requires forall i :: 0 <= i < |names| ==>
      names[i] in blocks && names[i] in blocks' && Selects(blocks'[names[i]]) == Selects(blocks[names[i]])
    ensures Total(blocks', names) == Total(blocks, names)
  {
    if names == [] {
    } else {
      TotalSame(blocks, blocks', names[1..]);
    }
  }
}
