/** Which translation blocks the translator accepts: a check of the operations alone. */
module Typing {
  import opened Options
  import opened Words
  import opened Tcg
  import opened LlvmIr
  import opened Translation

  /** The width of what each temp gives as an operand; None if it gives nothing. */
  type Widths = seq<Option<Width>>

  function Of(ws: Widths, t: nat): Option<Width> { if t < |ws| then ws[t] else None }

  /** A 64-bit operand will do for a 32-bit operation. */
  predicate Narrows(w: Width, from: Option<Width>) { from == Some(w) || (w == W32 && from == Some(W64)) }

  /** A plain temporary can be given a value of any width; any other temp only one of its own. */
  predicate Takes(ctx: Context, t: nat, w: Width) {
    t < |ctx.temps| && (ctx.temps[t].kind.Plain? || ctx.temps[t].w == w)
  }

  /** Memory is accessed in whole bytes, and not in more of them than the value has. */
  predicate AccessFits(memW: Width, w: Width) { memW != W1 && BitCount(memW) <= BitCount(w) }

  /** What an operation asks of its operands and of the temps it assigns. */
  predicate Asks(ctx: Context, ws: Widths, op: Op) {
    match op
    case Discard(t) => t < |ctx.temps|
    case Movi(w, dst, _) => Takes(ctx, dst, w)
    case Mov(w, dst, src) => Narrows(w, Of(ws, src)) && Takes(ctx, dst, w)
    case Extend(_, from, w, dst, src) =>
      Of(ws, src).Some? && BitCount(from) <= BitCount(Of(ws, src).value) && BitCount(from) < BitCount(w)
      && Takes(ctx, dst, w)
    case Ld(_, memW, w, dst, base, _) => Of(ws, base) == Some(W64) && AccessFits(memW, w) && Takes(ctx, dst, w)
    case St(memW, w, src, base, _) => Of(ws, src) == Some(w) && Of(ws, base) == Some(W64) && AccessFits(memW, w)
    case Arith(_, w, dst, a, b) => Narrows(w, Of(ws, a)) && Narrows(w, Of(ws, b)) && Takes(ctx, dst, w)
    case Not(w, dst, src) => Of(ws, src) == Some(w) && Takes(ctx, dst, w)
    case Neg(w, dst, src) => Of(ws, src) == Some(w) && Takes(ctx, dst, w)
    case Deposit32(dst, a, b, at, len) =>
      Of(ws, a) == Some(W32) && Of(ws, b).Some? && BitCount(Of(ws, b).value) >= 32 && 0 < len && at + len <= 32
      && Takes(ctx, dst, W32)
    case Add2(rl, rh, al, ah, bl, bh) =>
      Of(ws, al) == Of(ws, ah) == Of(ws, bl) == Of(ws, bh) == Some(W32) && Takes(ctx, rl, W32) && Takes(ctx, rh, W32)
    case Call(_, result, args) => ArgsGiven(ws, args) && (result.Some? ==> result.value < |ctx.temps|)
    case BrCond(w, a, b, _, _) => Of(ws, a) == Of(ws, b) == Some(w)
    case _ => true
  }

  predicate ArgsGiven(ws: Widths, args: seq<CallArg>) {
    forall i :: 0 <= i < |args| && args[i].Arg? ==> Of(ws, args[i].t).Some?
  }

  /** The width of the value an operation assigns to temp t, if it assigns it. */
  function Gives(ctx: Context, op: Op, t: nat): Option<Width> {
    match op
    case Movi(w, dst, _) => if t == dst then Some(w) else None
    case Mov(w, dst, _) => if t == dst then Some(w) else None
    case Extend(_, _, w, dst, _) => if t == dst then Some(w) else None
    case Ld(_, _, w, dst, _, _) => if t == dst then Some(w) else None
    case Arith(_, w, dst, _, _) => if t == dst then Some(w) else None
    case Not(w, dst, _) => if t == dst then Some(w) else None
    case Neg(w, dst, _) => if t == dst then Some(w) else None
    case Deposit32(dst, _, _, _, _) => if t == dst then Some(W32) else None
    case Add2(rl, rh, _, _, _, _) => if t == rl || t == rh then Some(W32) else None
    case Call(_, result, _) => if result == Some(t) && t < |ctx.temps| then Some(ctx.temps[t].w) else None
    case _ => None
  }

  predicate StartsBlock(op: Op) { op.Br? || op.BrCond? || op.SetLabel? }

  /** What temp t gives before operation n: a global or a local temp always its own width, a plain temporary what the
      last assignment in the block gave it, unless it was discarded since. */
  function WidthAt(ctx: Context, ops: seq<Op>, n: nat, t: nat): Option<Width>
    requires n <= |ops| && t < |ctx.temps|
  {
    if !ctx.temps[t].kind.Plain? then Some(ctx.temps[t].w)
    else if n == 0 || StartsBlock(ops[n - 1]) || ops[n - 1] == Discard(t) then None
    else if Gives(ctx, ops[n - 1], t).Some? then Gives(ctx, ops[n - 1], t)
    else WidthAt(ctx, ops, n - 1, t)
  }

  function WidthsAt(ctx: Context, ops: seq<Op>, n: nat): (ws: Widths)
    requires n <= |ops|
    ensures |ws| == |ctx.temps| && forall t :: 0 <= t < |ws| ==> ws[t] == WidthAt(ctx, ops, n, t)
  {
    seq(|ctx.temps|, t requires 0 <= t < |ctx.temps| => WidthAt(ctx, ops, n, t))
  }

  predicate AsksAt(ctx: Context, ops: seq<Op>, n: nat)
    requires n < |ops|
  {
    Asks(ctx, WidthsAt(ctx, ops, n), ops[n])
  }

  /** No label is set twice by the first n operations. */
  predicate LabelsOnce(ops: seq<Op>, n: nat)
    requires n <= |ops|
  {
    forall i, j :: 0 <= i < j < n && ops[i].SetLabel? && ops[j].SetLabel? ==> ops[i].target != ops[j].target
  }

  /** Every operation has the operands and targets it asks for, and no label is set twice. */
  predicate Acceptable(ctx: Context, ops: seq<Op>) {
    (forall n: nat {:trigger AsksAt(ctx, ops, n)} :: n < |ops| ==> AsksAt(ctx, ops, n)) && LabelsOnce(ops, |ops|)
  }

  // ----- the translator's caches -----

  /** What temp t gives, as far as the caches know. */
  function TypeIn(ctx: Context, c: Cache, t: nat): Option<Width>
    requires Shaped(ctx, c) && t < |ctx.temps|
  {
    if !ctx.temps[t].kind.Plain? then Some(ctx.temps[t].w)
    else if c.values[t].Some? then Some(c.values[t].value.Type())
    else None
  }

  function TypesIn(ctx: Context, c: Cache): (ws: Widths)
    requires Shaped(ctx, c)
    ensures |ws| == |ctx.temps| && forall t :: 0 <= t < |ws| ==> ws[t] == TypeIn(ctx, c, t)
  {
    seq(|ctx.temps|, t requires 0 <= t < |ctx.temps| => TypeIn(ctx, c, t))
  }

  /** Known values of globals and local temps have the width of their temp. */
  predicate Typed(ctx: Context, c: Cache) {
    && Shaped(ctx, c)
    && forall t :: 0 <= t < |ctx.temps| && !ctx.temps[t].kind.Plain? && c.values[t].Some? ==>
         c.values[t].value.Type() == ctx.temps[t].w
  }

  lemma GetValueTypes(ctx: Context, c: Cache, t: nat)
    requires Typed(ctx, c)
    ensures GetValue(ctx, c, t).Some? <==> Of(TypesIn(ctx, c), t).Some?
    ensures GetValue(ctx, c, t).Some? ==>
      var (c', v) := GetValue(ctx, c, t).value;
      Typed(ctx, c') && TypesIn(ctx, c') == TypesIn(ctx, c) && Some(v.Type()) == Of(TypesIn(ctx, c), t)
    decreases if t < ctx.nbGlobals && ctx.temps[t].kind.InMemory? then 3 else 1
  {
    if t < ctx.nbGlobals && c.values[t].None? { GetPtrTypes(ctx, c, t); }
  }

  /** The address of a global can always be had. */
  lemma GetPtrTypes(ctx: Context, c: Cache, t: nat)
    requires Typed(ctx, c) && t < ctx.nbGlobals
    ensures GetPtr(ctx, c, t).Some?
    ensures var (c', p) := GetPtr(ctx, c, t).value; Typed(ctx, c') && TypesIn(ctx, c') == TypesIn(ctx, c)
    decreases if ctx.temps[t].kind.InMemory? then 2 else 0
  {
    if c.ptrs[t].None? && ctx.temps[t].kind.InMemory? { GetValueTypes(ctx, c, Base(ctx, t)); }
  }

  /** Assigning a temp works exactly if the temp takes the value, and changes what it gives, if it is a plain one. */
  lemma SetValueTypes(ctx: Context, c: Cache, t: nat, v: Operand)
    requires Typed(ctx, c)
    ensures SetValue(ctx, c, t, v).Some? <==> Takes(ctx, t, v.Type())
    ensures SetValue(ctx, c, t, v).Some? ==>
      && Typed(ctx, SetValue(ctx, c, t, v).value)
      && Assigned(ctx, c, SetValue(ctx, c, t, v).value, t, v.Type())
  {
    if Takes(ctx, t, v.Type()) {
      var c1 := c.(values := c.values[t := Some(v)]);
      if t < ctx.nbGlobals {
        GetPtrTypes(ctx, c1, t);
        assert TypesIn(ctx, GetPtr(ctx, c1, t).value.0) == TypesIn(ctx, c1);
      }
      var c' := SetValue(ctx, c, t, v).value;
      forall u | 0 <= u < |ctx.temps| ensures TypeIn(ctx, c', u) == TypeIn(ctx, c1, u) {
        assert TypesIn(ctx, c')[u] == TypesIn(ctx, c1)[u];
      }
    }
  }

  /** c' gives what c gives, but for temp t, which was assigned a value of width w. */
  ghost predicate Assigned(ctx: Context, c: Cache, c': Cache, t: nat, w: Width)
    requires Shaped(ctx, c) && Shaped(ctx, c')
  {
    forall u: nat {:trigger TypeIn(ctx, c', u)} :: u < |ctx.temps| ==>
      TypeIn(ctx, c', u) == if u == t && ctx.temps[t].kind.Plain? then Some(w) else TypeIn(ctx, c, u)
  }

  /** The operations' own account of what they assign is what the caches say afterwards. */
  ghost predicate Accounted(ctx: Context, c: Cache, c': Cache, op: Op)
    requires Shaped(ctx, c) && Shaped(ctx, c')
  {
    forall u: nat {:trigger TypeIn(ctx, c', u)} :: u < |ctx.temps| && ctx.temps[u].kind.Plain? ==>
      TypeIn(ctx, c', u) ==
        if op == Discard(u) then None else if Gives(ctx, op, u).Some? then Gives(ctx, op, u) else TypeIn(ctx, c, u)
  }

  /** Only code was added. */
  predicate SameKnown(c: Cache, c': Cache) { c'.values == c.values && c'.ptrs == c.ptrs }

  lemma SameTypes(ctx: Context, c: Cache, c': Cache)
    requires Typed(ctx, c) && Shaped(ctx, c') && SameKnown(c, c')
    ensures Typed(ctx, c') && TypesIn(ctx, c') == TypesIn(ctx, c)
  {
  }

  /** Fetch two operands. */
  lemma TwoValues(ctx: Context, c: Cache, a: nat, b: nat)
    requires Typed(ctx, c) && Of(TypesIn(ctx, c), a).Some?
    ensures GetValue(ctx, c, a).Some?
    ensures var (c1, va) := GetValue(ctx, c, a).value;
      && Typed(ctx, c1) && TypesIn(ctx, c1) == TypesIn(ctx, c) && Some(va.Type()) == Of(TypesIn(ctx, c), a)
      && (GetValue(ctx, c1, b).Some? <==> Of(TypesIn(ctx, c), b).Some?)
      && (GetValue(ctx, c1, b).Some? ==>
            var (c2, vb) := GetValue(ctx, c1, b).value;
            Typed(ctx, c2) && TypesIn(ctx, c2) == TypesIn(ctx, c) && Some(vb.Type()) == Of(TypesIn(ctx, c), b))
  {
    GetValueTypes(ctx, c, a);
    GetValueTypes(ctx, GetValue(ctx, c, a).value.0, b);
  }

  /** What is to be shown of each operation: it is translated exactly if it gets what it asks for. */
  ghost predicate Judged(ctx: Context, c: Cache, op: Op, r: Option<Cache>)
    requires Shaped(ctx, c)
  {
    && (r.Some? <==> Asks(ctx, TypesIn(ctx, c), op))
    && (r.Some? ==> Typed(ctx, r.value) && Accounted(ctx, c, r.value, op))
  }

  /** The last step of an operation: a value of width w is assigned, in caches that give what c gives. */
  lemma JudgeSet(ctx: Context, c: Cache, c1: Cache, op: Op, dst: nat, v: Operand)
    requires Typed(ctx, c) && Typed(ctx, c1) && TypesIn(ctx, c1) == TypesIn(ctx, c) && !op.Discard?
    requires forall u :: Gives(ctx, op, u) == if u == dst then Some(v.Type()) else None
    ensures SetValue(ctx, c1, dst, v).Some? <==> Takes(ctx, dst, v.Type())
    ensures SetValue(ctx, c1, dst, v).Some? ==>
      Typed(ctx, SetValue(ctx, c1, dst, v).value) && Accounted(ctx, c, SetValue(ctx, c1, dst, v).value, op)
  {
    SetValueTypes(ctx, c1, dst, v);
    if SetValue(ctx, c1, dst, v).Some? {
      var c2 := SetValue(ctx, c1, dst, v).value;
      forall u: nat | u < |ctx.temps| && ctx.temps[u].kind.Plain?
        ensures TypeIn(ctx, c2, u) == if Gives(ctx, op, u).Some? then Gives(ctx, op, u) else TypeIn(ctx, c, u)
      {
        assert TypesIn(ctx, c1)[u] == TypesIn(ctx, c)[u];
      }
    }
  }

  lemma JudgeMov(ctx: Context, c: Cache, op: Op)
    requires Typed(ctx, c) && op.Mov?
    ensures Judged(ctx, c, op, GenMov(ctx, c, op))
  {
    var Mov(w, dst, src) := op;
    GetValueTypes(ctx, c, src);
    if Narrows(w, Of(TypesIn(ctx, c), src)) {
      var (c1, v) := GetValue(ctx, c, src).value;
      var (c2, x) := EmitTrunc(ctx, c1, w, v);
      SameTypes(ctx, c1, c2);
      JudgeSet(ctx, c, c2, op, dst, x);
    }
  }

  lemma JudgeExtend(ctx: Context, c: Cache, op: Op)
    requires Typed(ctx, c) && op.Extend?
    ensures Judged(ctx, c, op, GenExtend(ctx, c, op))
  {
    var Extend(signed, from, w, dst, src) := op;
    GetValueTypes(ctx, c, src);
    if Of(TypesIn(ctx, c), src).Some? {
      var (c1, v) := GetValue(ctx, c, src).value;
      var (c2, x) := EmitTrunc(ctx, c1, from, v);
      var (c3, y) := EmitExt(ctx, c2, signed, w, x);
      SameTypes(ctx, c1, c3);
      JudgeSet(ctx, c, c3, op, dst, y);
    }
  }

  lemma JudgeLd(ctx: Context, c: Cache, op: Op)
    requires Typed(ctx, c) && op.Ld?
    ensures Judged(ctx, c, op, GenLd(ctx, c, op))
  {
    var Ld(signed, memW, w, dst, base, ofs) := op;
    GetValueTypes(ctx, c, base);
    if Of(TypesIn(ctx, c), base) == Some(W64) {
      var (c1, b) := GetValue(ctx, c, base).value;
      var (c2, y) := EmitLoad(ctx, c1, b, ofs, signed, memW, w).value;
      SameTypes(ctx, c1, c2);
      JudgeSet(ctx, c, c2, op, dst, y);
    }
  }

  lemma JudgeSt(ctx: Context, c: Cache, op: Op)
    requires Typed(ctx, c) && op.St?
    ensures Judged(ctx, c, op, GenSt(ctx, c, op))
  {
    var St(memW, w, src, base, ofs) := op;
    GetValueTypes(ctx, c, src);
    if Of(TypesIn(ctx, c), src).Some? {
      TwoValues(ctx, c, src, base);
      var (c1, v) := GetValue(ctx, c, src).value;
      if GenSt(ctx, c, op).Some? {
        var c2 := GetValue(ctx, c1, base).value.0;
        SameTypes(ctx, c2, GenSt(ctx, c, op).value);
        Unchanged(ctx, c, GenSt(ctx, c, op).value, op);
      }
    }
  }

  lemma Unchanged(ctx: Context, c: Cache, c': Cache, op: Op)
    requires Shaped(ctx, c) && Shaped(ctx, c') && TypesIn(ctx, c') == TypesIn(ctx, c)
    requires !op.Discard? && forall u :: Gives(ctx, op, u).None?
    ensures Accounted(ctx, c, c', op)
  {
    forall u: nat | u < |ctx.temps| ensures TypeIn(ctx, c', u) == TypeIn(ctx, c, u) {
      assert TypesIn(ctx, c')[u] == TypesIn(ctx, c)[u];
    }
  }

  lemma JudgeArith(ctx: Context, c: Cache, op: Op)
    requires Typed(ctx, c) && op.Arith?
    ensures Judged(ctx, c, op, GenArith(ctx, c, op))
  {
    var Arith(bop, w, dst, ta, tb) := op;
    GetValueTypes(ctx, c, ta);
    if Of(TypesIn(ctx, c), ta).Some? {
      TwoValues(ctx, c, ta, tb);
      if Narrows(w, Of(TypesIn(ctx, c), ta)) && Narrows(w, Of(TypesIn(ctx, c), tb)) {
        var (c1, a) := GetValue(ctx, c, ta).value;
        var (c2, b) := GetValue(ctx, c1, tb).value;
        JudgeArithTail(ctx, c, c2, op, a, b);
      }
    }
  }

  lemma JudgeArithTail(ctx: Context, c: Cache, c2: Cache, op: Op, a: Operand, b: Operand)
    requires Typed(ctx, c) && Typed(ctx, c2) && TypesIn(ctx, c2) == TypesIn(ctx, c) && op.Arith?
    requires Narrows(op.w, Some(a.Type())) && Narrows(op.w, Some(b.Type()))
    ensures Adjust(ctx, c2, op.w, a).Some? && Adjust(ctx, Adjust(ctx, c2, op.w, a).value.0, op.w, b).Some?
    ensures var (c3, x) := Adjust(ctx, c2, op.w, a).value; var (c4, y) := Adjust(ctx, c3, op.w, b).value;
      var (c5, z) := EmitBin(ctx, c4, op.op, x, y); var r := SetValue(ctx, c5, op.dst, z);
      (r.Some? <==> Takes(ctx, op.dst, op.w)) && (r.Some? ==> Typed(ctx, r.value) && Accounted(ctx, c, r.value, op))
  {
    var (c3, x) := Adjust(ctx, c2, op.w, a).value;
    var (c4, y) := Adjust(ctx, c3, op.w, b).value;
    var (c5, z) := EmitBin(ctx, c4, op.op, x, y);
    SameTypes(ctx, c2, c5);
    JudgeSet(ctx, c, c5, op, op.dst, z);
  }

  lemma JudgeUnary(ctx: Context, c: Cache, op: Op, w: Width, dst: nat, src: nat, bop: BinOp, left: int)
    requires Typed(ctx, c) && (op == Op.Not(w, dst, src) || op == Op.Neg(w, dst, src))
    ensures Judged(ctx, c, op, GenUnary(ctx, c, w, dst, src, bop, left))
  {
    GetValueTypes(ctx, c, src);
    if Of(TypesIn(ctx, c), src) == Some(w) {
      var (c1, v) := GetValue(ctx, c, src).value;
      JudgeUnaryTail(ctx, c, c1, op, w, dst, bop, Const(Cut(w, left)), v);
    }
  }

  lemma JudgeUnaryTail(ctx: Context, c: Cache, c1: Cache, op: Op, w: Width, dst: nat, bop: BinOp, k: Operand,
                       v: Operand)
    requires Typed(ctx, c) && Typed(ctx, c1) && TypesIn(ctx, c1) == TypesIn(ctx, c) && k.Type() == w
    requires (op.Not? || op.Neg?) && op.w == w && op.dst == dst
    ensures var (c2, x) := EmitBin(ctx, c1, bop, k, v); var r := SetValue(ctx, c2, dst, x);
      (r.Some? <==> Takes(ctx, dst, w)) && (r.Some? ==> Typed(ctx, r.value) && Accounted(ctx, c, r.value, op))
  {
    var (c2, x) := EmitBin(ctx, c1, bop, k, v);
    SameTypes(ctx, c1, c2);
    JudgeSet(ctx, c, c2, op, dst, x);
  }

  lemma JudgeDeposit(ctx: Context, c: Cache, op: Op)
    requires Typed(ctx, c) && op.Deposit32?
    ensures Judged(ctx, c, op, GenDeposit(ctx, c, op))
  {
    var Deposit32(dst, ta, tb, at, len) := op;
    GetValueTypes(ctx, c, ta);
    if Of(TypesIn(ctx, c), ta).Some? {
      TwoValues(ctx, c, ta, tb);
      if Of(TypesIn(ctx, c), tb).Some? && Of(TypesIn(ctx, c), ta) == Some(W32) {
        var (c1, a) := GetValue(ctx, c, ta).value;
        var (c2, b) := GetValue(ctx, c1, tb).value;
        JudgeDepositTail(ctx, c, c2, op, a, b);
      }
    }
  }

  lemma JudgeDepositTail(ctx: Context, c: Cache, c2: Cache, op: Op, a: Operand, b: Operand)
    requires Typed(ctx, c) && Typed(ctx, c2) && TypesIn(ctx, c2) == TypesIn(ctx, c) && op.Deposit32? && a.Type() == W32
    ensures var r := GenDepositTail(ctx, c2, op.dst, a, b, op.at, op.len);
      (r.Some? <==> Takes(ctx, op.dst, W32)) && (r.Some? ==> Typed(ctx, r.value) && Accounted(ctx, c, r.value, op))
  {
    var (c3, b32) := EmitTrunc(ctx, c2, W32, b);
    var (c4, x) := EmitDeposit(ctx, c3, a, b32, op.at, op.len);
    SameTypes(ctx, c2, c4);
    JudgeSet(ctx, c, c4, op, op.dst, x);
  }

  lemma JudgeCall(ctx: Context, c: Cache, op: Op)
    requires Typed(ctx, c) && op.Call?
    ensures Judged(ctx, c, op, GenCall(ctx, c, op))
  {
    var Call(helper, result, args) := op;
    GetArgsTypes(ctx, c, args);
    if GetArgs(ctx, c, args).Some? && (result.Some? ==> result.value < |ctx.temps|) {
      var (c1, vs) := GetArgs(ctx, c, args).value;
      var resultW := if result.None? then None else Some(ctx.temps[result.value].w);
      var c2 := Def(ctx, c1, CallHelper(c1.next, resultW, helper, vs));
      var c3 := ForgetMemory(ctx, c2);
      ForgetTypes(ctx, c2);
      SameTypes(ctx, c1, c2);
      if result.None? {
        Unchanged(ctx, c, c3, op);
      } else {
        JudgeSet(ctx, c, c3, op, result.value, Reg(c1.next, resultW.value));
      }
    }
  }

  lemma ForgetTypes(ctx: Context, c: Cache)
    requires Typed(ctx, c)
    ensures Typed(ctx, ForgetMemory(ctx, c)) && TypesIn(ctx, ForgetMemory(ctx, c)) == TypesIn(ctx, c)
  {
  }

  lemma {:induction false} GetArgsTypes(ctx: Context, c: Cache, args: seq<CallArg>)
    requires Typed(ctx, c)
    ensures GetArgs(ctx, c, args).Some? <==> ArgsGiven(TypesIn(ctx, c), args)
    ensures GetArgs(ctx, c, args).Some? ==>
      var c' := GetArgs(ctx, c, args).value.0; Typed(ctx, c') && TypesIn(ctx, c') == TypesIn(ctx, c)
    decreases args
  {
    if args == [] {
    } else {
      ArgsGivenNext(TypesIn(ctx, c), args);
      if args[0].Dummy? {
        GetArgsTypes(ctx, c, args[1..]);
      } else {
        GetValueTypes(ctx, c, args[0].t);
        if GetValue(ctx, c, args[0].t).Some? { GetArgsTypes(ctx, GetValue(ctx, c, args[0].t).value.0, args[1..]); }
      }
    }
  }

  lemma ArgsGivenNext(ws: Widths, args: seq<CallArg>)
    requires args != []
    ensures ArgsGiven(ws, args) <==> (args[0].Arg? ==> Of(ws, args[0].t).Some?) && ArgsGiven(ws, args[1..])
  {
    if ArgsGiven(ws, args[1..]) && (args[0].Arg? ==> Of(ws, args[0].t).Some?) {
      forall i | 0 <= i < |args| && args[i].Arg? ensures Of(ws, args[i].t).Some? {
        assert i > 0 ==> args[i] == args[1..][i - 1];
      }
    }
  }

  lemma FourTypes(ctx: Context, c: Cache, op: Op)
    requires Typed(ctx, c) && op.Add2?
    ensures GenAdd2(ctx, c, op).Some? ==>
      Of(TypesIn(ctx, c), op.al) == Of(TypesIn(ctx, c), op.ah) == Of(TypesIn(ctx, c), op.bl)
        == Of(TypesIn(ctx, c), op.bh) == Some(W32)
  {
    var ws := TypesIn(ctx, c);
    GetValueTypes(ctx, c, op.al);
    if GenAdd2(ctx, c, op).Some? {
      var c1 := GetValue(ctx, c, op.al).value.0;
      GetValueTypes(ctx, c1, op.ah);
      var c2 := GetValue(ctx, c1, op.ah).value.0;
      GetValueTypes(ctx, c2, op.bl);
      var c3 := GetValue(ctx, c2, op.bl).value.0;
      GetValueTypes(ctx, c3, op.bh);
    }
  }

  /** The four operands of add2, when they are given. */
  lemma FourValues(ctx: Context, c: Cache, op: Op)
    returns (c4: Cache, al: Operand, ah: Operand, bl: Operand, bh: Operand)
    requires Typed(ctx, c) && op.Add2?
    requires Of(TypesIn(ctx, c), op.al) == Of(TypesIn(ctx, c), op.ah) == Of(TypesIn(ctx, c), op.bl)
      == Of(TypesIn(ctx, c), op.bh) == Some(W32)
    ensures Typed(ctx, c4) && TypesIn(ctx, c4) == TypesIn(ctx, c)
    ensures al.Type() == ah.Type() == bl.Type() == bh.Type() == W32
    ensures GenAdd2(ctx, c, op) == GenAdd2Tail(ctx, c4, op.rl, op.rh, al, ah, bl, bh)
  {
    TwoValues(ctx, c, op.al, op.ah);
    var (c1, v1) := GetValue(ctx, c, op.al).value;
    var (c2, v2) := GetValue(ctx, c1, op.ah).value;
    TwoValues(ctx, c2, op.bl, op.bh);
    var (c3, v3) := GetValue(ctx, c2, op.bl).value;
    var (c5, v4) := GetValue(ctx, c3, op.bh).value;
    c4, al, ah, bl, bh := c5, v1, v2, v3, v4;
  }

  lemma JudgeAdd2Tail(ctx: Context, c: Cache, c4: Cache, op: Op, al: Operand, ah: Operand, bl: Operand, bh: Operand)
    requires Typed(ctx, c) && op.Add2? && Typed(ctx, c4) && TypesIn(ctx, c4) == TypesIn(ctx, c)
    requires al.Type() == ah.Type() == bl.Type() == bh.Type() == W32
    ensures var r := GenAdd2Tail(ctx, c4, op.rl, op.rh, al, ah, bl, bh);
      && (r.Some? <==> Takes(ctx, op.rl, W32) && Takes(ctx, op.rh, W32))
      && (r.Some? ==> Typed(ctx, r.value) && Accounted(ctx, c, r.value, op))
  {
    var (c5, a) := EmitPair(ctx, c4, ah, al);
    var (c6, b) := EmitPair(ctx, c5, bh, bl);
    var (c7, sum) := EmitBin(ctx, c6, BinOp.Add, a, b);
    var (c8, lo) := EmitTrunc(ctx, c7, W32, sum);
    var (c9, up) := EmitBin(ctx, c8, BinOp.LShr, sum, Const(Cut(W64, 32)));
    var (c10, hi) := EmitTrunc(ctx, c9, W32, up);
    SameTypes(ctx, c4, c10);
    TwoSets(ctx, c, c10, op, lo, hi);
  }

  lemma TwoSets(ctx: Context, c: Cache, c1: Cache, op: Op, lo: Operand, hi: Operand)
    requires Typed(ctx, c) && op.Add2? && Typed(ctx, c1) && TypesIn(ctx, c1) == TypesIn(ctx, c)
    requires lo.Type() == hi.Type() == W32
    ensures SetValue(ctx, c1, op.rl, lo).Some? <==> Takes(ctx, op.rl, W32)
    ensures SetValue(ctx, c1, op.rl, lo).Some? ==>
      var r := SetValue(ctx, SetValue(ctx, c1, op.rl, lo).value, op.rh, hi);
      && (r.Some? <==> Takes(ctx, op.rh, W32))
      && (r.Some? ==> Typed(ctx, r.value) && Accounted(ctx, c, r.value, op))
  {
    SetValueTypes(ctx, c1, op.rl, lo);
    if SetValue(ctx, c1, op.rl, lo).Some? {
      var c2 := SetValue(ctx, c1, op.rl, lo).value;
      SetValueTypes(ctx, c2, op.rh, hi);
      if SetValue(ctx, c2, op.rh, hi).Some? {
        var c3 := SetValue(ctx, c2, op.rh, hi).value;
        forall u: nat | u < |ctx.temps| && ctx.temps[u].kind.Plain?
          ensures TypeIn(ctx, c3, u) == if Gives(ctx, op, u).Some? then Gives(ctx, op, u) else TypeIn(ctx, c, u)
        {
          assert TypesIn(ctx, c1)[u] == TypesIn(ctx, c)[u];
          assert TypeIn(ctx, c2, u) == if u == op.rl then Some(W32) else TypeIn(ctx, c1, u);
        }
      }
    }
  }

  lemma JudgeAdd2(ctx: Context, c: Cache, op: Op)
    requires Typed(ctx, c) && op.Add2?
    ensures Judged(ctx, c, op, GenAdd2(ctx, c, op))
  {
    FourTypes(ctx, c, op);
    var ws := TypesIn(ctx, c);
    if Of(ws, op.al) == Of(ws, op.ah) == Of(ws, op.bl) == Of(ws, op.bh) == Some(W32) {
      var c4, al, ah, bl, bh := FourValues(ctx, c, op);
      JudgeAdd2Tail(ctx, c, c4, op, al, ah, bl, bh);
    }
  }

  /** Every operation that stays in its block is translated exactly if it gets what it asks for. */
  lemma JudgeStraight(ctx: Context, c: Cache, op: Op)
    requires Typed(ctx, c) && op.Straight()
    ensures Judged(ctx, c, op, Gen(ctx, c, op))
  {
    match op
    case Nop => Unchanged(ctx, c, c, op);
    case Discard(t) =>
    case Movi(w, dst, imm) => JudgeSet(ctx, c, c, op, dst, Const(Cut(w, imm)));
    case Mov(_, _, _) => JudgeMov(ctx, c, op);
    case Extend(_, _, _, _, _) => JudgeExtend(ctx, c, op);
    case Ld(_, _, _, _, _, _) => JudgeLd(ctx, c, op);
    case St(_, _, _, _, _) => JudgeSt(ctx, c, op);
    case Arith(_, _, _, _, _) => JudgeArith(ctx, c, op);
    case Not(w, dst, src) => JudgeUnary(ctx, c, op, w, dst, src, BinOp.Xor, -1);
    case Neg(w, dst, src) => JudgeUnary(ctx, c, op, w, dst, src, BinOp.Sub, 0);
    case Deposit32(_, _, _, _, _) => JudgeDeposit(ctx, c, op);
    case Add2(_, _, _, _, _, _) => JudgeAdd2(ctx, c, op);
    case Call(_, _, _) => JudgeCall(ctx, c, op);
    case GotoTb(n) =>
      var c1 := Gen(ctx, c, op).value;
      SameTypes(ctx, c, c1);
      Unchanged(ctx, c, c1, op);
  }

  // ----- whole blocks -----

  ghost predicate SetBefore(ops: seq<Op>, n: nat, k: nat)
    requires n <= |ops|
  {
    exists i :: 0 <= i < n && ops[i] == SetLabel(k)
  }

  /** After n operations the caches know what the operations gave, and which labels they set. */
  ghost predicate Agrees(ctx: Context, ops: seq<Op>, n: nat, c: Cache)
    requires n <= |ops|
  {
    && Typed(ctx, c)
    && (forall t: nat {:trigger TypeIn(ctx, c, t)} :: t < |ctx.temps| ==> TypeIn(ctx, c, t) == WidthAt(ctx, ops, n, t))
    && (forall k: nat {:trigger SetBefore(ops, n, k)} ::
          SetBefore(ops, n, k) <==> Label(k) in c.done || c.cur == Label(k))
  }

  lemma AgreeWidths(ctx: Context, ops: seq<Op>, n: nat, c: Cache)
    requires n <= |ops| && Agrees(ctx, ops, n, c)
    ensures TypesIn(ctx, c) == WidthsAt(ctx, ops, n)
  {
    forall t | 0 <= t < |ctx.temps| ensures TypesIn(ctx, c)[t] == WidthsAt(ctx, ops, n)[t] {
      assert TypeIn(ctx, c, t) == WidthAt(ctx, ops, n, t);
    }
  }

  lemma SetNext(ops: seq<Op>, n: nat, k: nat)
    requires n < |ops|
    ensures SetBefore(ops, n + 1, k) <==> SetBefore(ops, n, k) || ops[n] == SetLabel(k)
  {
  }

  lemma NextStraight(ctx: Context, ops: seq<Op>, n: nat, c: Cache)
    requires n < |ops| && Agrees(ctx, ops, n, c) && ops[n].Straight()
    ensures Gen(ctx, c, ops[n]).Some? <==> AsksAt(ctx, ops, n)
    ensures Gen(ctx, c, ops[n]).Some? ==> Agrees(ctx, ops, n + 1, Gen(ctx, c, ops[n]).value)
  {
    JudgeStraight(ctx, c, ops[n]);
    AgreeWidths(ctx, ops, n, c);
    if Gen(ctx, c, ops[n]).Some? {
      var c' := Gen(ctx, c, ops[n]).value;
      forall t: nat | t < |ctx.temps| ensures TypeIn(ctx, c', t) == WidthAt(ctx, ops, n + 1, t) {
        assert TypeIn(ctx, c, t) == WidthAt(ctx, ops, n, t);
      }
      forall k: nat ensures SetBefore(ops, n + 1, k) <==> Label(k) in c'.done || c'.cur == Label(k) {
        SetNext(ops, n, k);
      }
    }
  }

  /** A new block is started with nothing known. */
  lemma NextBlock(ctx: Context, ops: seq<Op>, n: nat, c: Cache, c1: Cache, b: BlockId)
    requires n < |ops| && Agrees(ctx, ops, n, c) && StartsBlock(ops[n]) && Shaped(ctx, c1)
    requires c1.cur == c.cur && c1.done == c.done
    requires if ops[n].SetLabel? then b == Label(ops[n].target) else b == After(n)
    ensures Agrees(ctx, ops, n + 1, StartBlock(ctx, c1, b))
  {
    var c' := StartBlock(ctx, c1, b);
    forall t: nat | t < |ctx.temps| ensures TypeIn(ctx, c', t) == WidthAt(ctx, ops, n + 1, t) {
    }
    forall k: nat ensures SetBefore(ops, n + 1, k) <==> Label(k) in c'.done || c'.cur == Label(k) {
      SetNext(ops, n, k);
    }
  }

  lemma NextCondition(ctx: Context, ops: seq<Op>, n: nat, c: Cache)
    requires n < |ops| && Agrees(ctx, ops, n, c) && ops[n].BrCond?
    ensures GenCondition(ctx, c, n, ops[n]).Some? <==> AsksAt(ctx, ops, n)
  {
    AgreeWidths(ctx, ops, n, c);
    GetValueTypes(ctx, c, ops[n].a);
    if Of(TypesIn(ctx, c), ops[n].a).Some? { TwoValues(ctx, c, ops[n].a, ops[n].b); }
  }

  /** The next operation is translated exactly if it gets what it asks for and sets no label again. */
  lemma NextOp(ctx: Context, ops: seq<Op>, n: nat, c: Cache)
    requires n < |ops| && Agrees(ctx, ops, n, c)
    ensures GenOp(ctx, c, n, ops[n]).Some? <==>
      AsksAt(ctx, ops, n) && (ops[n].SetLabel? ==> !SetBefore(ops, n, ops[n].target))
    ensures GenOp(ctx, c, n, ops[n]).Some? ==> Agrees(ctx, ops, n + 1, GenOp(ctx, c, n, ops[n]).value)
  {
    match ops[n]
    case Br(target) => NextBlock(ctx, ops, n, c, Put(ctx, c, Jump(Label(target))), After(n));
    case BrCond(_, _, _, _, _) =>
      NextCondition(ctx, ops, n, c);
      if AsksAt(ctx, ops, n) {
        var (c3, j) := GenCondition(ctx, c, n, ops[n]).value;
        NextBlock(ctx, ops, n, c, Put(ctx, c3, j), After(n));
      }
    case SetLabel(target) => NextBlock(ctx, ops, n, c, c, Label(target));
    case ExitTb(ret) => NextReturn(ctx, ops, n, c);
    case _ => NextStraight(ctx, ops, n, c);
  }

  lemma NextReturn(ctx: Context, ops: seq<Op>, n: nat, c: Cache)
    requires n < |ops| && Agrees(ctx, ops, n, c) && ops[n].ExitTb?
    ensures AsksAt(ctx, ops, n) && Agrees(ctx, ops, n + 1, GenOp(ctx, c, n, ops[n]).value)
  {
    var c' := GenOp(ctx, c, n, ops[n]).value;
    forall t: nat | t < |ctx.temps| ensures TypeIn(ctx, c', t) == WidthAt(ctx, ops, n + 1, t) {
      assert TypeIn(ctx, c, t) == WidthAt(ctx, ops, n, t);
    }
    forall k: nat ensures SetBefore(ops, n + 1, k) <==> Label(k) in c'.done || c'.cur == Label(k) {
      SetNext(ops, n, k);
    }
  }

  lemma LabelsNext(ops: seq<Op>, n: nat)
    requires n < |ops|
    ensures LabelsOnce(ops, n + 1) <==> LabelsOnce(ops, n) && (ops[n].SetLabel? ==> !SetBefore(ops, n, ops[n].target))
  {
  }

  ghost predicate AcceptableUpTo(ctx: Context, ops: seq<Op>, n: nat)
    requires n <= |ops|
  {
    (forall i: nat {:trigger AsksAt(ctx, ops, i)} :: i < n ==> AsksAt(ctx, ops, i)) && LabelsOnce(ops, n)
  }

  lemma OneMoreAcceptable(ctx: Context, ops: seq<Op>, n: nat)
    requires n < |ops|
    ensures AcceptableUpTo(ctx, ops, n + 1) <==>
      && AcceptableUpTo(ctx, ops, n) && AsksAt(ctx, ops, n)
      && (ops[n].SetLabel? ==> !SetBefore(ops, n, ops[n].target))
  {
    LabelsNext(ops, n);
  }

  lemma {:induction false} PrefixAcceptable(ctx: Context, ops: seq<Op>, n: nat)
    requires GoodContext(ctx) && n <= |ops|
    ensures GenPrefix(ctx, ops, n).Some? <==> AcceptableUpTo(ctx, ops, n)
    ensures GenPrefix(ctx, ops, n).Some? ==> Agrees(ctx, ops, n, GenPrefix(ctx, ops, n).value)
  {
    if n == 0 {
      assert Agrees(ctx, ops, 0, Start(ctx));
    } else {
      var m: nat := n - 1;
      PrefixAcceptable(ctx, ops, m);
      OneMoreAcceptable(ctx, ops, m);
      if GenPrefix(ctx, ops, m).Some? { NextOp(ctx, ops, m, GenPrefix(ctx, ops, m).value); }
      assert n == m + 1;
    }
  }

  /** A translation block is translated exactly if it is acceptable. */
  lemma TranslatesIff(ctx: Context, ops: seq<Op>)
    requires GoodContext(ctx)
    ensures Translate(ctx, ops).Some? <==> Acceptable(ctx, ops)
  {
    PrefixAcceptable(ctx, ops, |ops|);
  }

  // ----- no defined operation is refused -----

  predicate Wide(w: Width) { w == W32 || w == W64 }

  /** The operations there are: of 32 and 64 bits, with extensions from and accesses to narrower values. */
  predicate Exists(ctx: Context, op: Op) {
    match op
    case Discard(t) => t < |ctx.temps|
    case Movi(w, _, _) => Wide(w)
    case Mov(w, _, _) => Wide(w)
    case Extend(_, from, w, _, _) => (from in {W8, W16} && Wide(w)) || (from == W32 && w == W64)
    case Ld(signed, memW, w, _, _, _) =>
      (memW in {W8, W16} && Wide(w)) || (memW == W32 && w == W64) || (memW == w && Wide(w) && !signed)
    case St(memW, w, _, _, _) => (memW in {W8, W16} && Wide(w)) || (memW == W32 && w == W64) || (memW == w && Wide(w))
    case Arith(_, w, _, _, _) => Wide(w)
    case Not(w, _, _) => Wide(w)
    case Neg(w, _, _) => Wide(w)
    case _ => op.Straight()
  }

  /** Is temp t an operand? */
  predicate Reads(op: Op, t: nat) {
    match op
    case Mov(_, _, src) => t == src
    case Extend(_, _, _, _, src) => t == src
    case Ld(_, _, _, _, base, _) => t == base
    case St(_, _, src, base, _) => t == src || t == base
    case Arith(_, _, _, a, b) => t == a || t == b
    case Not(_, _, src) => t == src
    case Neg(_, _, src) => t == src
    case Deposit32(_, a, b, _, _) => t == a || t == b
    case Add2(_, _, al, ah, bl, bh) => t in {al, ah, bl, bh}
    case Call(_, _, args) => Arg(t) in args
    case _ => false
  }

  /** Every operand is given, with the width that its temp has when the operation is run. */
  ghost predicate OperandsGiven(env: Env, ctx: Context, s: State, ws: Widths, op: Op)
    requires GoodContext(ctx)
  {
    forall t: nat :: Reads(op, t) ==>
      Of(ws, t).Some? && (Read(env, ctx, s, t).Some? ==> Read(env, ctx, s, t).value.w == Of(ws, t).value)
  }

  lemma WrittenTakes(env: Env, ctx: Context, s: State, t: nat, x: Word)
    requires GoodContext(ctx) && Write(env, ctx, s, t, x).Some?
    ensures Takes(ctx, t, x.w)
  {
  }

  lemma DefinedCopy(env: Env, ctx: Context, op: Op, s: State, ws: Widths)
    requires GoodContext(ctx) && (op.Mov? || op.Extend?) && Exists(ctx, op) && Step(env, ctx, op, s).Some?
    requires OperandsGiven(env, ctx, s, ws, op)
    ensures Asks(ctx, ws, op)
  {
    assert Reads(op, op.src);
    var x := Read(env, ctx, s, op.src).value;
    if op.Mov? {
      WrittenTakes(env, ctx, s, op.dst, Narrow(op.w, x).value);
    } else {
      WrittenTakes(env, ctx, s, op.dst, Widen(op.signed, op.w, Cut(op.from, x.bits)));
    }
  }

  lemma DefinedLoad(env: Env, ctx: Context, op: Op, s: State, ws: Widths)
    requires GoodContext(ctx) && op.Ld? && Exists(ctx, op) && Step(env, ctx, op, s).Some?
    requires OperandsGiven(env, ctx, s, ws, op)
    ensures Asks(ctx, ws, op)
  {
    assert Reads(op, op.base);
    var b := Read(env, ctx, s, op.base).value;
    WrittenTakes(env, ctx, s, op.dst, Widen(op.signed, op.w, Load(s.mem, Displaced(b, op.ofs).bits, op.memW)));
  }

  lemma DefinedStore(env: Env, ctx: Context, op: Op, s: State, ws: Widths)
    requires GoodContext(ctx) && op.St? && Exists(ctx, op) && Step(env, ctx, op, s).Some?
    requires OperandsGiven(env, ctx, s, ws, op)
    ensures Asks(ctx, ws, op)
  {
    assert Reads(op, op.src) && Reads(op, op.base);
  }

  lemma DefinedArith(env: Env, ctx: Context, op: Op, s: State, ws: Widths)
    requires GoodContext(ctx) && op.Arith? && Step(env, ctx, op, s).Some? && OperandsGiven(env, ctx, s, ws, op)
    ensures Asks(ctx, ws, op)
  {
    assert Reads(op, op.a) && Reads(op, op.b);
    var x := Narrow(op.w, Read(env, ctx, s, op.a).value).value;
    var y := Narrow(op.w, Read(env, ctx, s, op.b).value).value;
    ComputedTakes(env, ctx, s, op.dst, Compute(op.op, x, y), op.op, x, y);
  }

  lemma ComputedTakes(env: Env, ctx: Context, s: State, t: nat, z: Option<Word>, op: BinOp, x: Word, y: Word)
    requires GoodContext(ctx) && z.Some? && z == Compute(op, x, y) && Write(env, ctx, s, t, z.value).Some?
    ensures Takes(ctx, t, x.w)
  {
    ComputeWidth(op, x, y);
    WrittenTakes(env, ctx, s, t, z.value);
  }

  lemma ComputeWidth(op: BinOp, x: Word, y: Word)
    requires Compute(op, x, y).Some?
    ensures Compute(op, x, y).value.w == x.w
  {
  }

  lemma DefinedUnary(env: Env, ctx: Context, op: Op, s: State, ws: Widths)
    requires GoodContext(ctx) && (op.Not? || op.Neg?) && Step(env, ctx, op, s).Some?
    requires OperandsGiven(env, ctx, s, ws, op)
    ensures Asks(ctx, ws, op)
  {
    assert Reads(op, op.src);
    var x := Read(env, ctx, s, op.src).value;
    WrittenTakes(env, ctx, s, op.dst, if op.Not? then Complement(x) else Negated(x));
  }

  lemma DefinedDeposit(env: Env, ctx: Context, op: Op, s: State, ws: Widths)
    requires GoodContext(ctx) && op.Deposit32? && Step(env, ctx, op, s).Some? && OperandsGiven(env, ctx, s, ws, op)
    ensures Asks(ctx, ws, op)
  {
    assert Reads(op, op.a) && Reads(op, op.b);
    var a, b := Read(env, ctx, s, op.a).value, Narrow(W32, Read(env, ctx, s, op.b).value).value;
    WrittenTakes(env, ctx, s, op.dst, Deposited(a, b, op.at, op.len));
  }

  lemma DefinedAdd2(env: Env, ctx: Context, op: Op, s: State, ws: Widths)
    requires GoodContext(ctx) && op.Add2? && Step(env, ctx, op, s).Some? && OperandsGiven(env, ctx, s, ws, op)
    ensures Asks(ctx, ws, op)
  {
    assert Reads(op, op.al) && Reads(op, op.ah) && Reads(op, op.bl) && Reads(op, op.bh);
    var al, bl := Read(env, ctx, s, op.al).value, Read(env, ctx, s, op.bl).value;
    var ah, bh := Read(env, ctx, s, op.ah).value, Read(env, ctx, s, op.bh).value;
    WrittenTakes(env, ctx, s, op.rl, SumLow(al, bl));
    WrittenTakes(env, ctx, Write(env, ctx, s, op.rl, SumLow(al, bl)).value, op.rh, SumHigh(al, ah, bl, bh));
  }

  lemma DefinedCall(env: Env, ctx: Context, op: Op, s: State, ws: Widths)
    requires GoodContext(ctx) && op.Call? && Step(env, ctx, op, s).Some? && OperandsGiven(env, ctx, s, ws, op)
    ensures Asks(ctx, ws, op)
  {
    forall i | 0 <= i < |op.args| && op.args[i].Arg? ensures Of(ws, op.args[i].t).Some? {
      assert op.args[i] == Arg(op.args[i].t) && Reads(op, op.args[i].t);
    }
  }

  /** An operation whose effect is defined asks for no more than that its operands are given in its block. */
  lemma DefinedIsAsked(env: Env, ctx: Context, op: Op, s: State, ws: Widths)
    requires GoodContext(ctx) && op.Straight() && Exists(ctx, op) && Step(env, ctx, op, s).Some?
    requires OperandsGiven(env, ctx, s, ws, op)
    ensures Asks(ctx, ws, op)
  {
    match op
    case Movi(w, dst, imm) => WrittenTakes(env, ctx, s, dst, Cut(w, imm));
    case Mov(_, _, _) => DefinedCopy(env, ctx, op, s, ws);
    case Extend(_, _, _, _, _) => DefinedCopy(env, ctx, op, s, ws);
    case Ld(_, _, _, _, _, _) => DefinedLoad(env, ctx, op, s, ws);
    case St(_, _, _, _, _) => DefinedStore(env, ctx, op, s, ws);
    case Arith(_, _, _, _, _) => DefinedArith(env, ctx, op, s, ws);
    case Not(_, _, _) => DefinedUnary(env, ctx, op, s, ws);
    case Neg(_, _, _) => DefinedUnary(env, ctx, op, s, ws);
    case Deposit32(_, _, _, _, _) => DefinedDeposit(env, ctx, op, s, ws);
    case Add2(_, _, _, _, _, _) => DefinedAdd2(env, ctx, op, s, ws);
    case Call(_, _, _) => DefinedCall(env, ctx, op, s, ws);
    case _ =>
  }

  /** So the translator refuses a defined operation only if it does not know an operand. */
  lemma DefinedIsTranslated(env: Env, ctx: Context, c: Cache, op: Op, s: State)
    requires Typed(ctx, c) && op.Straight() && Exists(ctx, op) && Step(env, ctx, op, s).Some?
    requires OperandsGiven(env, ctx, s, TypesIn(ctx, c), op)
    ensures Gen(ctx, c, op).Some?
  {
    DefinedIsAsked(env, ctx, op, s, TypesIn(ctx, c));
    JudgeStraight(ctx, c, op);
  }
}
