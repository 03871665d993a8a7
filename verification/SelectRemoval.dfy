/** Turning selects into branches and phis, in place. */
module SelectRemoval {
  import opened ControlFlow

  function IncomingRenamed(incoming: seq<(nat, Operand)>, from: nat, to: nat): seq<(nat, Operand)> {
    seq(|incoming|, i requires 0 <= i < |incoming| =>
      if incoming[i].0 == from then (to, incoming[i].1) else incoming[i])
  }

  /** The block with its phis reading from block `to` what they read from block `from`. */
  function PhisRenamed(b: Block, from: nat, to: nat): Block {
    seq(|b|, i requires 0 <= i < |b| =>
      if b[i].Phi? then Phi(b[i].dst, IncomingRenamed(b[i].incoming, from, to)) else b[i])
  }

  /** Splitting block b before instruction k moves the rest to a new block `rest`; the phis of the blocks that
      the rest jumps to follow. */
  function Split(f: Func, b: nat, k: nat, rest: nat): Func
    requires b in f.blocks && k < |f.blocks[b]| && b in f.order
  {
    var succ := Successors(f.blocks[b]);
    var renamed := map x | x in f.blocks :: if x in succ then PhisRenamed(f.blocks[x], b, rest) else f.blocks[x];
    var j := IndexOf(f.order, b);
    Func(renamed[b := renamed[b][..k] + [Jump(rest)]][rest := renamed[b][k..]],
         f.order[..j + 1] + [rest] + f.order[j + 1..])
  }

  function IndexOf(s: seq<nat>, x: nat): (i: nat)
    requires x in s
    ensures i < |s| && s[i] == x
  {
    if s[0] == x then 0 else 1 + IndexOf(s[1..], x)
  }

  /** After the split: block b branches to two one-jump blocks, which meet in a phi in place of the select s. */
  function Diamond(g: Func, b: nat, s: Inst, rest: nat, onTrue: nat, onFalse: nat): Func
    requires b in g.blocks && rest in g.blocks && g.blocks[b] != [] && g.blocks[rest] != [] && s.Select?
  {
    var phi := Phi(s.dst, [(onTrue, s.onTrue), (onFalse, s.onFalse)]);
    Func(g.blocks[onTrue := [Jump(rest)]][onFalse := [Jump(rest)]]
                 [b := g.blocks[b][..|g.blocks[b]| - 1] + [Branch(s.cond, onTrue, onFalse)]]
                 [rest := [phi] + g.blocks[rest][1..]],
         g.order + [onTrue, onFalse])
  }

  /** The select at position k of block b becomes a branch and a phi. */
  function GenIf(f: Func, b: nat, k: nat, rest: nat, onTrue: nat, onFalse: nat): Func
    requires b in f.blocks && b in f.order && k < |f.blocks[b]| && f.blocks[b][k].Select? && b != rest
  {
    Diamond(Split(f, b, k, rest), b, f.blocks[b][k], rest, onTrue, onFalse)
  }

  // ----- one select removed: the same results -----

  ghost predicate Applicable(f: Func, b: nat, k: nat, rest: nat, onTrue: nat, onFalse: nat) {
    && Good(f) && b in f.blocks && k < |f.blocks[b]| && f.blocks[b][k].Select?
    && rest !in f.blocks && onTrue !in f.blocks && onFalse !in f.blocks
    && rest != onTrue && rest != onFalse && onTrue != onFalse
  }

  /** The machine after instructions that do not leave the block. */
  function After(sem: Semantics, insts: Block, prev: int, entry: map<nat, int>, m: Machine): Machine
    requires forall i :: 0 <= i < |insts| ==> !insts[i].IsTerminator()
    decreases insts
  {
    if insts == [] then m else After(sem, insts[1..], prev, entry, Step(sem, insts[0], prev, entry, m))
  }

  lemma {:induction false} ExecConcat(sem: Semantics, a: Block, c: Block, prev: int, entry: map<nat, int>, m: Machine)
    requires forall i :: 0 <= i < |a| ==> !a[i].IsTerminator()
    ensures Exec(sem, a + c, prev, entry, m) == Exec(sem, c, prev, entry, After(sem, a, prev, entry, m))
    decreases a
  {
    if a == [] {
      assert a + c == c;
    } else {
      assert (a + c)[1..] == a[1..] + c && (a + c)[0] == a[0];
      ExecConcat(sem, a[1..], c, prev, entry, Step(sem, a[0], prev, entry, m));
    }
  }

  /** Without phis it does not matter where control came from. */
  lemma {:induction false} ExecNoPhis(sem: Semantics, c: Block, p: int, q: int, e: map<nat, int>, e': map<nat, int>,
                                      m: Machine)
    requires forall i :: 0 <= i < |c| ==> !c[i].Phi?
    ensures Exec(sem, c, p, e, m) == Exec(sem, c, q, e', m)
    decreases c
  {
    if c != [] && !c[0].IsTerminator() {
      ExecNoPhis(sem, c[1..], p, q, e, e', Step(sem, c[0], p, e, m));
    }
  }

  /** Where the rewritten function says control came from. */
  function Moved(prev: int, b: nat, rest: nat): int { if prev == b then rest else prev }

  lemma {:induction false} IncomingMoved(incoming: seq<(nat, Operand)>, prev: int, b: nat, rest: nat)
    requires prev != rest && forall j :: 0 <= j < |incoming| ==> incoming[j].0 != rest
    ensures Incoming(IncomingRenamed(incoming, b, rest), Moved(prev, b, rest)) == Incoming(incoming, prev)
    decreases incoming
  {
    if incoming == [] {
    } else {
      assert IncomingRenamed(incoming, b, rest)[1..] == IncomingRenamed(incoming[1..], b, rest);
      IncomingMoved(incoming[1..], prev, b, rest);
    }
  }

  ghost predicate NotFrom(c: Block, rest: nat) {
    forall i, j :: 0 <= i < |c| && c[i].Phi? && 0 <= j < |c[i].incoming| ==> c[i].incoming[j].0 != rest
  }

  lemma StepMoved(sem: Semantics, i: Inst, prev: int, b: nat, rest: nat, e: map<nat, int>, m: Machine)
    requires prev != rest && NotFrom([i], rest) && !i.IsTerminator()
    ensures Step(sem, PhisRenamed([i], b, rest)[0], Moved(prev, b, rest), e, m) == Step(sem, i, prev, e, m)
  {
    if i.Phi? {
      assert [i][0] == i;
      IncomingMoved(i.incoming, prev, b, rest);
    }
  }

  /** Renamed phis, entered from the block that now ends with the old terminator, read what they read before. */
  lemma {:induction false} AfterMoved(sem: Semantics, c: Block, prev: int, b: nat, rest: nat, e: map<nat, int>,
                                      m: Machine)
    requires prev != rest && NotFrom(c, rest) && forall i :: 0 <= i < |c| ==> !c[i].IsTerminator()
    ensures After(sem, PhisRenamed(c, b, rest), Moved(prev, b, rest), e, m) == After(sem, c, prev, e, m)
    decreases c
  {
    if c == [] {
    } else {
      assert PhisRenamed(c, b, rest)[1..] == PhisRenamed(c[1..], b, rest);
      assert PhisRenamed(c, b, rest)[0] == PhisRenamed([c[0]], b, rest)[0];
      StepMoved(sem, c[0], prev, b, rest, e, m);
      AfterMoved(sem, c[1..], prev, b, rest, e, Step(sem, c[0], prev, e, m));
    }
  }

  lemma {:induction false} ExecMoved(sem: Semantics, c: Block, prev: int, b: nat, rest: nat, e: map<nat, int>,
                                     m: Machine)
    requires prev != rest && NotFrom(c, rest)
    ensures Exec(sem, PhisRenamed(c, b, rest), Moved(prev, b, rest), e, m) == Exec(sem, c, prev, e, m)
    decreases c
  {
    if c == [] {
    } else {
      assert PhisRenamed(c, b, rest)[1..] == PhisRenamed(c[1..], b, rest);
      assert PhisRenamed(c, b, rest)[0] == PhisRenamed([c[0]], b, rest)[0];
      if !c[0].IsTerminator() {
        StepMoved(sem, c[0], prev, b, rest, e, m);
        ExecMoved(sem, c[1..], prev, b, rest, e, Step(sem, c[0], prev, e, m));
      }
    }
  }

  lemma {:induction false} GotoIsSuccessor(sem: Semantics, c: Block, prev: int, e: map<nat, int>, m: Machine)
    requires WellFormed(c)
    ensures Exec(sem, c, prev, e, m).Goto? ==> Exec(sem, c, prev, e, m).b in Successors(c)
    decreases c
  {
    if |c| > 1 {
      GotoIsSuccessor(sem, c[1..], prev, e, Step(sem, c[0], prev, e, m));
    }
  }

  /** In a block that phis start, nothing after a select is a phi. */
  lemma {:induction false} NoPhisAfter(c: Block, k: nat, i: nat)
    requires WellFormed(c) && k <= i < |c| && !c[k].Phi?
    ensures !c[i].Phi?
    decreases i
  {
    if k < i { NoPhisAfter(c, k, i - 1); }
  }

  /** Block x with its phis adapted to the split of b. */
  function Adapted(f: Func, b: nat, rest: nat, x: nat): (c: Block)
    requires b in f.blocks && x in f.blocks
    ensures |c| == |f.blocks[x]|
  {
    if x in Successors(f.blocks[b]) then PhisRenamed(f.blocks[x], b, rest) else f.blocks[x]
  }

  /** g is f with the select at position k of block b replaced. */
  ghost predicate Rewritten(f: Func, g: Func, b: nat, k: nat, rest: nat, t: nat, u: nat) {
    && Applicable(f, b, k, rest, t, u)
    && var c := f.blocks[b];
    && var s := c[k];
    && g.blocks.Keys == f.blocks.Keys + {rest, t, u}
    && g.blocks[t] == [Jump(rest)] && g.blocks[u] == [Jump(rest)]
    && g.blocks[rest] == [Phi(s.dst, [(t, s.onTrue), (u, s.onFalse)])] + c[k + 1..]
    && g.blocks[b] == Adapted(f, b, rest, b)[..k] + [Branch(s.cond, t, u)]
    && (forall x :: x in f.blocks && x != b ==> g.blocks[x] == Adapted(f, b, rest, x))
    && |g.order| > 0 && g.order[0] == f.order[0]
  }

  /** What splitting makes of each block. */
  lemma SplitBlocks(f: Func, b: nat, k: nat, rest: nat)
    requires b in f.blocks && k < |f.blocks[b]| && b in f.order && rest !in f.blocks
    ensures var g := Split(f, b, k, rest);
      && g.blocks.Keys == f.blocks.Keys + {rest}
      && g.blocks[rest] == Adapted(f, b, rest, b)[k..]
      && g.blocks[b] == Adapted(f, b, rest, b)[..k] + [Jump(rest)]
      && (forall x :: x in f.blocks && x != b ==> g.blocks[x] == Adapted(f, b, rest, x))
      && |g.order| > 0 && g.order[0] == f.order[0]
  {
  }

  lemma AdaptedTail(f: Func, b: nat, k: nat, rest: nat)
    requires Good(f) && b in f.blocks && k < |f.blocks[b]| && f.blocks[b][k].Select?
    ensures Adapted(f, b, rest, b)[k..][1..] == f.blocks[b][k + 1..]
  {
    var c, d := f.blocks[b], Adapted(f, b, rest, b);
    assert GoodBlock(f, b);
    forall i | k < i < |c| ensures d[i] == c[i] { NoPhisAfter(c, k, i); }
  }

  lemma GenIfRewrites(f: Func, b: nat, k: nat, rest: nat, t: nat, u: nat)
    requires Applicable(f, b, k, rest, t, u)
    ensures Rewritten(f, GenIf(f, b, k, rest, t, u), b, k, rest, t, u)
  {
    SplitBlocks(f, b, k, rest);
    AdaptedTail(f, b, k, rest);
    DiamondBlocks(Split(f, b, k, rest), b, f.blocks[b][k], rest, t, u);
    var d := Adapted(f, b, rest, b)[..k];
    assert (d + [Jump(rest)])[..|d|] == d;
  }

  /** And what the diamond makes of them. */
  lemma DiamondBlocks(g: Func, b: nat, s: Inst, rest: nat, t: nat, u: nat)
    requires b in g.blocks && rest in g.blocks && g.blocks[b] != [] && g.blocks[rest] != [] && s.Select?
    requires t !in g.blocks && u !in g.blocks && t != u && b != rest && |g.order| > 0
    ensures var h := Diamond(g, b, s, rest, t, u);
      && h.blocks.Keys == g.blocks.Keys + {t, u}
      && h.blocks[t] == [Jump(rest)] && h.blocks[u] == [Jump(rest)]
      && h.blocks[rest] == [Phi(s.dst, [(t, s.onTrue), (u, s.onFalse)])] + g.blocks[rest][1..]
      && h.blocks[b] == g.blocks[b][..|g.blocks[b]| - 1] + [Branch(s.cond, t, u)]
      && (forall x :: x in g.blocks && x != b && x != rest ==> h.blocks[x] == g.blocks[x])
      && |h.order| > 0 && h.order[0] == g.order[0]
  {
  }

  /** Control is at block x and came from prev: possible only along a jump. */
  predicate Possible(f: Func, b: nat, x: nat, prev: int)
    requires b in f.blocks
  {
    prev == b ==> x in Successors(f.blocks[b])
  }

  lemma OtherBlock(sem: Semantics, f: Func, b: nat, rest: nat, x: nat, prev: int, m: Machine)
    requires Good(f) && b in f.blocks && x in f.blocks && rest !in f.blocks && prev != rest && Possible(f, b, x, prev)
    ensures Exec(sem, Adapted(f, b, rest, x), Moved(prev, b, rest), m.regs, m) ==
      Exec(sem, f.blocks[x], prev, m.regs, m)
  {
    if x in Successors(f.blocks[b]) {
      assert GoodBlock(f, x);
      ExecMoved(sem, f.blocks[x], prev, b, rest, m.regs, m);
    }
  }

  /** Block b up to the select. */
  lemma EntryRuns(sem: Semantics, f: Func, g: Func, b: nat, k: nat, rest: nat, t: nat, u: nat, prev: int, m: Machine)
    requires Rewritten(f, g, b, k, rest, t, u) && prev != rest && Possible(f, b, b, prev)
    requires forall i :: 0 <= i < k ==> !f.blocks[b][i].IsTerminator()
    ensures var s := f.blocks[b][k];
      var m1 := After(sem, f.blocks[b][..k], prev, m.regs, m);
      Exec(sem, g.blocks[b], Moved(prev, b, rest), m.regs, m) == Goto(if Eval(m1.regs, s.cond) != 0 then t else u, m1)
  {
    var c, s := f.blocks[b], f.blocks[b][k];
    var a := Adapted(f, b, rest, b)[..k];
    ExecConcat(sem, a, [Branch(s.cond, t, u)], Moved(prev, b, rest), m.regs, m);
    if b in Successors(c) {
      assert a == PhisRenamed(c[..k], b, rest);
      assert GoodBlock(f, b);
      AfterMoved(sem, c[..k], prev, b, rest, m.regs, m);
    }
  }

  /** The phi picks what the select picked. */
  lemma PhiPicks(sem: Semantics, s: Inst, t: nat, u: nat, prev: int, e: map<nat, int>, m: Machine)
    requires s.Select? && t != u
    ensures Step(sem, Phi(s.dst, [(t, s.onTrue), (u, s.onFalse)]), if Eval(m.regs, s.cond) != 0 then t else u,
      m.regs, m)
         == Step(sem, s, prev, e, m)
  {
    var incoming := [(t, s.onTrue), (u, s.onFalse)];
    assert incoming[1..] == [(u, s.onFalse)];
    assert Incoming(incoming, t) == s.onTrue && Incoming(incoming[1..], u) == s.onFalse;
  }

  lemma FromSelect(sem: Semantics, c: Block, k: nat, prev: int, m: Machine)
    requires k < |c| && c[k].Select? && forall i :: 0 <= i < k ==> !c[i].IsTerminator()
    ensures var m1 := After(sem, c[..k], prev, m.regs, m);
      Exec(sem, c, prev, m.regs, m) == Exec(sem, c[k + 1..], prev, m.regs, Step(sem, c[k], prev, m.regs, m1))
  {
    assert c == c[..k] + c[k..] && c[k..][0] == c[k] && c[k..][1..] == c[k + 1..];
    ExecConcat(sem, c[..k], c[k..], prev, m.regs, m);
  }

  /** The block after the select, entered from either side. */
  lemma RestRuns(sem: Semantics, f: Func, g: Func, b: nat, k: nat, rest: nat, t: nat, u: nat, prev: int, m: Machine)
    requires Rewritten(f, g, b, k, rest, t, u)
    requires forall i :: 0 <= i < k ==> !f.blocks[b][i].IsTerminator()
    ensures var s := f.blocks[b][k];
      var m1 := After(sem, f.blocks[b][..k], prev, m.regs, m);
      Exec(sem, g.blocks[rest], if Eval(m1.regs, s.cond) != 0 then t else u, m1.regs, m1)
        == Exec(sem, f.blocks[b], prev, m.regs, m)
  {
    var c, s := f.blocks[b], f.blocks[b][k];
    var m1 := After(sem, c[..k], prev, m.regs, m);
    var side := if Eval(m1.regs, s.cond) != 0 then t else u;
    FromSelect(sem, c, k, prev, m);
    PhiPicks(sem, s, t, u, prev, m.regs, m1);
    assert GoodBlock(f, b);
    var tail := c[k + 1..];
    forall i | 0 <= i < |tail| ensures !tail[i].Phi? {
      assert tail[i] == c[k + 1 + i];
      NoPhisAfter(c, k, k + 1 + i);
    }
    var m2 := Step(sem, s, prev, m.regs, m1);
    ExecNoPhis(sem, tail, prev, side, m.regs, m1.regs, m2);
    var phi := Phi(s.dst, [(t, s.onTrue), (u, s.onFalse)]);
    assert ([phi] + tail)[1..] == tail;
  }

  lemma SelectIsInside(f: Func, b: nat, k: nat)
    requires Good(f) && b in f.blocks && k < |f.blocks[b]| && f.blocks[b][k].Select?
    ensures forall i :: 0 <= i < k ==> !f.blocks[b][i].IsTerminator()
  {
    assert GoodBlock(f, b);
  }

  /** The rest of a run after a block, left from block `from`, produced r. */
  function Continue(g: Func, sem: Semantics, from: int, r: Result, left: int): Outcome {
    match r
    case Done(v, w) => Finished(v, w)
    case FellOff => Stuck
    case Goto(y, m') => if left < 0 then OutOfFuel else Run(g, sem, y, from, m', left)
  }

  lemma RunOnce(g: Func, sem: Semantics, x: nat, prev: int, m: Machine, fuel: nat, left: int)
    requires x in g.blocks && left == fuel - 1
    ensures Run(g, sem, x, prev, m, fuel) == Continue(g, sem, x, Exec(sem, g.blocks[x], prev, m.regs, m), left)
  {
  }

  /** Two extra jumps reach the phi. */
  lemma Detour(sem: Semantics, f: Func, g: Func, b: nat, k: nat, rest: nat, t: nat, u: nat, prev: int, m: Machine,
               fuel: nat, left: int)
    requires Rewritten(f, g, b, k, rest, t, u) && prev != rest && Possible(f, b, b, prev) && left == fuel - 2
    requires forall i :: 0 <= i < k ==> !f.blocks[b][i].IsTerminator()
    ensures var m1 := After(sem, f.blocks[b][..k], prev, m.regs, m);
      var side := if Eval(m1.regs, f.blocks[b][k].cond) != 0 then t else u;
      Run(g, sem, b, Moved(prev, b, rest), m, fuel)
        == if left < 0 then OutOfFuel else Run(g, sem, rest, side, m1, left)
  {
    SelectIsInside(f, b, k);
    EntryRuns(sem, f, g, b, k, rest, t, u, prev, m);
  }

  /** How many extra jumps block x takes. */
  function Extra(x: nat, b: nat): nat { if x == b then 2 else 0 }

  /** One block of the original against the same block, or its pieces, of the rewritten function. `left` is
      what remains of the fuel afterwards. */
  lemma Lockstep(sem: Semantics, f: Func, g: Func, b: nat, k: nat, rest: nat, t: nat, u: nat,
                 x: nat, prev: int, m: Machine, fuel: nat, left: int)
    requires Rewritten(f, g, b, k, rest, t, u) && prev != rest && Possible(f, b, x, prev) && x in f.blocks
    requires left == fuel - Extra(x, b)
    ensures Run(g, sem, x, Moved(prev, b, rest), m, fuel)
         == if left < 0 then OutOfFuel
            else Continue(g, sem, Moved(x, b, rest), Exec(sem, f.blocks[x], prev, m.regs, m), left - 1)
  {
    if x == b {
      SelectIsInside(f, b, k);
      Detour(sem, f, g, b, k, rest, t, u, prev, m, fuel, left);
      RestRuns(sem, f, g, b, k, rest, t, u, prev, m);
      if left >= 0 {
        var m1 := After(sem, f.blocks[b][..k], prev, m.regs, m);
        RunOnce(g, sem, rest, if Eval(m1.regs, f.blocks[b][k].cond) != 0 then t else u, m1, left, left - 1);
      }
    } else {
      OtherBlock(sem, f, b, rest, x, prev, m);
      RunOnce(g, sem, x, Moved(prev, b, rest), m, fuel, left - 1);
    }
  }

  lemma Next(sem: Semantics, f: Func, b: nat, x: nat, prev: int, m: Machine)
    requires Good(f) && b in f.blocks && x in f.blocks
    ensures match Exec(sem, f.blocks[x], prev, m.regs, m)
      case Goto(y, _) => y in f.blocks && Possible(f, b, y, x)
      case _ => true
  {
    assert GoodBlock(f, x);
    GotoIsSuccessor(sem, f.blocks[x], prev, m.regs, m);
  }

  /** A run that finishes still finishes with the same result, given more fuel. */
  lemma {:induction false} Forward(sem: Semantics, f: Func, g: Func, b: nat, k: nat, rest: nat, t: nat, u: nat,
                                   x: nat, prev: int, m: Machine, fuel: nat)
    returns (more: nat)
    requires Rewritten(f, g, b, k, rest, t, u) && prev != rest && Possible(f, b, x, prev) && x in f.blocks
    requires Run(f, sem, x, prev, m, fuel).Finished?
    ensures Run(g, sem, x, Moved(prev, b, rest), m, more) == Run(f, sem, x, prev, m, fuel)
    decreases fuel
  {
    Next(sem, f, b, x, prev, m);
    var r := Exec(sem, f.blocks[x], prev, m.regs, m);
    var left := 0;
    RunOnce(f, sem, x, prev, m, fuel, fuel - 1);
    if r.Goto? {
      var inner := Forward(sem, f, g, b, k, rest, t, u, r.b, x, r.m, fuel - 1);
      left := inner + 1;
    }
    more := left + Extra(x, b);
    Lockstep(sem, f, g, b, k, rest, t, u, x, prev, m, more, left);
  }

  /** A run of the rewritten function that finishes is a run of the original. */
  lemma {:induction false} Backward(sem: Semantics, f: Func, g: Func, b: nat, k: nat, rest: nat, t: nat, u: nat,
                                    x: nat, prev: int, m: Machine, fuel: nat)
    returns (less: nat)
    requires Rewritten(f, g, b, k, rest, t, u) && prev != rest && Possible(f, b, x, prev) && x in f.blocks
    requires Run(g, sem, x, Moved(prev, b, rest), m, fuel).Finished?
    ensures Run(f, sem, x, prev, m, less) == Run(g, sem, x, Moved(prev, b, rest), m, fuel)
    decreases fuel
  {
    Next(sem, f, b, x, prev, m);
    var left := fuel - Extra(x, b);
    Lockstep(sem, f, g, b, k, rest, t, u, x, prev, m, fuel, left);
    var r := Exec(sem, f.blocks[x], prev, m.regs, m);
    less := 0;
    if r.Goto? {
      var inner := Backward(sem, f, g, b, k, rest, t, u, r.b, x, r.m, left - 1);
      less := inner + 1;
    }
    RunOnce(f, sem, x, prev, m, less, less - 1);
  }

  /** Removing one select keeps every result, on every input. */
  lemma RewriteKeepsResults(f: Func, g: Func, b: nat, k: nat, rest: nat, t: nat, u: nat)
    requires Rewritten(f, g, b, k, rest, t, u)
    ensures Equivalent(f, g)
  {
    var e := f.order[0];
    forall sem: Semantics, m: Machine, v: int, w: World ensures Alike(f, g, sem, m, v, w) {
      if Computes(f, sem, m, v, w) {
        var fuel: nat :| Run(f, sem, e, NOWHERE, m, fuel) == Finished(v, w);
        var _ := Forward(sem, f, g, b, k, rest, t, u, e, NOWHERE, m, fuel);
      }
      if Computes(g, sem, m, v, w) {
        var fuel: nat :| Run(g, sem, e, NOWHERE, m, fuel) == Finished(v, w);
        var _ := Backward(sem, f, g, b, k, rest, t, u, e, NOWHERE, m, fuel);
      }
    }
  }

  // ----- one select removed: still a good function, with one select less -----

  lemma {:induction false} SelectsRenamed(c: Block, b: nat, rest: nat)
    ensures Selects(PhisRenamed(c, b, rest)) == Selects(c)
  {
    if c == [] {
    } else {
      assert PhisRenamed(c, b, rest)[1..] == PhisRenamed(c[1..], b, rest);
      SelectsRenamed(c[1..], b, rest);
    }
  }

  lemma AdaptedSelects(f: Func, b: nat, rest: nat, x: nat)
    requires b in f.blocks && x in f.blocks
    ensures Selects(Adapted(f, b, rest, x)) == Selects(f.blocks[x])
  {
    SelectsRenamed(f.blocks[x], b, rest);
  }

  lemma OneLess(f: Func, b: nat, k: nat, rest: nat, t: nat, u: nat)
    requires Applicable(f, b, k, rest, t, u)
    ensures var g := GenIf(f, b, k, rest, t, u);
      && Good(g)
      && Total(g.blocks, g.order) + 1 == Total(f.blocks, f.order)
      && Selects(g.blocks[rest]) == Selects(f.blocks[b][k + 1..])
      && Selects(g.blocks[b]) == Selects(f.blocks[b][..k])
  {
    var g := GenIf(f, b, k, rest, t, u);
    GenIfRewrites(f, b, k, rest, t, u);
    GenIfGood(f, b, k, rest, t, u);
    var j := GenIfOrder(f, b, k, rest, t, u);
    OneLessFor(f, g, b, k, rest, t, u, j);
  }

  /** The new blocks are listed behind the one that was split, and at the end. */
  lemma GenIfOrder(f: Func, b: nat, k: nat, rest: nat, t: nat, u: nat) returns (j: nat)
    requires Applicable(f, b, k, rest, t, u)
    ensures j < |f.order| && f.order[j] == b
    ensures GenIf(f, b, k, rest, t, u).order == f.order[..j + 1] + [rest] + f.order[j + 1..] + [t, u]
  {
    j := IndexOf(f.order, b);
  }

  lemma OneLessFor(f: Func, g: Func, b: nat, k: nat, rest: nat, t: nat, u: nat, j: nat)
    requires Rewritten(f, g, b, k, rest, t, u) && Good(g) && j < |f.order| && f.order[j] == b
    requires g.order == f.order[..j + 1] + [rest] + f.order[j + 1..] + [t, u]
    ensures Total(g.blocks, g.order) + 1 == Total(f.blocks, f.order)
    ensures Selects(g.blocks[rest]) == Selects(f.blocks[b][k + 1..])
    ensures Selects(g.blocks[b]) == Selects(f.blocks[b][..k])
  {
    var front, back := f.order[..j], f.order[j + 1..];
    SelectsOfPieces(f, g, b, k, rest, t, u);
    Around(f.blocks.Keys, f.order, j);
    forall x | x in front || x in back
      ensures x in f.blocks && x in g.blocks && Selects(g.blocks[x]) == Selects(f.blocks[x])
    {
      AdaptedSelects(f, b, rest, x);
    }
    Regroup(f.order, j, rest, t, u);
    TotalsAround(f.blocks, g.blocks, front, back, b, rest, t, u);
    TotalOfPieces(f, g, b, rest, t, u);
  }

  lemma Around(names: set<nat>, order: seq<nat>, j: nat)
    requires Listed(names, order) && j < |order|
    ensures forall x :: x in order[..j] || x in order[j + 1..] ==> x in names && x != order[j]
  {
  }

  lemma Regroup(order: seq<nat>, j: nat, rest: nat, t: nat, u: nat)
    requires j < |order|
    ensures order == order[..j] + ([order[j]] + order[j + 1..])
    ensures order[..j + 1] + [rest] + order[j + 1..] + [t, u]
         == order[..j] + ([order[j], rest] + (order[j + 1..] + [t, u]))
  {
  }

  lemma TotalsAround(fb: map<nat, Block>, gb: map<nat, Block>, front: seq<nat>, back: seq<nat>,
                     b: nat, rest: nat, t: nat, u: nat)
    requires b in fb && b in gb && rest in gb && t in gb && u in gb
    requires forall x :: x in front || x in back ==> x in fb && x in gb && Selects(gb[x]) == Selects(fb[x])
    ensures Total(fb, front + ([b] + back)) == Total(fb, front) + Total(fb, back) + Total(fb, [b])
    ensures Total(gb, front + ([b, rest] + (back + [t, u])))
         == Total(fb, front) + Total(fb, back) + Total(gb, [b, rest]) + Total(gb, [t, u])
  {
    TotalSame(fb, gb, front);
    TotalSame(fb, gb, back);
    TotalConcat(fb, front, [b] + back);
    TotalConcat(fb, [b], back);
    TotalConcat(gb, front, [b, rest] + (back + [t, u]));
    TotalConcat(gb, [b, rest], back + [t, u]);
    TotalConcat(gb, back, [t, u]);
  }

  lemma TotalOfPieces(f: Func, g: Func, b: nat, rest: nat, t: nat, u: nat)
    requires b in f.blocks && b in g.blocks && rest in g.blocks && t in g.blocks && u in g.blocks
    requires Selects(g.blocks[t]) == 0 && Selects(g.blocks[u]) == 0
    requires Selects(g.blocks[b]) + Selects(g.blocks[rest]) + 1 == Selects(f.blocks[b])
    ensures Total(f.blocks, [b]) == Total(g.blocks, [b, rest]) + Total(g.blocks, [t, u]) + 1
  {
    assert [b][1..] == [] && [b, rest][1..] == [rest] && [rest][1..] == [] && [t, u][1..] == [u] && [u][1..] == [];
    assert Total(f.blocks, [b]) == Selects(f.blocks[b]);
    assert Total(g.blocks, [rest]) == Selects(g.blocks[rest]);
    assert Total(g.blocks, [u]) == Selects(g.blocks[u]);
  }

  lemma SelectsOfPieces(f: Func, g: Func, b: nat, k: nat, rest: nat, t: nat, u: nat)
    requires Rewritten(f, g, b, k, rest, t, u)
    ensures Selects(g.blocks[t]) == 0 && Selects(g.blocks[u]) == 0
    ensures Selects(g.blocks[rest]) == Selects(f.blocks[b][k + 1..])
    ensures Selects(g.blocks[b]) == Selects(f.blocks[b][..k])
    ensures Selects(g.blocks[b]) + Selects(g.blocks[rest]) + 1 == Selects(f.blocks[b])
  {
    var c := f.blocks[b];
    var s := c[k];
    var phi := Phi(s.dst, [(t, s.onTrue), (u, s.onFalse)]);
    SelectsConcat([phi], c[k + 1..]);
    assert [phi][1..] == [] && [Jump(rest)][1..] == [];
    SelectsBefore(f, b, k, rest, Branch(s.cond, t, u));
    SelectsAround(c, k);
  }

  lemma SelectsAround(c: Block, k: nat)
    requires k < |c| && c[k].Select?
    ensures Selects(c) == Selects(c[..k]) + 1 + Selects(c[k + 1..])
  {
    assert c == c[..k] + ([c[k]] + c[k + 1..]) && [c[k]][1..] == [];
    SelectsConcat(c[..k], [c[k]] + c[k + 1..]);
    SelectsConcat([c[k]], c[k + 1..]);
  }

  lemma SelectsBefore(f: Func, b: nat, k: nat, rest: nat, br: Inst)
    requires b in f.blocks && k <= |f.blocks[b]| && br.Branch?
    requires k <= |Adapted(f, b, rest, b)|
    ensures Selects(Adapted(f, b, rest, b)[..k] + [br]) == Selects(f.blocks[b][..k])
  {
    var c, d := f.blocks[b], Adapted(f, b, rest, b);
    SelectsConcat(d[..k], [br]);
    assert [br][1..] == [];
    if b in Successors(c) {
      assert d[..k] == PhisRenamed(c[..k], b, rest);
      SelectsRenamed(c[..k], b, rest);
    }
  }

  lemma AdaptedGood(f: Func, b: nat, rest: nat, x: nat)
    requires Good(f) && b in f.blocks && x in f.blocks
    ensures WellFormed(Adapted(f, b, rest, x))
    ensures PhisFrom(Adapted(f, b, rest, x), f.blocks.Keys + {rest})
    ensures Successors(Adapted(f, b, rest, x)) == Successors(f.blocks[x])
  {
    assert GoodBlock(f, x);
  }

  lemma EntryGood(f: Func, g: Func, b: nat, k: nat, rest: nat, t: nat, u: nat)
    requires Rewritten(f, g, b, k, rest, t, u)
    ensures GoodBlock(g, b)
  {
    AdaptedGood(f, b, rest, b);
    SelectIsInside(f, b, k);
    var d := Adapted(f, b, rest, b);
    assert g.blocks[b] == d[..k] + [Branch(f.blocks[b][k].cond, t, u)];
    assert k < |d| && !d[k].IsTerminator() && k < |d| - 1;
  }

  lemma RestGood(f: Func, g: Func, b: nat, k: nat, rest: nat, t: nat, u: nat)
    requires Rewritten(f, g, b, k, rest, t, u)
    ensures GoodBlock(g, rest)
  {
    var c := f.blocks[b];
    assert GoodBlock(f, b);
    var tail := c[k + 1..];
    forall i | 0 <= i < |tail| ensures !tail[i].Phi? && (tail[i].IsTerminator() <==> i == |tail| - 1) {
      assert tail[i] == c[k + 1 + i];
      NoPhisAfter(c, k, k + 1 + i);
    }
    assert k < |c| - 1;
    var phi := Phi(c[k].dst, [(t, c[k].onTrue), (u, c[k].onFalse)]);
    assert g.blocks[rest] == [phi] + tail;
    TailGood(phi, tail, c, g.blocks.Keys);
  }

  lemma TailGood(phi: Inst, tail: Block, c: Block, names: set<nat>)
    requires phi.Phi? && |tail| > 0 && |c| > 0 && tail[|tail| - 1] == c[|c| - 1]
    requires forall i :: 0 <= i < |tail| ==> !tail[i].Phi? && (tail[i].IsTerminator() <==> i == |tail| - 1)
    requires forall j :: 0 <= j < |phi.incoming| ==> phi.incoming[j].0 in names
    ensures WellFormed([phi] + tail) && PhisFrom([phi] + tail, names) && Successors([phi] + tail) == Successors(c)
  {
    var d := [phi] + tail;
    assert d[|d| - 1] == tail[|tail| - 1];
    forall i | 0 < i < |d| ensures d[i] == tail[i - 1] {}
  }

  lemma GenIfGood(f: Func, b: nat, k: nat, rest: nat, t: nat, u: nat)
    requires Applicable(f, b, k, rest, t, u)
    ensures Good(GenIf(f, b, k, rest, t, u))
  {
    GenIfRewrites(f, b, k, rest, t, u);
    var g := GenIf(f, b, k, rest, t, u);
    forall x {:trigger GoodBlock(g, x)} | x in g.blocks ensures GoodBlock(g, x) {
      if x == b {
        EntryGood(f, g, b, k, rest, t, u);
      } else if x == rest {
        RestGood(f, g, b, k, rest, t, u);
      } else if x in f.blocks {
        AdaptedGood(f, b, rest, x);
        assert GoodBlock(f, x);
      }
    }
    GenIfListed(f, b, k, rest, t, u);
  }

  lemma GenIfListed(f: Func, b: nat, k: nat, rest: nat, t: nat, u: nat)
    requires Applicable(f, b, k, rest, t, u)
    ensures Listed(f.blocks.Keys + {rest, t, u}, GenIf(f, b, k, rest, t, u).order)
  {
    OrderListed(f.blocks.Keys, f.order, IndexOf(f.order, b) + 1, rest, t, u);
  }

  lemma OrderListed(names: set<nat>, order: seq<nat>, j: nat, rest: nat, t: nat, u: nat)
    requires Listed(names, order) && j <= |order| && rest !in names && t !in names && u !in names
    requires rest != t && rest != u && t != u
    ensures Listed(names + {rest, t, u}, order[..j] + [rest] + order[j..] + [t, u])
  {
    var longer := order[..j] + [rest] + order[j..];
    InsertListed(names, order, j, rest);
    InsertListed(names + {rest}, longer, |longer|, t);
    assert longer[..|longer|] + [t] + longer[|longer|..] == longer + [t];
    InsertListed(names + {rest} + {t}, longer + [t], |longer| + 1, u);
    assert (longer + [t])[..|longer| + 1] + [u] + (longer + [t])[|longer| + 1..] == longer + [t, u];
    assert names + {rest} + {t} + {u} == names + {rest, t, u};
  }

  lemma InsertListed(names: set<nat>, order: seq<nat>, j: nat, x: nat)
    requires Listed(names, order) && x !in names && j <= |order|
    ensures Listed(names + {x}, order[..j] + [x] + order[j..])
  {
    var longer := order[..j] + [x] + order[j..];
    assert order == order[..j] + order[j..];
    forall i | 0 <= i < |longer| ensures longer[i] == if i < j then order[i] else if i == j then x else order[i - 1] {}
    assert longer[j] == x;
  }

  // ----- the pass -----

  predicate NoSelects(c: Block) { forall i :: 0 <= i < |c| ==> !c[i].Select? }

  lemma {:induction false} NoSelectsCount(c: Block)
    ensures NoSelects(c) <==> Selects(c) == 0
  {
    if c == [] {
    } else {
      NoSelectsCount(c[1..]);
      assert c == [c[0]] + c[1..];
      if NoSelects(c) {
        forall i | 0 <= i < |c[1..]| ensures !c[1..][i].Select? { assert c[1..][i] == c[i + 1]; }
      }
      if NoSelects(c[1..]) && !c[0].Select? {
        forall i | 0 <= i < |c| ensures !c[i].Select? { if i > 0 { assert c[i] == c[1..][i - 1]; } }
      }
    }
  }

  lemma EquivalentTransitive(f: Func, g: Func, h: Func)
    requires Equivalent(f, g) && Equivalent(g, h)
    ensures Equivalent(f, h)
  {
    forall sem: Semantics, m: Machine, v: int, w: World ensures Alike(f, h, sem, m, v, w) {
      assert Alike(f, g, sem, m, v, w) && Alike(g, h, sem, m, v, w);
    }
  }

  /** A function whose blocks are rewritten in place. */
  class Rewriter {
    var blocks: map<nat, Block>
    var order: seq<nat>

    ghost function Value(): Func
      reads this
    {
      Func(blocks, order)
    }

    constructor (f: Func)
      ensures Value() == f
    {
      blocks, order := f.blocks, f.order;
    }

    /** A name above every name in use. */
    method NewName() returns (b: nat)
      requires Good(Value())
      ensures forall x :: x in blocks ==> x < b
    {
      b := 0;
      for i := 0 to |order|
        invariant forall j :: 0 <= j < i ==> order[j] < b
      {
        if order[i] >= b { b := order[i] + 1; }
      }
      assert forall x :: x in blocks.Keys <==> x in order;
    }

    method SplitBasicBlock(b: nat, k: nat, rest: nat)
      requires b in blocks && b in order && k < |blocks[b]|
      modifies this
      ensures Value() == Split(old(Value()), b, k, rest)
    {
      var f := Func(blocks, order);
      var succ := Successors(f.blocks[b]);
      var renamed := map x | x in f.blocks :: if x in succ then PhisRenamed(f.blocks[x], b, rest) else f.blocks[x];
      var j := IndexOf(order, b);
      blocks := renamed[b := renamed[b][..k] + [Jump(rest)]][rest := renamed[b][k..]];
      order := order[..j + 1] + [rest] + order[j + 1..];
      assert Value() == Split(f, b, k, rest);
    }

    /** Replace the select at position k of block b; returns the block that now holds what followed it. */
    method ReplaceSelect(b: nat, k: nat) returns (rest: nat)
      requires Good(Value()) && b in blocks && k < |blocks[b]| && blocks[b][k].Select?
      modifies this
      ensures Progress(old(Value()), Value(), b, k, rest)
    {
      rest := NewName();
      ghost var f := Value();
      NewNamesApply(f, b, k, rest);
      Diamonds(b, k, blocks[b][k], rest);
      ReplacedBy(f, Value(), b, k, rest);
    }

    method Diamonds(b: nat, k: nat, s: Inst, rest: nat)
      requires b in blocks && b in order && k < |blocks[b]| && s == blocks[b][k] && s.Select? && b != rest
      requires rest !in blocks && b < rest
      modifies this
      ensures Value() == GenIf(old(Value()), b, k, rest, rest + 1, rest + 2)
    {
      SplitBasicBlock(b, k, rest);
      BranchAndMeet(b, s, rest, rest + 1, rest + 2);
    }

    method BranchAndMeet(b: nat, s: Inst, rest: nat, onTrue: nat, onFalse: nat)
      requires b in blocks && rest in blocks && blocks[b] != [] && blocks[rest] != [] && s.Select?
      requires onTrue !in {b, rest} && onFalse !in {b, rest} && b != rest
      modifies this
      ensures Value() == Diamond(old(Value()), b, s, rest, onTrue, onFalse)
    {
      blocks := blocks[onTrue := [Jump(rest)]];
      blocks := blocks[onFalse := [Jump(rest)]];
      order := order + [onTrue, onFalse];
      blocks := blocks[b := blocks[b][..|blocks[b]| - 1] + [Branch(s.cond, onTrue, onFalse)]];
      blocks := blocks[rest := [Phi(s.dst, [(onTrue, s.onTrue), (onFalse, s.onFalse)])] + blocks[rest][1..]];
    }

    /** Position of the first select of block b, or its length. */
    method FindSelect(b: nat) returns (k: nat)
      requires b in blocks
      ensures k <= |blocks[b]| && NoSelects(blocks[b][..k])
      ensures k < |blocks[b]| ==> blocks[b][k].Select?
    {
      k := 0;
      while k < |blocks[b]| && !blocks[b][k].Select?
        invariant k <= |blocks[b]| && forall i :: 0 <= i < k ==> !blocks[b][i].Select?
      {
        k := k + 1;
      }
    }

    /** The pass: no select is left, the function is still in good form and computes what it computed. */
    method RunOnFunction() returns (modified: bool)
      requires Good(Value())
      modifies this
      ensures Good(Value())
      ensures forall b :: b in blocks ==> NoSelects(blocks[b])
      ensures Equivalent(old(Value()), Value())
      ensures modified <==> HasSelects(old(Value()))
    {
      ghost var f := Value();
      modified := false;
      var i := 0;
      while i < |order|
        invariant i <= |order| && Rewriting(f, Value(), modified) && DoneBefore(Value(), i)
        decreases Total(blocks, order), |order| - i
      {
        modified, i := RewriteBlock(f, modified, i);
      }
      assert forall x :: x in blocks.Keys <==> x in order;
    }

    /** The inner loop of the pass: take the selects out of the i-th block one by one. */
    method RewriteBlock(ghost f: Func, before: bool, i: nat) returns (modified: bool, next: nat)
      requires i < |order| && Rewriting(f, Value(), before) && DoneBefore(Value(), i)
      modifies this
      ensures i < next <= |order| && Rewriting(f, Value(), modified) && DoneBefore(Value(), next)
      ensures Value() == old(Value()) || Total(blocks, order) < Total(old(blocks), old(order))
    {
      modified, next := before, i + 1;
      ghost var at := i;
      var cur: nat, k: nat := FirstOf(i);
      while k < |blocks[cur]|
        invariant i <= at < |order| && order[at] == cur && Rewriting(f, Value(), modified)
        invariant FirstSelect(Value(), cur, k) && DoneBefore(Value(), at)
        invariant Value() == old(Value()) || Total(blocks, order) < Total(old(blocks), old(order))
        decreases Total(blocks, order)
      {
        cur, k := RewriteSelect(f, modified, at, cur, k);
        modified, at := true, at + 1;
      }
      DoneThrough(Value(), at, cur, k, next);
    }

    /** The i-th block, and its first select. */
    method FirstOf(i: nat) returns (cur: nat, k: nat)
      requires Good(Value()) && i < |order|
      ensures cur == order[i] && FirstSelect(Value(), cur, k)
    {
      cur := order[i];
      k := FindSelect(cur);
    }

    /** Take out the select at k; go on in the block that holds what followed it. */
    method RewriteSelect(ghost f: Func, ghost modified: bool, ghost at: nat, cur: nat, k: nat)
      returns (rest: nat, k': nat)
      requires at < |order| && order[at] == cur && Rewriting(f, Value(), modified)
      requires FirstSelect(Value(), cur, k) && k < |blocks[cur]| && DoneBefore(Value(), at)
      modifies this
      ensures at + 1 < |order| && order[at + 1] == rest && Rewriting(f, Value(), true)
      ensures FirstSelect(Value(), rest, k') && DoneBefore(Value(), at + 1)
      ensures Total(blocks, order) < Total(old(blocks), old(order))
    {
      ghost var before := Value();
      assert before.blocks[cur][k].Select? && !NoSelects(before.blocks[cur]);
      rest := ReplaceSelect(cur, k);
      EquivalentTransitive(f, before, Value());
      StillNone(before, Value(), cur, at, k, rest);
      k' := FindSelect(rest);
    }
  }

  /** The first n blocks have no select. */
  ghost predicate DoneBefore(f: Func, n: nat) {
    n <= |f.order| && forall j :: 0 <= j < n ==> f.order[j] in f.blocks && NoSelects(f.blocks[f.order[j]])
  }

  /** g is what the pass has made of f so far; modified says whether it has changed it. */
  ghost predicate Rewriting(f: Func, g: Func, modified: bool) {
    Good(g) && Equivalent(f, g) && if modified then HasSelects(f) else g == f
  }

  ghost predicate HasSelects(f: Func) { exists b :: b in f.blocks && !NoSelects(f.blocks[b]) }

  /** k is the position of the first select of block b, or its length. */
  ghost predicate FirstSelect(f: Func, b: nat, k: nat) {
    && b in f.blocks && k <= |f.blocks[b]| && NoSelects(f.blocks[b][..k])
    && (k < |f.blocks[b]| ==> f.blocks[b][k].Select?)
  }

  lemma DoneThrough(f: Func, at: nat, b: nat, k: nat, n: nat)
    requires DoneBefore(f, at) && at < |f.order| && f.order[at] == b && FirstSelect(f, b, k) && k == |f.blocks[b]|
    requires n <= at + 1
    ensures DoneBefore(f, n)
  {
    assert f.blocks[b][..k] == f.blocks[b];
  }

  lemma ReplacedBy(f: Func, g: Func, b: nat, k: nat, rest: nat)
    requires Applicable(f, b, k, rest, rest + 1, rest + 2) && b in f.order && b < rest
    requires g == GenIf(f, b, k, rest, rest + 1, rest + 2)
    ensures Progress(f, g, b, k, rest)
  {
    Replaced(f, b, k, rest, rest + 1, rest + 2);
  }

  lemma NewNamesApply(f: Func, b: nat, k: nat, rest: nat)
    requires Good(f) && b in f.blocks && k < |f.blocks[b]| && f.blocks[b][k].Select?
    requires forall x :: x in f.blocks ==> x < rest
    ensures Applicable(f, b, k, rest, rest + 1, rest + 2) && b in f.order && b < rest
  {
    assert forall x :: x in f.blocks.Keys <==> x in f.order;
  }

  /** What removing one select brings about. */
  ghost predicate Progress(f: Func, g: Func, b: nat, k: nat, rest: nat) {
    && Good(f) && Good(g) && Equivalent(f, g)
    && Total(g.blocks, g.order) < Total(f.blocks, f.order)
    && b in f.blocks && k < |f.blocks[b]| && rest in g.blocks
    && (forall x :: x in f.blocks && x != b && NoSelects(f.blocks[x]) ==> x in g.blocks && NoSelects(g.blocks[x]))
    && (NoSelects(f.blocks[b][..k]) ==> b in g.blocks && NoSelects(g.blocks[b]))
    && forall j :: 0 <= j < |f.order| && f.order[j] == b ==>
         j + 1 < |g.order| && g.order[..j + 1] == f.order[..j + 1] && g.order[j + 1] == rest
  }

  lemma Replaced(f: Func, b: nat, k: nat, rest: nat, t: nat, u: nat)
    requires Applicable(f, b, k, rest, t, u)
    ensures Progress(f, GenIf(f, b, k, rest, t, u), b, k, rest)
  {
    var g := GenIf(f, b, k, rest, t, u);
    OneLess(f, b, k, rest, t, u);
    GenIfRewrites(f, b, k, rest, t, u);
    RewriteKeepsResults(f, g, b, k, rest, t, u);
    OthersStayFree(f, b, k, rest, t, u);
    NoSelectsCount(f.blocks[b][..k]);
    NoSelectsCount(g.blocks[b]);
    ListedAfter(f, b, k, rest, t, u);
  }

  lemma OthersStayFree(f: Func, b: nat, k: nat, rest: nat, t: nat, u: nat)
    requires Applicable(f, b, k, rest, t, u)
    ensures var g := GenIf(f, b, k, rest, t, u);
      forall x :: x in f.blocks && x != b && NoSelects(f.blocks[x]) ==> x in g.blocks && NoSelects(g.blocks[x])
  {
    GenIfRewrites(f, b, k, rest, t, u);
    var g := GenIf(f, b, k, rest, t, u);
    forall x | x in f.blocks && x != b && NoSelects(f.blocks[x]) ensures x in g.blocks && NoSelects(g.blocks[x]) {
      assert g.blocks[x] == Adapted(f, b, rest, x);
    }
  }

  lemma ListedAfter(f: Func, b: nat, k: nat, rest: nat, t: nat, u: nat)
    requires Applicable(f, b, k, rest, t, u)
    ensures var g := GenIf(f, b, k, rest, t, u);
      forall j :: 0 <= j < |f.order| && f.order[j] == b ==>
        j + 1 < |g.order| && g.order[..j + 1] == f.order[..j + 1] && g.order[j + 1] == rest
  {
  }

  lemma StillNone(f: Func, g: Func, b: nat, at: nat, k: nat, rest: nat)
    requires Progress(f, g, b, k, rest) && at < |f.order| && f.order[at] == b && NoSelects(f.blocks[b][..k])
    requires forall j :: 0 <= j < at ==> f.order[j] in f.blocks && NoSelects(f.blocks[f.order[j]])
    ensures at + 1 < |g.order| && g.order[at + 1] == rest
    ensures forall j :: 0 <= j <= at ==> g.order[j] in g.blocks && NoSelects(g.blocks[g.order[j]])
  {
    forall j | 0 <= j <= at ensures g.order[j] in g.blocks && NoSelects(g.blocks[g.order[j]]) {
      assert g.order[..at + 1][j] == f.order[..at + 1][j];
    }
  }
}
