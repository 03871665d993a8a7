/** Merging one state into another with select expressions. */
module Merge {
  import opened Expressions
  import opened Options

  /** A stack frame: its caller, its function and its locals; a local may be unset. */
  datatype Frame = Frame(caller: nat, function_: nat, locals: seq<Option<Expr>>)

  /** A memory object of the address map; valueIgnored objects hold nothing that matters. */
  datatype Object = Object(id: nat, shared: bool, valueIgnored: bool)

  /** What is bound to a memory object: an object state, known by its identity, and its bytes. */
  datatype Contents = Contents(identity: nat, bytes: seq<Expr>)

  /** The system part of the CPU state and the dirty mask, which the merge treats on their own. */
  const CPU_SYSTEM := Object(1, true, false)
  const DIRTY_MASK := Object(2, true, false)

  ghost predicate Satisfies(a: Assignment, cs: set<Expr>) { forall c :: c in cs ==> Holds(c, a) }

  /** A local or byte x merged with y: both sides' values, each where its side holds. */
  ghost predicate Blends(m: Expr, inA: Expr, x: Expr, y: Expr) {
    forall a {:trigger Eval(m, a)} :: Eval(m, a) == if Holds(inA, a) then Eval(x, a) else Eval(y, a)
  }

  function Blend(inA: Expr, x: Expr, y: Expr): (m: Expr)
    ensures Blends(m, inA, x, y)
  {
    if x != y then Select(inA, x, y) else x
  }

  function BlendLocal(inA: Expr, x: Option<Expr>, y: Option<Expr>): Option<Expr> {
    if x.None? || y.None? then x else Some(Blend(inA, x.value, y.value))
  }

  /** The frames of s can be merged with those of t: there is a local in t for every one in s. */
  predicate Aligned(s: seq<Frame>, t: seq<Frame>) {
    |s| == |t| && forall i :: 0 <= i < |s| ==> |s[i].locals| <= |t[i].locals|
  }

  /** The same functions, called from the same places. A merge only reports stacks that differ in this. */
  predicate SameFrames(s: seq<Frame>, t: seq<Frame>) {
    |s| == |t| && forall i :: 0 <= i < |s| ==> s[i].caller == t[i].caller && s[i].function_ == t[i].function_
  }

  /** Object states are shared between states: one identity, one contents. */
  ghost predicate Coherent(m: map<Object, Contents>, n: map<Object, Contents>) {
    && (forall o :: o in m && o in n && m[o].identity == n[o].identity ==> m[o].bytes == n[o].bytes)
    && (forall o :: o in m && o in n ==> |m[o].bytes| == |n[o].bytes|)
  }

  predicate Mutated(m: map<Object, Contents>, n: map<Object, Contents>, o: Object)
    requires o in m && o in n
  {
    m[o].identity != n[o].identity && !o.valueIgnored && o != CPU_SYSTEM && o != DIRTY_MASK
  }

  function BlendLocals(inA: Expr, xs: seq<Option<Expr>>, ys: seq<Option<Expr>>): (r: seq<Option<Expr>>)
    requires |xs| <= |ys|
    ensures |r| == |xs| && forall k :: 0 <= k < |r| ==> r[k] == BlendLocal(inA, xs[k], ys[k])
  {
    seq(|xs|, k requires 0 <= k < |xs| => BlendLocal(inA, xs[k], ys[k]))
  }

  function BlendFrame(inA: Expr, f: Frame, g: Frame): Frame
    requires |f.locals| <= |g.locals|
  {
    f.(locals := BlendLocals(inA, f.locals, g.locals))
  }

  function BlendBytes(inA: Expr, xs: seq<Expr>, ys: seq<Expr>): (r: seq<Expr>)
    requires |xs| == |ys|
    ensures |r| == |xs| && forall k :: 0 <= k < |r| ==> r[k] == Blend(inA, xs[k], ys[k])
  {
    seq(|xs|, k requires 0 <= k < |xs| => Blend(inA, xs[k], ys[k]))
  }

  /** A dirty byte stays only where both sides have it. */
  function ClearDiffering(xs: seq<Expr>, ys: seq<Expr>): (r: seq<Expr>)
    requires |xs| == |ys|
    ensures |r| == |xs| && forall k :: 0 <= k < |r| ==> r[k] == if xs[k] != ys[k] then Const(0) else xs[k]
  {
    seq(|xs|, k requires 0 <= k < |xs| => if xs[k] != ys[k] then Const(0) else xs[k])
  }

  /** What a merge binds to each object. */
  function MergedBytes(inA: Expr, m: map<Object, Contents>, n: map<Object, Contents>, o: Object): seq<Expr>
    requires o in m && o in n && |m[o].bytes| == |n[o].bytes|
  {
    if Mutated(m, n, o) then BlendBytes(inA, m[o].bytes, n[o].bytes)
    else if o == DIRTY_MASK then ClearDiffering(m[o].bytes, n[o].bytes)
    else m[o].bytes
  }

  /** What a merge changes of a state. */
  datatype Picture = Picture(constraints: set<Expr>, stack: seq<Frame>, objects: map<Object, Contents>)

  /** m is x with y merged into it, as far as the expressions go. */
  ghost predicate MergedFrom(m: Picture, x: Picture, y: Picture, inA: Expr, inB: Expr) {
    var common := x.constraints * y.constraints;
    && (forall a :: Holds(inA, a) <==> Satisfies(a, x.constraints - common))
    && (forall a :: Holds(inB, a) <==> Satisfies(a, y.constraints - common))
    && m.constraints == common + {Or(inA, inB)}
    && Aligned(x.stack, y.stack) && |m.stack| == |x.stack|
    && (forall i :: 0 <= i < |m.stack| ==> m.stack[i] == BlendFrame(inA, x.stack[i], y.stack[i]))
    && Coherent(x.objects, y.objects) && m.objects.Keys == x.objects.Keys == y.objects.Keys
    && forall o :: o in m.objects ==> m.objects[o].bytes == MergedBytes(inA, x.objects, y.objects, o)
  }

  class State {
    var pc: nat
    var symbolics: seq<nat>
    var stack: seq<Frame>
    var constraints: set<Expr>
    var objects: map<Object, Contents>
    var active: bool

    /** An inactive state. */
    constructor (pc: nat, symbolics: seq<nat>, picture: Picture)
      ensures this.pc == pc && this.symbolics == symbolics && View() == picture && !active
    {
      this.pc, this.symbolics, active := pc, symbolics, false;
      constraints, stack, objects := picture.constraints, picture.stack, picture.objects;
    }

    ghost function View(): Picture
      reads this
    {
      Picture(constraints, stack, objects)
    }

    method Conjoin(cs: set<Expr>) returns (e: Expr)
      ensures forall a {:trigger Holds(e, a)} :: Holds(e, a) <==> Satisfies(a, cs)
    {
      e := Const(1);
      var todo := cs;
      while todo != {}
        invariant todo <= cs
        invariant forall a {:trigger Holds(e, a)} :: Holds(e, a) <==> Satisfies(a, cs - todo)
        decreases todo
      {
        var c :| c in todo;
        ghost var before := e;
        e := And(e, c);
        forall a ensures Holds(e, a) <==> Satisfies(a, cs - (todo - {c})) {
          assert Holds(e, a) <==> Holds(before, a) && Holds(c, a);
          assert cs - (todo - {c}) == cs - todo + {c};
        }
        todo := todo - {c};
      }
      assert cs - todo == cs;
    }

    /** Merge b into this state. inA and inB are the predicates made of the constraints the other side lacks. */
    method Merge(b: State) returns (ok: bool, ghost inA: Expr, ghost inB: Expr)
      requires b != this && !active && !b.active && Coherent(objects, b.objects)
      requires DIRTY_MASK in objects && DIRTY_MASK in b.objects
      requires |stack| == |b.stack| ==> Aligned(stack, b.stack)
      modifies this
      ensures ok <==>
        && old(pc) == b.pc && old(symbolics) == b.symbolics && old(|stack|) == |b.stack|
        && old(objects).Keys == b.objects.Keys
        && forall o :: o in old(objects) && o.shared && !o.valueIgnored && o != CPU_SYSTEM && o != DIRTY_MASK ==>
             old(objects)[o].identity == b.objects[o].identity
      ensures pc == old(pc) && symbolics == old(symbolics) && active == old(active)
      ensures !ok ==> View() == old(View())
      ensures ok ==> MergedFrom(View(), old(View()), b.View(), inA, inB)
      ensures ok ==> AlwaysFaithful(View(), old(View()), b.View())
    {
      inA, inB := Const(0), Const(0);
      if pc != b.pc || symbolics != b.symbolics || |stack| != |b.stack| || objects.Keys != b.objects.Keys {
        return false, inA, inB;
      }
      var same, mutated := FindMutated(b);
      if !same { return false, inA, inB; }
      inA, inB := MergeMutated(b, mutated);
      ok := true;
      AllFaithful(View(), old(View()), b.View(), inA, inB);
    }

    /** The changes of a merge, once nothing is in its way. */
    method MergeMutated(b: State, mutated: set<Object>) returns (inA: Expr, inB: Expr)
      requires b != this && Coherent(objects, b.objects) && Aligned(stack, b.stack) && objects.Keys == b.objects.Keys
      requires DIRTY_MASK in objects && forall o :: o in mutated <==> o in objects && Mutated(objects, b.objects, o)
      modifies this`stack, this`objects, this`constraints
      ensures MergedFrom(View(), old(View()), b.View(), inA, inB)
    {
      var commonConstraints := constraints * b.constraints;
      inA := Conjoin(constraints - commonConstraints);
      inB := Conjoin(b.constraints - commonConstraints);
      MergeStacks(b, inA);
      MergeObjects(b, inA, mutated);
      constraints := commonConstraints + {Or(inA, inB)};
      MergeDirtyMask(b);
    }

    /** The objects whose states differ; same is false if one of them is shared-concrete. */
    method FindMutated(b: State) returns (same: bool, mutated: set<Object>)
      requires objects.Keys == b.objects.Keys
      ensures same <==> forall o :: o in objects && Mutated(objects, b.objects, o) ==> !o.shared
      ensures same ==> forall o :: o in mutated <==> o in objects && Mutated(objects, b.objects, o)
    {
      mutated := {};
      var todo := objects.Keys;
      while todo != {}
        invariant todo <= objects.Keys
        invariant forall o :: o in mutated <==> o in objects && o !in todo && Mutated(objects, b.objects, o)
        invariant forall o :: o in mutated ==> !o.shared
        decreases todo
      {
        var o :| o in todo;
        if Mutated(objects, b.objects, o) {
          if o.shared { return false, {}; }
          mutated := mutated + {o};
        }
        todo := todo - {o};
      }
      same := true;
    }

    method MergeStacks(b: State, inA: Expr)
      requires b != this && Aligned(stack, b.stack)
      modifies this`stack
      ensures |stack| == |old(stack)|
      ensures forall i :: 0 <= i < |stack| ==> stack[i] == BlendFrame(inA, old(stack)[i], b.stack[i])
    {
      for i := 0 to |stack|
        invariant |stack| == |old(stack)|
        invariant forall j :: 0 <= j < i ==> stack[j] == BlendFrame(inA, old(stack)[j], b.stack[j])
        invariant forall j :: i <= j < |stack| ==> stack[j] == old(stack)[j]
      {
        var locals := stack[i].locals;
        for k := 0 to |locals|
          invariant |locals| == |stack[i].locals|
          invariant forall l :: 0 <= l < |locals| ==>
            locals[l] == if l < k then BlendLocal(inA, stack[i].locals[l], b.stack[i].locals[l]) else stack[i].locals[l]
        {
          if locals[k].Some? && b.stack[i].locals[k].Some? && locals[k] != b.stack[i].locals[k] {
            locals := locals[k := Some(Select(inA, locals[k].value, b.stack[i].locals[k].value))];
          }
        }
        assert locals == BlendLocals(inA, stack[i].locals, b.stack[i].locals);
        stack := stack[i := stack[i].(locals := locals)];
      }
    }

    method MergeObjects(b: State, inA: Expr, mutated: set<Object>)
      requires b != this && Coherent(objects, b.objects) && objects.Keys == b.objects.Keys && mutated <= objects.Keys
      modifies this`objects
      ensures objects.Keys == old(objects).Keys
      ensures forall o :: o in objects ==> objects[o].identity == old(objects)[o].identity
      ensures forall o :: o in objects ==>
        objects[o].bytes ==
          if o in mutated then BlendBytes(inA, old(objects)[o].bytes, b.objects[o].bytes) else old(objects)[o].bytes
    {
      var todo := mutated;
      while todo != {}
        invariant todo <= mutated && objects.Keys == old(objects).Keys
        invariant forall o :: o in objects ==> objects[o].identity == old(objects)[o].identity
        invariant forall o :: o in objects ==>
          objects[o].bytes ==
            if o in mutated - todo then BlendBytes(inA, old(objects)[o].bytes, b.objects[o].bytes)
            else old(objects)[o].bytes
        decreases todo
      {
        var o :| o in todo;
        var bytes := MergeBytes(objects[o].bytes, b.objects[o].bytes, inA);
        objects := objects[o := Contents(objects[o].identity, bytes)];
        todo := todo - {o};
      }
    }

    method MergeBytes(xs: seq<Expr>, ys: seq<Expr>, inA: Expr) returns (r: seq<Expr>)
      requires |xs| == |ys|
      ensures r == BlendBytes(inA, xs, ys)
    {
      r := xs;
      for k := 0 to |xs|
        invariant |r| == |xs|
        invariant forall l :: 0 <= l < |r| ==> r[l] == if l < k then Blend(inA, xs[l], ys[l]) else xs[l]
      {
        if xs[k] != ys[k] { r := r[k := Select(inA, xs[k], ys[k])]; }
      }
    }

    method MergeDirtyMask(b: State)
      requires b != this && DIRTY_MASK in objects && DIRTY_MASK in b.objects
      requires |objects[DIRTY_MASK].bytes| == |b.objects[DIRTY_MASK].bytes|
      modifies this`objects
      ensures objects.Keys == old(objects).Keys
      ensures forall o :: o in objects ==>
        objects[o].bytes ==
          if o == DIRTY_MASK then ClearDiffering(old(objects)[o].bytes, b.objects[o].bytes) else old(objects)[o].bytes
    {
      var mine, theirs := objects[DIRTY_MASK].bytes, b.objects[DIRTY_MASK].bytes;
      var r := mine;
      for k := 0 to |mine|
        invariant |r| == |mine|
        invariant forall l :: 0 <= l < |r| ==> r[l] == if l < k && mine[l] != theirs[l] then Const(0) else mine[l]
      {
        if mine[k] != theirs[k] { r := r[k := Const(0)]; }
      }
      assert r == ClearDiffering(mine, theirs);
      objects := objects[DIRTY_MASK := objects[DIRTY_MASK].(bytes := r)];
    }
  }

  lemma SatisfiesSplit(a: Assignment, cs: set<Expr>, ds: set<Expr>)
    ensures Satisfies(a, cs) <==> Satisfies(a, cs * ds) && Satisfies(a, cs - cs * ds)
    ensures Satisfies(a, ds) <==> Satisfies(a, cs * ds) && Satisfies(a, ds - cs * ds)
  {
  }

  /** The constraints of a merged state admit exactly the assignments of either side. */
  lemma MergedConstraints(cs: set<Expr>, ds: set<Expr>, inA: Expr, inB: Expr, a: Assignment)
    requires Holds(inA, a) <==> Satisfies(a, cs - cs * ds)
    requires Holds(inB, a) <==> Satisfies(a, ds - cs * ds)
    ensures Satisfies(a, cs * ds + {Or(inA, inB)}) <==> Satisfies(a, cs) || Satisfies(a, ds)
  {
    assert Holds(Or(inA, inB), a) <==> Holds(inA, a) || Holds(inB, a);
    SatisfiesSplit(a, cs, ds);
    if Satisfies(a, cs * ds + {Or(inA, inB)}) {
      assert Or(inA, inB) in cs * ds + {Or(inA, inB)};
    }
  }

  lemma BlendValue(inA: Expr, x: Expr, y: Expr, a: Assignment)
    ensures Eval(Blend(inA, x, y), a) == if Holds(inA, a) then Eval(x, a) else Eval(y, a)
  {
  }

  /** Where the merged-into side holds, a merged value is its own; where the other side holds, it is the other's exactly
      when the two sides do not hold together or agree on the value. */
  lemma MergedValue(cs: set<Expr>, ds: set<Expr>, inA: Expr, x: Expr, y: Expr, a: Assignment)
    requires Holds(inA, a) <==> Satisfies(a, cs - cs * ds)
    ensures Satisfies(a, cs) ==> Eval(Blend(inA, x, y), a) == Eval(x, a)
    ensures Satisfies(a, ds) ==> (Eval(Blend(inA, x, y), a) == Eval(y, a) <==>
      !Satisfies(a, cs) || Eval(x, a) == Eval(y, a))
  {
    BlendValue(inA, x, y, a);
    SatisfiesSplit(a, cs, ds);
  }

  function Local(stack: seq<Frame>, i: nat, k: nat): Option<Expr> {
    if i < |stack| && k < |stack[i].locals| then stack[i].locals[k] else None
  }

  function ByteAt(objects: map<Object, Contents>, o: Object, k: nat): Option<Expr> {
    if o in objects && k < |objects[o].bytes| then Some(objects[o].bytes[k]) else None
  }

  function Valued(e: Option<Expr>, a: Assignment): Option<nat> { if e.Some? then Some(Eval(e.value, a)) else None }

  /** p and q have the same values in the locals that both x and y have set. */
  ghost predicate SameLocals(p: seq<Frame>, q: seq<Frame>, x: seq<Frame>, y: seq<Frame>, a: Assignment) {
    forall i, k {:trigger Local(p, i, k)} :: Local(x, i, k).Some? && Local(y, i, k).Some? ==>
      Valued(Local(p, i, k), a) == Valued(Local(q, i, k), a)
  }

  /** The dirty mask is only a hint, and the value of some objects is not to be looked at. */
  predicate Matters(o: Object) { !o.valueIgnored && o != DIRTY_MASK }

  ghost predicate SameBytes(p: map<Object, Contents>, q: map<Object, Contents>, a: Assignment) {
    forall o, k {:trigger ByteAt(p, o, k)} :: Matters(o) ==> Valued(ByteAt(p, o, k), a) == Valued(ByteAt(q, o, k), a)
  }

  /** p and q mean the same: in their frames, in the locals that both sides of a merge have set, and in all memory that
      matters. */
  ghost predicate Alike(p: Picture, q: Picture, x: Picture, y: Picture, a: Assignment) {
    SameFrames(p.stack, q.stack) && SameLocals(p.stack, q.stack, x.stack, y.stack, a)
      && SameBytes(p.objects, q.objects, a)
  }

  /** The system parts of the CPU state have the same bytes. */
  ghost predicate SameSystem(m: map<Object, Contents>, n: map<Object, Contents>, a: Assignment) {
    forall k {:trigger ByteAt(m, CPU_SYSTEM, k)} ::
      Valued(ByteAt(m, CPU_SYSTEM, k), a) == Valued(ByteAt(n, CPU_SYSTEM, k), a)
  }

  /** What merging x and y into m does: the merged constraints admit what either side admits; where x holds, m means x.
      Where y holds, m means y exactly if both sides have the same frames and the same system part; or, if x holds too,
      if it means the same as y. */
  ghost predicate Faithful(m: Picture, x: Picture, y: Picture, a: Assignment) {
    && (Satisfies(a, m.constraints) <==> Satisfies(a, x.constraints) || Satisfies(a, y.constraints))
    && (Satisfies(a, x.constraints) ==> Alike(m, x, x, y, a))
    && (Satisfies(a, y.constraints) ==> (Alike(m, y, x, y, a) <==>
      if Satisfies(a, x.constraints) then Alike(x, y, x, y, a)
      else SameFrames(x.stack, y.stack) && SameSystem(x.objects, y.objects, a)))
  }

  lemma MergedLocal(m: Picture, x: Picture, y: Picture, inA: Expr, inB: Expr, a: Assignment, i: nat, k: nat)
    requires MergedFrom(m, x, y, inA, inB) && Local(x.stack, i, k).Some? && Local(y.stack, i, k).Some?
    ensures Valued(Local(m.stack, i, k), a) == Valued(Local(if Holds(inA, a) then x.stack else y.stack, i, k), a)
  {
    assert m.stack[i] == BlendFrame(inA, x.stack[i], y.stack[i]);
    BlendValue(inA, x.stack[i].locals[k].value, y.stack[i].locals[k].value, a);
  }

  lemma MergedByte(m: Picture, x: Picture, y: Picture, inA: Expr, inB: Expr, a: Assignment, o: Object, k: nat)
    requires MergedFrom(m, x, y, inA, inB) && Matters(o)
    ensures Valued(ByteAt(m.objects, o, k), a)
         == Valued(ByteAt(if Holds(inA, a) || o == CPU_SYSTEM then x.objects else y.objects, o, k), a)
  {
    if o in x.objects {
      assert m.objects[o].bytes == MergedBytes(inA, x.objects, y.objects, o);
      if Mutated(x.objects, y.objects, o) && k < |x.objects[o].bytes| {
        BlendValue(inA, x.objects[o].bytes[k], y.objects[o].bytes[k], a);
      }
    }
  }

  lemma MergedFrames(m: Picture, x: Picture, y: Picture, inA: Expr, inB: Expr)
    requires MergedFrom(m, x, y, inA, inB)
    ensures SameFrames(m.stack, x.stack)
  {
    forall i | 0 <= i < |m.stack|
      ensures m.stack[i].caller == x.stack[i].caller && m.stack[i].function_ == x.stack[i].function_
    {
      assert m.stack[i] == BlendFrame(inA, x.stack[i], y.stack[i]);
    }
  }

  lemma MergedLocals(m: Picture, x: Picture, y: Picture, inA: Expr, inB: Expr, a: Assignment)
    requires MergedFrom(m, x, y, inA, inB)
    ensures SameLocals(m.stack, if Holds(inA, a) then x.stack else y.stack, x.stack, y.stack, a)
  {
    forall i: nat, k: nat | Local(x.stack, i, k).Some? && Local(y.stack, i, k).Some?
      ensures Valued(Local(m.stack, i, k), a) == Valued(Local(if Holds(inA, a) then x.stack else y.stack, i, k), a)
    {
      MergedLocal(m, x, y, inA, inB, a, i, k);
    }
  }

  lemma MergedMemory(m: Picture, x: Picture, y: Picture, inA: Expr, inB: Expr, a: Assignment)
    requires MergedFrom(m, x, y, inA, inB)
    ensures Holds(inA, a) ==> SameBytes(m.objects, x.objects, a)
    ensures !Holds(inA, a) ==> (SameBytes(m.objects, y.objects, a) <==> SameSystem(x.objects, y.objects, a))
  {
    forall o, k: nat | Matters(o)
      ensures Valued(ByteAt(m.objects, o, k), a)
         == Valued(ByteAt(if Holds(inA, a) || o == CPU_SYSTEM then x.objects else y.objects, o, k), a)
    {
      MergedByte(m, x, y, inA, inB, a, o, k);
    }
    if SameBytes(m.objects, y.objects, a) {
      forall k: nat ensures Valued(ByteAt(m.objects, CPU_SYSTEM, k), a) == Valued(ByteAt(y.objects, CPU_SYSTEM, k), a) {
      }
    }
  }

  /** A merged state means its first side where that side's leftover constraints hold. Elsewhere it means the second,
      exactly if both sides have the same frames and the same system part: these it keeps from the first. */
  lemma MeansOneSide(m: Picture, x: Picture, y: Picture, inA: Expr, inB: Expr, a: Assignment)
    requires MergedFrom(m, x, y, inA, inB)
    ensures Holds(inA, a) ==> Alike(m, x, x, y, a)
    ensures !Holds(inA, a) ==>
      (Alike(m, y, x, y, a) <==> SameFrames(x.stack, y.stack) && SameSystem(x.objects, y.objects, a))
  {
    MergedFrames(m, x, y, inA, inB);
    MergedLocals(m, x, y, inA, inB, a);
    MergedMemory(m, x, y, inA, inB, a);
  }

  lemma AlikeThrough(p: Picture, q: Picture, r: Picture, x: Picture, y: Picture, a: Assignment)
    requires Alike(p, q, x, y, a)
    ensures Alike(p, r, x, y, a) <==> Alike(q, r, x, y, a)
  {
    forall i: nat, k: nat ensures Local(x.stack, i, k).Some? && Local(y.stack, i, k).Some? ==>
      Valued(Local(p.stack, i, k), a) == Valued(Local(q.stack, i, k), a)
    {
    }
    forall o, k: nat ensures Matters(o) ==> Valued(ByteAt(p.objects, o, k), a) == Valued(ByteAt(q.objects, o, k), a) {
    }
  }

  /** What merging two states does to every assignment. */
  lemma MergeFaithful(m: Picture, x: Picture, y: Picture, inA: Expr, inB: Expr, a: Assignment)
    requires MergedFrom(m, x, y, inA, inB)
    ensures Faithful(m, x, y, a)
  {
    MergedConstraints(x.constraints, y.constraints, inA, inB, a);
    SatisfiesSplit(a, x.constraints, y.constraints);
    MeansOneSide(m, x, y, inA, inB, a);
    if Holds(inA, a) { AlikeThrough(m, x, y, x, y, a); }
  }

  /** What is not merged: a local that one side has not set, an object whose value is ignored, and the system part stay
      as they are on the first side; and a byte of the dirty mask stays set only where both sides have it. */
  lemma MergeKeepsRest(m: Picture, x: Picture, y: Picture, inA: Expr, inB: Expr, i: nat, k: nat, o: Object)
    requires MergedFrom(m, x, y, inA, inB)
    ensures Local(x.stack, i, k).None? || Local(y.stack, i, k).None? ==> Local(m.stack, i, k) == Local(x.stack, i, k)
    ensures (o.valueIgnored || o == CPU_SYSTEM) && o != DIRTY_MASK ==>
      ByteAt(m.objects, o, k) == ByteAt(x.objects, o, k)
    ensures ByteAt(m.objects, DIRTY_MASK, k) ==
      if ByteAt(x.objects, DIRTY_MASK, k) == ByteAt(y.objects, DIRTY_MASK, k) then ByteAt(x.objects, DIRTY_MASK, k)
      else Some(Const(0))
  {
    if i < |m.stack| { assert m.stack[i] == BlendFrame(inA, x.stack[i], y.stack[i]); }
    if o in m.objects { assert m.objects[o].bytes == MergedBytes(inA, x.objects, y.objects, o); }
    if DIRTY_MASK in m.objects {
      assert m.objects[DIRTY_MASK].bytes == MergedBytes(inA, x.objects, y.objects, DIRTY_MASK);
    }
  }

  ghost predicate AlwaysFaithful(m: Picture, x: Picture, y: Picture) {
    forall a {:trigger Faithful(m, x, y, a)} :: Faithful(m, x, y, a)
  }

  lemma AllFaithful(m: Picture, x: Picture, y: Picture, inA: Expr, inB: Expr)
    requires MergedFrom(m, x, y, inA, inB)
    ensures AlwaysFaithful(m, x, y)
  {
    forall a ensures Faithful(m, x, y, a) {
      MergeFaithful(m, x, y, inA, inB, a);
    }
  }

  /** Leftover constraints that contradict each other under the common ones are enough, for states at the same point of
      the same calls: each side keeps its meaning wherever it holds. */
  lemma MergeKeepsBothSides(m: Picture, x: Picture, y: Picture, inA: Expr, inB: Expr, a: Assignment)
    requires MergedFrom(m, x, y, inA, inB) && SameFrames(x.stack, y.stack) && SameSystem(x.objects, y.objects, a)
    requires !(Satisfies(a, x.constraints * y.constraints) && Holds(inA, a) && Holds(inB, a))
    ensures Satisfies(a, x.constraints) ==> Alike(m, x, x, y, a)
    ensures Satisfies(a, y.constraints) ==> Alike(m, y, x, y, a)
  {
    MergeFaithful(m, x, y, inA, inB, a);
    SatisfiesSplit(a, x.constraints, y.constraints);
  }

  /** A side of the examples: one frame with one local, a system part and an empty dirty mask. */
  function Side(constraints: set<Expr>, function_: nat, local: nat, system: nat): Picture {
    Picture(constraints, [Frame(0, function_, [Some(Const(local))])],
      map[CPU_SYSTEM := Contents(system, [Const(system)]), DIRTY_MASK := Contents(0, [])])
  }

  /** x, with y merged into it. */
  method MergeSides(x: Picture, y: Picture) returns (m: State)
    requires Coherent(x.objects, y.objects) && DIRTY_MASK in x.objects && x.objects.Keys == y.objects.Keys
    requires Aligned(x.stack, y.stack) && forall o :: o in x.objects ==> !Mutated(x.objects, y.objects, o)
    ensures AlwaysFaithful(m.View(), x, y)
  {
    m := new State(0, [], x);
    var b := new State(0, [], y);
    var ok, inA, inB := m.Merge(b);
  }

  const ZERO := Eq(Var(0), Const(0))
  const ONE := Eq(Var(0), Const(1))

  lemma OneOnly(a: Assignment)
    requires a(0) == 1
    ensures !Satisfies(a, {ZERO}) && Satisfies(a, {ONE})
  {
    assert ZERO in {ZERO} && !Holds(ZERO, a);
  }

  /** Sides that exclude each other, and differ in their system part: the second side is lost. */
  method SystemLost(a: Assignment) returns (m: State, x: Picture, y: Picture)
    requires a(0) == 1
    ensures Satisfies(a, m.View().constraints) && !Satisfies(a, x.constraints)
    ensures Satisfies(a, y.constraints) && SameFrames(x.stack, y.stack) && !Alike(m.View(), y, x, y, a)
  {
    x, y := Side({ZERO}, 0, 0, 1), Side({ONE}, 0, 0, 2);
    OneOnly(a);
    m := MergeSides(x, y);
    assert Faithful(m.View(), x, y, a);
    assert ByteAt(x.objects, CPU_SYSTEM, 0) == Some(Const(1)) && ByteAt(y.objects, CPU_SYSTEM, 0) == Some(Const(2));
    assert !SameSystem(x.objects, y.objects, a);
  }

  /** Sides that exclude each other, in different functions: the merge goes ahead, and the second side is lost. */
  method FramesLost(a: Assignment) returns (m: State, x: Picture, y: Picture)
    requires a(0) == 1
    ensures Satisfies(a, m.View().constraints) && !Satisfies(a, x.constraints)
    ensures Satisfies(a, y.constraints) && SameSystem(x.objects, y.objects, a) && !Alike(m.View(), y, x, y, a)
  {
    x, y := Side({ZERO}, 1, 0, 1), Side({ONE}, 2, 0, 1);
    OneOnly(a);
    m := MergeSides(x, y);
    assert Faithful(m.View(), x, y, a);
    assert x.stack[0].function_ != y.stack[0].function_;
  }

  /** Sides that hold together, and differ in a local: the second side is lost. */
  method BothHold(a: Assignment) returns (m: State, x: Picture, y: Picture)
    requires a(0) == 1
    ensures Satisfies(a, x.constraints) && Satisfies(a, y.constraints) && SameFrames(x.stack, y.stack)
    ensures SameSystem(x.objects, y.objects, a) && !Alike(m.View(), y, x, y, a)
  {
    x, y := Side({}, 0, 0, 1), Side({ONE}, 0, 1, 1);
    OneOnly(a);
    m := MergeSides(x, y);
    assert Faithful(m.View(), x, y, a);
    assert Local(x.stack, 0, 0) == Some(Const(0)) && Local(y.stack, 0, 0) == Some(Const(1));
    assert !Alike(x, y, x, y, a);
  }
}
