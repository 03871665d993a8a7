/** Binding a symbolic value to a concrete one by forking on the value the solver finds. */
module ForkConcretize {
  import opened Expressions
  import opened Options

  /** A state that came out of the operation: its path condition and the concrete value its target is bound to. */
  datatype Outcome = Outcome(constraints: seq<Expr>, value: nat)

  function Condition(e: Expr, v: nat): Expr { Eq(Const(v), e) }

  lemma ConditionMeaning(e: Expr, v: nat, a: Assignment)
    ensures Holds(Condition(e, v), a) <==> Eval(e, a) == v
    ensures Holds(Not(Condition(e, v)), a) <==> Eval(e, a) != v
  {
    assert Eval(Condition(e, v), a) == Truth(v == Eval(e, a));
  }

  /** What the executor makes of an expression under the constraints. */
  type Simplifier = (seq<Expr>, Expr) -> Expr

  ghost predicate Faithful(simplify: Simplifier) {
    forall cs, e, a :: Meets(a, cs) ==> Eval(simplify(cs, e), a) == Eval(e, a)
  }

  /** Does a condition hold whatever the assignment? */
  type Prover = (seq<Expr>, Expr) -> bool

  ghost predicate Decides(prover: Prover) { forall cs, e :: prover(cs, e) <==> Entails(cs, e) }

  /** The part of a state that the operation touches. */
  class State {
    var constraints: seq<Expr>
    var target: Expr
    const forkDisabled: bool

    constructor (constraints: seq<Expr>, target: Expr, forkDisabled: bool)
      ensures this.constraints == constraints && this.target == target && this.forkDisabled == forkDisabled
    {
      this.constraints, this.target, this.forkDisabled := constraints, target, forkDisabled;
    }

    /** simplified is what the simplifiers make of the address; settled says whether the condition holds in the whole
        state, in which case the fork does nothing. The state that takes the other branch runs the operation again. */
    method ForkAndConcretize(ghost address: Expr, simplified: Expr, solver: Solver, settled: bool)
      returns (other: Option<State>)
      requires Sound(solver) && Satisfiable(constraints)
      requires forall a :: Meets(a, constraints) ==> Eval(simplified, a) == Eval(address, a)
      requires settled <==> Entails(constraints, Condition(simplified, solver(constraints, simplified)))
      modifies this
      ensures target.Const? && Satisfiable(constraints)
      ensures forall a :: Meets(a, constraints) <==> Meets(a, old(constraints)) && Eval(address, a) == target.value
      ensures forkDisabled ==> other == None
      ensures !forkDisabled && other.None? ==> forall a :: Meets(a, old(constraints)) ==> Meets(a, constraints)
      ensures other.Some? ==>
        && fresh(other.value) && Satisfiable(other.value.constraints) && !other.value.forkDisabled
        && forall a :: Meets(a, other.value.constraints) <==>
          Meets(a, old(constraints)) && Eval(address, a) != target.value
    {
      other := None;
      if simplified.Const? {
        target := simplified;
        return;
      }
      var v := solver(constraints, simplified);
      var condition := Condition(simplified, v);
      ghost var before := constraints;
      Branches(before, simplified, v);
      assert Possible(before, simplified, v);
      if !forkDisabled {
        if !settled {
          var s := new State(constraints + [Not(condition)], target, forkDisabled);
          other := Some(s);
          constraints := constraints + [condition];
        }
      } else {
        constraints := constraints + [condition];
      }
      target := Const(v);
    }

    /** The operation, and the operation again in the state that takes the other branch, until no state does. */
    method Explore(address: Expr, simplify: Simplifier, solver: Solver, prover: Prover, ghost bound: nat)
      returns (all: seq<State>)
      requires Sound(solver) && Faithful(simplify) && Decides(prover) && Satisfiable(constraints)
      requires forall a :: Meets(a, constraints) ==> Eval(address, a) < bound
      modifies this
      ensures all != [] && all[0] == this && forall i :: 0 < i < |all| ==> fresh(all[i])
      ensures forall i :: 0 <= i < |all| ==> all[i].target.Const?
      ensures Apart(Outcomes(all), old(constraints), address)
      ensures if forkDisabled then all == [this] else Partition(Outcomes(all), old(constraints), address)
      decreases |Values(constraints, address, bound)|
    {
      ghost var before := constraints;
      var other := BindOnce(address, simplify, solver, prover);
      ghost var first := Outcome(constraints, target.value);
      if other == None {
        all := [this];
        OneState(this, before, address);
        return;
      }
      ghost var others := other.value.constraints;
      FewerValues(before, others, address, first, bound);
      var rest := other.value.Explore(address, simplify, solver, prover, bound);
      all := [this] + rest;
      JoinStates(this, rest, before, others, address);
    }

    /** One execution of the operation. */
    method BindOnce(address: Expr, simplify: Simplifier, solver: Solver, prover: Prover) returns (other: Option<State>)
      requires Sound(solver) && Faithful(simplify) && Decides(prover) && Satisfiable(constraints)
      modifies this
      ensures target.Const? && Part(Outcome(constraints, target.value), old(constraints), address)
      ensures other.None? ==> forkDisabled || forall a :: Meets(a, old(constraints)) ==> Meets(a, constraints)
      ensures other.Some? ==>
        && !forkDisabled && fresh(other.value) && Satisfiable(other.value.constraints) && !other.value.forkDisabled
        && Remain(old(constraints), other.value.constraints, address, Outcome(constraints, target.value))
    {
      var simplified := simplify(constraints, address);
      var settled := prover(constraints, Condition(simplified, solver(constraints, simplified)));
      other := ForkAndConcretize(address, simplified, solver, settled);
    }
  }

  /** What the states hold, in order. */
  ghost function Outcomes(all: seq<State>): (r: seq<Outcome>)
    requires forall i :: 0 <= i < |all| ==> all[i].target.Const?
    reads all
    ensures |r| == |all| && forall i :: 0 <= i < |r| ==> r[i] == Outcome(all[i].constraints, all[i].target.value)
  {
    seq(|all|, i requires 0 <= i < |all| requires all[i].target.Const? reads all =>
          Outcome(all[i].constraints, all[i].target.value))
  }

  /** The values an expression below bound can take. */
  ghost function Values(cs: seq<Expr>, e: Expr, bound: nat): set<nat> { set v | 0 <= v < bound && Possible(cs, e, v) }

  lemma Branches(cs: seq<Expr>, e: Expr, v: nat)
    ensures forall a :: Meets(a, cs + [Condition(e, v)]) <==> Meets(a, cs) && Eval(e, a) == v
    ensures forall a :: Meets(a, cs + [Not(Condition(e, v))]) <==> Meets(a, cs) && Eval(e, a) != v
  {
    var condition := Condition(e, v);
    forall a ensures Meets(a, cs + [condition]) <==> Meets(a, cs) && Eval(e, a) == v {
      MeetsOneMore(a, cs, condition);
      ConditionMeaning(e, v, a);
    }
    forall a ensures Meets(a, cs + [Not(condition)]) <==> Meets(a, cs) && Eval(e, a) != v {
      MeetsOneMore(a, cs, Not(condition));
      ConditionMeaning(e, v, a);
    }
  }

  /** The part of a path condition in which the expression has the outcome's value; it is not empty. */
  ghost predicate Part(o: Outcome, cs: seq<Expr>, e: Expr) {
    && Satisfiable(o.constraints)
    && forall a :: Meets(a, o.constraints) <==> Meets(a, cs) && Eval(e, a) == o.value
  }

  /** Parts with pairwise different values. */
  ghost predicate Apart(r: seq<Outcome>, cs: seq<Expr>, e: Expr) {
    && (forall i {:trigger Part(r[i], cs, e)} :: 0 <= i < |r| ==> Part(r[i], cs, e))
    && (forall i, j :: 0 <= i < j < |r| ==> r[i].value != r[j].value)
  }

  ghost predicate Covered(r: seq<Outcome>, a: Assignment) { exists i :: 0 <= i < |r| && Meets(a, r[i].constraints) }

  /** Such parts of which every assignment that meets the path condition meets one. */
  ghost predicate Partition(r: seq<Outcome>, cs: seq<Expr>, e: Expr) {
    Apart(r, cs, e) && forall a :: Meets(a, cs) ==> Covered(r, a)
  }

  /** others is what is left of the path condition when the first outcome is taken out. */
  ghost predicate Remain(cs: seq<Expr>, others: seq<Expr>, e: Expr, first: Outcome) {
    forall a :: Meets(a, others) <==> Meets(a, cs) && Eval(e, a) != first.value
  }

  /** Taking the other branch of the fork rules out the value found, and no other. */
  lemma FewerValues(cs: seq<Expr>, others: seq<Expr>, e: Expr, first: Outcome, bound: nat)
    requires Part(first, cs, e) && Remain(cs, others, e, first) && forall a :: Meets(a, cs) ==> Eval(e, a) < bound
    ensures first.value in Values(cs, e, bound) && Values(others, e, bound) == Values(cs, e, bound) - {first.value}
    ensures |Values(others, e, bound)| < |Values(cs, e, bound)|
  {
    var b :| Meets(b, first.constraints);
    assert Possible(cs, e, first.value);
    forall v ensures Possible(others, e, v) <==> Possible(cs, e, v) && v != first.value {
      StillPossible(cs, others, e, first, v);
    }
    OneValueLess(cs, others, e, first.value, bound);
  }

  lemma OneValueLess(cs: seq<Expr>, others: seq<Expr>, e: Expr, v: nat, bound: nat)
    requires v < bound && Possible(cs, e, v)
    requires forall w :: Possible(others, e, w) <==> Possible(cs, e, w) && w != v
    ensures v in Values(cs, e, bound) && Values(others, e, bound) == Values(cs, e, bound) - {v}
    ensures |Values(others, e, bound)| < |Values(cs, e, bound)|
  {
  }

  lemma StillPossible(cs: seq<Expr>, others: seq<Expr>, e: Expr, first: Outcome, v: nat)
    requires Part(first, cs, e) && Remain(cs, others, e, first)
    ensures Possible(others, e, v) <==> Possible(cs, e, v) && v != first.value
  {
    if Possible(cs, e, v) && v != first.value {
      var a :| Meets(a, cs) && Eval(e, a) == v;
      assert Meets(a, others);
    }
  }

  lemma OneState(s: State, cs: seq<Expr>, e: Expr)
    requires s.target.Const? && Part(Outcome(s.constraints, s.target.value), cs, e)
    ensures Apart(Outcomes([s]), cs, e)
    ensures (forall a :: Meets(a, cs) ==> Meets(a, s.constraints)) ==> Partition(Outcomes([s]), cs, e)
  {
    var r := Outcomes([s]);
    forall a | Meets(a, s.constraints) ensures Covered(r, a) {
      assert Meets(a, r[0].constraints);
    }
  }

  lemma JoinStates(s: State, rest: seq<State>, cs: seq<Expr>, others: seq<Expr>, e: Expr)
    requires s.target.Const? && forall i :: 0 <= i < |rest| ==> rest[i].target.Const?
    requires var first := Outcome(s.constraints, s.target.value); Part(first, cs, e) && Remain(cs, others, e, first)
    requires Partition(Outcomes(rest), others, e)
    ensures forall i :: 0 <= i < |[s] + rest| ==> ([s] + rest)[i].target.Const?
    ensures Partition(Outcomes([s] + rest), cs, e)
  {
    var first := Outcome(s.constraints, s.target.value);
    assert Outcomes([s] + rest) == [first] + Outcomes(rest);
    JoinParts(first, Outcomes(rest), cs, others, e);
  }

  lemma JoinParts(first: Outcome, rest: seq<Outcome>, cs: seq<Expr>, others: seq<Expr>, e: Expr)
    requires Part(first, cs, e) && Remain(cs, others, e, first) && Partition(rest, others, e)
    ensures Partition([first] + rest, cs, e)
  {
    var r := [first] + rest;
    forall i | 0 < i < |r| ensures Part(r[i], cs, e) && r[i].value != first.value {
      assert r[i] == rest[i - 1] && Part(rest[i - 1], others, e);
      var a :| Meets(a, r[i].constraints);
    }
    forall a | Meets(a, cs) ensures Covered(r, a) {
      if Meets(a, first.constraints) {
        assert Meets(a, r[0].constraints);
      } else {
        assert Covered(rest, a);
        var i :| 0 <= i < |rest| && Meets(a, rest[i].constraints);
        assert Meets(a, r[i + 1].constraints);
      }
    }
  }

  /** Every assignment that meets the original path condition meets that of exactly one outcome. */
  lemma ExactlyOne(r: seq<Outcome>, cs: seq<Expr>, e: Expr, a: Assignment)
    requires Partition(r, cs, e) && Meets(a, cs)
    ensures exists i :: 0 <= i < |r| && Meets(a, r[i].constraints)
    ensures forall i, j :: 0 <= i < |r| && 0 <= j < |r| ==>
      Meets(a, r[i].constraints) && Meets(a, r[j].constraints) ==> i == j
  {
    assert Covered(r, a);
    forall i, j | 0 <= i < |r| && 0 <= j < |r| && Meets(a, r[i].constraints) && Meets(a, r[j].constraints)
      ensures i == j
    {
      assert Part(r[i], cs, e) && Part(r[j], cs, e);
    }
  }

  /** There is one outcome for each value the expression can take. */
  lemma OneOutcomeEach(r: seq<Outcome>, cs: seq<Expr>, e: Expr, bound: nat)
    requires Partition(r, cs, e) && forall a :: Meets(a, cs) ==> Eval(e, a) < bound
    ensures forall v :: v in Values(cs, e, bound) <==> exists i :: 0 <= i < |r| && r[i].value == v
    ensures |r| == |Values(cs, e, bound)|
  {
    forall v ensures v in Values(cs, e, bound) <==> v in ValuesOf(r) {
      if v in Values(cs, e, bound) {
        var a :| Meets(a, cs) && Eval(e, a) == v;
        assert Covered(r, a);
        var i :| 0 <= i < |r| && Meets(a, r[i].constraints);
        assert Part(r[i], cs, e) && r[i].value == v;
      }
      if v in ValuesOf(r) {
        var i :| 0 <= i < |r| && r[i].value == v;
        assert Part(r[i], cs, e);
        var a :| Meets(a, r[i].constraints);
        assert Possible(cs, e, v);
      }
    }
    assert Values(cs, e, bound) == ValuesOf(r);
    AsManyValues(r);
  }

  ghost function ValuesOf(r: seq<Outcome>): set<nat> { set i | 0 <= i < |r| :: r[i].value }

  lemma {:induction false} AsManyValues(r: seq<Outcome>)
    requires forall i, j :: 0 <= i < j < |r| ==> r[i].value != r[j].value
    ensures |ValuesOf(r)| == |r|
  {
    if r == [] {
    } else {
      var n := |r| - 1;
      AsManyValues(r[..n]);
      assert ValuesOf(r) == ValuesOf(r[..n]) + {r[n].value};
    }
  }
}
