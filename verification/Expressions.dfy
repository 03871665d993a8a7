/** A small language of symbolic values. */
module Expressions {
  import Words

  /** A value for every symbolic variable. */
  type Assignment = nat -> nat

  /** Conditions are values too: 0 is false. Byte(e, i) is byte i of e, the lowest first; Concat puts high above the
      lowest n bytes. */
  datatype Expr =
    | Const(value: nat)
    | Var(id: nat)
    | Eq(left: Expr, right: Expr)
    | Not(arg: Expr)
    | And(left: Expr, right: Expr)
    | Or(left: Expr, right: Expr)
    | Select(cond: Expr, yes: Expr, no: Expr)
    | Byte(whole: Expr, index: nat)
    | Concat(high: Expr, low: Expr, bytes: nat)

  function Truth(b: bool): nat { if b then 1 else 0 }

  function Eval(e: Expr, a: Assignment): nat {
    match e
    case Const(v) => v
    case Var(id) => a(id)
    case Eq(l, r) => Truth(Eval(l, a) == Eval(r, a))
    case Not(x) => Truth(Eval(x, a) == 0)
    case And(l, r) => Truth(Eval(l, a) != 0 && Eval(r, a) != 0)
    case Or(l, r) => Truth(Eval(l, a) != 0 || Eval(r, a) != 0)
    case Select(c, y, n) => if Eval(c, a) != 0 then Eval(y, a) else Eval(n, a)
    case Byte(w, i) => Words.ByteOf(Eval(w, a), i)
    case Concat(h, l, n) => Eval(l, a) + Words.Pow256(n) * Eval(h, a)
  }

  predicate Holds(e: Expr, a: Assignment) { Eval(e, a) != 0 }

  /** a satisfies every constraint. */
  ghost predicate Meets(a: Assignment, cs: seq<Expr>) { forall i :: 0 <= i < |cs| ==> Holds(cs[i], a) }

  ghost predicate Satisfiable(cs: seq<Expr>) { exists a :: Meets(a, cs) }

  ghost predicate Entails(cs: seq<Expr>, e: Expr) { forall a :: Meets(a, cs) ==> Holds(e, a) }

  lemma MeetsOneMore(a: Assignment, cs: seq<Expr>, c: Expr)
    ensures Meets(a, cs + [c]) <==> Meets(a, cs) && Holds(c, a)
  {
    if Meets(a, cs + [c]) {
      assert forall i :: 0 <= i < |cs| ==> (cs + [c])[i] == cs[i];
      assert (cs + [c])[|cs|] == c;
    }
  }

  /** What a solver promises: a value the expression can take under the constraints. */
  type Solver = (seq<Expr>, Expr) -> nat

  ghost predicate Possible(cs: seq<Expr>, e: Expr, v: nat) { exists a :: Meets(a, cs) && Eval(e, a) == v }

  ghost predicate Sound(solver: Solver) {
    forall cs, e :: Satisfiable(cs) ==> Possible(cs, e, solver(cs, e))
  }
}
