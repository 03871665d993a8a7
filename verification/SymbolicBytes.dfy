/** Values of several bytes over symbolic ones, lowest byte first. */
module SymbolicBytes {
  import opened Expressions
  import opened LittleEndian
  import Words

  /** What the bytes are worth under an assignment. */
  function Valued(s: seq<Expr>, a: Assignment): (r: seq<nat>)
    ensures |r| == |s| && forall i :: 0 <= i < |s| ==> r[i] == Eval(s[i], a)
  {
    seq(|s|, i requires 0 <= i < |s| => Eval(s[i], a))
  }

  /** One expression for all the bytes. */
  function Joined(s: seq<Expr>): Expr
    requires s != []
  {
    if |s| == 1 then s[0] else Concat(s[|s| - 1], Joined(s[..|s| - 1]), |s| - 1)
  }

  lemma {:induction false} JoinedMeaning(s: seq<Expr>, a: Assignment)
    requires s != []
    ensures Eval(Joined(s), a) == Value(Valued(s, a))
  {
    if |s| == 1 {
      assert Valued(s, a)[1..] == [];
    } else {
      var k := |s| - 1;
      JoinedMeaning(s[..k], a);
      AppendByte(Valued(s[..k], a), Eval(s[k], a));
      assert Valued(s, a) == Valued(s[..k], a) + [Eval(s[k], a)];
    }
  }

  lemma AppendByte(s: seq<nat>, b: nat)
    ensures Value(s + [b]) == Value(s) + Words.Pow256(|s|) * b
  {
    ValueJoin(s, [b]);
    ValueOfOne(b);
  }

  lemma ValueOfOne(b: nat)
    ensures Value([b]) == b
  {
    assert [b][1..] == [];
  }

  /** Byte i of an expression; a constant's is a constant. */
  function Extract(e: Expr, i: nat): (r: Expr)
    ensures forall a :: Eval(r, a) == Words.ByteOf(Eval(e, a), i)
    ensures r.Const? <==> e.Const?
  {
    if e.Const? then Const(Words.ByteOf(e.value, i)) else Byte(e, i)
  }

  function Parts(e: Expr, n: nat): (s: seq<Expr>)
    ensures |s| == n && forall i :: 0 <= i < n ==> s[i] == Extract(e, i)
  {
    seq(n, i requires 0 <= i < n => Extract(e, i))
  }

  /** The bytes of a constant. */
  function Values(e: Expr, n: nat): (s: seq<nat>)
    requires e.Const?
    ensures |s| == n && forall i :: 0 <= i < n ==> Const(s[i]) == Extract(e, i)
  {
    seq(n, i requires 0 <= i < n => Words.ByteOf(e.value, i))
  }

  /** Taking a value apart and putting the bytes together again gives the value, wherever it fits. */
  lemma JoinedParts(e: Expr, n: nat, a: Assignment)
    requires n > 0 && Eval(e, a) < Words.Pow256(n)
    ensures Eval(Joined(Parts(e, n)), a) == Eval(e, a)
  {
    JoinedMeaning(Parts(e, n), a);
    assert Valued(Parts(e, n), a) == Split(Eval(e, a), n);
    ValueOfSplit(Eval(e, a), n);
  }
}
