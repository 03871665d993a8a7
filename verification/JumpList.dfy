/** Direct jumps between translation blocks: circular lists of incoming jumps on tagged pointers. */
module JumpList {
  import opened CircularLists
  import opened Options

  /** A pointer with its low two bits: the next incoming jump, jump n of block tb; or tag 2, back at the target. */
  datatype Tagged = Null | Jump(tb: Block, n: nat) | Target(target: Block)

  datatype Entry = Entry(tb: Block, n: nat)

  class Block {
    var jmpNext: seq<Tagged>   // two slots: the successor of jump n in the list of its target
    var jmpFirst: Tagged       // the first incoming jump

    constructor ()
      ensures Incoming(this, []) && jmpNext == [Null, Null]
    {
      jmpNext := [Null, Null];
      jmpFirst := Target(this);
    }
  }

  function Successor(t: Block, s: seq<Entry>, i: nat): Tagged
    requires i <= |s|
  {
    if i < |s| then Jump(s[i].tb, s[i].n) else Target(t)
  }

  ghost predicate Linked(t: Block, s: seq<Entry>, i: nat)
    requires i < |s|
    reads s[i].tb
  {
    |s[i].tb.jmpNext| == 2 && s[i].n < 2 && s[i].tb.jmpNext[s[i].n] == Successor(t, s, i + 1)
  }

  ghost function Sources(s: seq<Entry>): set<Block> { set i | 0 <= i < |s| :: s[i].tb }

  /** s is the list of jumps into t, in order. */
  ghost predicate Incoming(t: Block, s: seq<Entry>)
    reads t, Sources(s)
  {
    t.jmpFirst == Successor(t, s, 0) && forall i {:trigger Linked(t, s, i)} :: 0 <= i < |s| ==> Linked(t, s, i)
  }

  ghost predicate ListOf(t: Block, lists: map<Block, seq<Entry>>)
    reads t, if t in lists then Sources(lists[t]) else {}
  {
    t in lists && Incoming(t, lists[t])
  }

  /** The blocks, and for each the list of jumps into it. Every jump that is set is in one list, once. */
  ghost predicate Consistent(tbs: set<Block>, lists: map<Block, seq<Entry>>)
    reads tbs
  {
    && lists.Keys == tbs
    && (forall t, i {:trigger lists[t][i].tb} :: t in lists && 0 <= i < |lists[t]| ==> lists[t][i].tb in tbs)
    && (forall t {:trigger ListOf(t, lists)} :: t in tbs ==> ListOf(t, lists))
    && Distinct(lists)
    && (forall b :: b in tbs ==> |b.jmpNext| == 2)
    && (forall b, n {:trigger InSome(lists, Entry(b, n))} :: b in tbs && 0 <= n < 2 && b.jmpNext[n] != Null ==>
      InSome(lists, Entry(b, n)))
  }

  ghost predicate At(lists: map<Block, seq<Entry>>, t: Block, i: nat) { t in lists && i < |lists[t]| }

  ghost predicate OnePlace(lists: map<Block, seq<Entry>>, t: Block, i: nat, u: Block, j: nat)
    requires At(lists, t, i) && At(lists, u, j)
  {
    lists[t][i] == lists[u][j] ==> t == u && i == j
  }

  /** No jump is listed twice. */
  ghost predicate Distinct(lists: map<Block, seq<Entry>>) {
    forall t, i: nat, u, j: nat {:trigger OnePlace(lists, t, i, u, j)} ::
      t in lists && u in lists && At(lists, t, i) && At(lists, u, j) ==> OnePlace(lists, t, i, u, j)
  }

  ghost predicate InSome(lists: map<Block, seq<Entry>>, e: Entry) {
    exists t, i :: t in lists && 0 <= i < |lists[t]| && lists[t][i] == e
  }

  /** Unlink jump n of tb, if it is set, from the list of the block it goes to. */
  method ResetJump(tb: Block, n: nat, ghost tbs: set<Block>, ghost lists: map<Block, seq<Entry>>)
      returns (ghost t: Block, ghost k: nat)
    requires Consistent(tbs, lists) && tb in tbs && n < 2
    modifies tbs
    ensures |tb.jmpNext| == 2 && tb.jmpNext[n] == Null
    ensures old(tb.jmpNext[n]) == Null ==> Consistent(tbs, lists)
    ensures old(tb.jmpNext[n]) != Null ==>
      && t in lists && k < |lists[t]| && lists[t][k] == Entry(tb, n)
      && Consistent(tbs, lists[t := Without(lists[t], k)])
  {
    t, k := tb, 0;
    var tb1 := tb.jmpNext[n];
    if tb1 == Null { return; }
    assert InSome(lists, Entry(tb, n));
    t, k :| t in lists && 0 <= k < |lists[t]| && lists[t][k] == Entry(tb, n);
    ghost var s := lists[t];
    assert ListOf(t, lists) && Linked(t, s, k);
    var tbNext := FindTarget(tb1, t, s, k + 1);
    forall i, j | 0 <= i < j < |s| ensures s[i] != s[j] {
      assert OnePlace(lists, t, i, t, j);
    }
    var ptb := FindLink(tb, n, tbNext, s, k);
    Unlink(tb, n, tbNext, ptb, tbs, lists, k);
  }

  /** Follow the list until the pointer with tag 2. */
  method FindTarget(start: Tagged, ghost t: Block, ghost s: seq<Entry>, ghost i: nat) returns (head: Block)
    requires Incoming(t, s) && i <= |s| && start == Successor(t, s, i)
    ensures head == t
  {
    var tb1 := start;
    ghost var j := i;
    while !tb1.Target?
      invariant j <= |s| && tb1 == Successor(t, s, j)
      decreases |s| - j
    {
      assert Linked(t, s, j);
      tb1 := tb1.tb.jmpNext[tb1.n];
      j := j + 1;
    }
    head := tb1.target;
  }

  /** Where the pointer to jump n of tb is stored: in the target itself, or in the jump before. */
  method FindLink(tb: Block, n: nat, t: Block, ghost s: seq<Entry>, ghost k: nat) returns (ptb: Option<Entry>)
    requires Incoming(t, s) && k < |s| && s[k] == Entry(tb, n) && forall i, j :: 0 <= i < j < |s| ==> s[i] != s[j]
    ensures ptb == if k == 0 then None else Some(s[k - 1])
  {
    ptb := None;
    var tb1 := t.jmpFirst;
    ghost var i := 0;
    while tb1 != Jump(tb, n)
      invariant i <= k && tb1 == Successor(t, s, i) && ptb == if i == 0 then None else Some(s[i - 1])
      decreases k - i
    {
      assert Linked(t, s, i) && s[i] != Entry(tb, n);
      ptb := Some(Entry(tb1.tb, tb1.n));
      tb1 := tb1.tb.jmpNext[tb1.n];
      i := i + 1;
    }
  }

  method Unlink(tb: Block, n: nat, t: Block, ptb: Option<Entry>, ghost tbs: set<Block>,
                ghost lists: map<Block, seq<Entry>>, ghost k: nat)
    requires Consistent(tbs, lists) && t in lists && k < |lists[t]| && lists[t][k] == Entry(tb, n) && n < 2
    requires ptb == if k == 0 then None else Some(lists[t][k - 1])
    modifies tbs
    ensures |tb.jmpNext| == 2 && tb.jmpNext[n] == Null && Consistent(tbs, lists[t := Without(lists[t], k)])
  {
    DistinctAfter(lists, t, k, tbs);
    Relink(tb, n, t, ptb, tbs, lists, k);
    forall b, m | b in tbs && 0 <= m < 2 && b.jmpNext[m] != Null
      ensures InSome(lists, Entry(b, m)) && Entry(b, m) != lists[t][k]
    {
      if ptb == Some(Entry(b, m)) { Listed(lists, t, k - 1); } else { assert old(b.jmpNext[m]) != Null; }
    }
    ConsistentWithout(tbs, lists, t, k);
  }

  lemma ConsistentWithout(tbs: set<Block>, lists: map<Block, seq<Entry>>, t: Block, k: nat)
    requires t in lists && k < |lists[t]| && lists.Keys == tbs && Distinct(lists[t := Without(lists[t], k)])
    requires var r := lists[t := Without(lists[t], k)];
      (forall v, i {:trigger r[v][i].tb} :: v in r && 0 <= i < |r[v]| ==> r[v][i].tb in tbs)
      && (forall u {:trigger ListOf(u, r)} :: u in tbs ==> ListOf(u, r))
    requires forall b :: b in tbs ==> |b.jmpNext| == 2
    requires forall b, m :: b in tbs && 0 <= m < 2 && b.jmpNext[m] != Null ==>
      InSome(lists, Entry(b, m)) && Entry(b, m) != lists[t][k]
    ensures Consistent(tbs, lists[t := Without(lists[t], k)])
  {
    forall b, m | b in tbs && 0 <= m < 2 && b.jmpNext[m] != Null
      ensures InSome(lists[t := Without(lists[t], k)], Entry(b, m))
    {
      InSomeAfter(lists, t, k, Entry(b, m));
    }
  }

  method Relink(tb: Block, n: nat, t: Block, ptb: Option<Entry>, ghost tbs: set<Block>,
                ghost lists: map<Block, seq<Entry>>, ghost k: nat)
    requires Consistent(tbs, lists) && t in lists && k < |lists[t]| && lists[t][k] == Entry(tb, n) && n < 2
    requires ptb == if k == 0 then None else Some(lists[t][k - 1])
    modifies tbs
    ensures forall b :: b in tbs ==> |b.jmpNext| == 2
    ensures tb in tbs && tb.jmpNext[n] == Null
    ensures forall b, m {:trigger b.jmpNext[m]} :: b in tbs && 0 <= m < 2 ==>
      b.jmpNext[m] ==
        if b == tb && m == n then Null
        else if ptb == Some(Entry(b, m)) then old(tb.jmpNext[n])
        else old(b.jmpNext[m])
    ensures forall u :: u in tbs ==> ListOf(u, lists[t := Without(lists[t], k)])
  {
    ghost var lists' := lists[t := Without(lists[t], k)];
    assert ListOf(t, lists) && Linked(t, lists[t], k) && (k > 0 ==> Linked(t, lists[t], k - 1));
    assert k > 0 ==> OnePlace(lists, t, k - 1, t, k);
    Rewire(tb, n, t, ptb, tbs);
    forall u | u in tbs ensures ListOf(u, lists') {
      assert old(ListOf(u, lists));
      forall i | 0 <= i < |lists'[u]| ensures Linked(u, lists'[u], i) {
        var j := if u == t && i >= k then i + 1 else i;
        assert old(Linked(u, lists[u], j)) && OnePlace(lists, u, j, t, k)
          && (k > 0 ==> OnePlace(lists, u, j, t, k - 1));
      }
    }
  }

  /** The two writes. */
  method Rewire(tb: Block, n: nat, t: Block, ptb: Option<Entry>, ghost tbs: set<Block>)
    requires tb in tbs && t in tbs && n < 2 && (forall b :: b in tbs ==> |b.jmpNext| == 2)
    requires ptb.Some? ==> ptb.value.tb in tbs && ptb.value.n < 2 && ptb.value != Entry(tb, n)
    modifies tbs
    ensures forall b :: b in tbs ==> |b.jmpNext| == 2
    ensures forall b, m {:trigger b.jmpNext[m]} :: b in tbs && 0 <= m < 2 ==>
      b.jmpNext[m] ==
        if b == tb && m == n then Null
        else if ptb == Some(Entry(b, m)) then old(tb.jmpNext[n])
        else old(b.jmpNext[m])
    ensures forall b :: b in tbs ==> b.jmpFirst == if b == t && ptb.None? then old(tb.jmpNext[n]) else old(b.jmpFirst)
  {
    if ptb.None? {
      t.jmpFirst := tb.jmpNext[n];
    } else {
      var e := ptb.value;
      e.tb.jmpNext := e.tb.jmpNext[e.n := tb.jmpNext[n]];
    }
    tb.jmpNext := tb.jmpNext[n := Null];
  }

  /** The entries after one is taken out are still distinct, and that one is gone. */
  lemma DistinctAfter(lists: map<Block, seq<Entry>>, t: Block, k: nat, tbs: set<Block>)
    requires forall v, i {:trigger lists[v][i].tb} :: v in lists && 0 <= i < |lists[v]| ==> lists[v][i].tb in tbs
    ensures var r := lists[t := Without(lists[t], k)];
      forall v, i {:trigger r[v][i].tb} :: v in r && 0 <= i < |r[v]| ==> r[v][i].tb in tbs
    requires t in lists && k < |lists[t]| && Distinct(lists)
    ensures var r := lists[t := Without(lists[t], k)];
      Distinct(r) && forall v, i: nat :: v in r && i < |r[v]| ==> r[v][i] != lists[t][k]
  {
    var r := lists[t := Without(lists[t], k)];
    forall v, i: nat, u, j: nat | v in r && u in r && At(r, v, i) && At(r, u, j) ensures OnePlace(r, v, i, u, j) {
      assert OnePlace(lists, v, if v == t && i >= k then i + 1 else i, u, if u == t && j >= k then j + 1 else j);
    }
    forall v, i: nat | v in r && i < |r[v]| ensures r[v][i] != lists[t][k] {
      assert OnePlace(lists, v, if v == t && i >= k then i + 1 else i, t, k);
    }
  }

  lemma Listed(lists: map<Block, seq<Entry>>, t: Block, i: nat)
    requires t in lists && i < |lists[t]|
    ensures InSome(lists, lists[t][i])
  {
  }

  lemma InSomeAfter(lists: map<Block, seq<Entry>>, t: Block, k: nat, e: Entry)
    requires t in lists && k < |lists[t]| && InSome(lists, e) && e != lists[t][k]
    ensures InSome(lists[t := Without(lists[t], k)], e)
  {
    var u, i :| u in lists && 0 <= i < |lists[u]| && lists[u][i] == e;
    assert lists[t := Without(lists[t], k)][u][if u == t && i >= k then i - 1 else i] == e;
  }
}
