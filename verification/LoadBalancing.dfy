/** Splitting the live states of one instance between itself and a forked child. */
module LoadBalancing {
  import opened Sequences

  /** The states of one instance in their set order; those added and those terminated since the last update; those that
      are zombies; those that have yielded, which are out of the set for the time being.
      toKill: the states a balancing round still has to terminate here. */
  datatype Instance = Instance(states: seq<nat>, added: set<nat>, removed: set<nat>, zombies: set<nat>,
    yielded: set<nat>, toKill: set<nat>)

  /** All instances, the next state id, and the states that exist: created and never terminated. */
  datatype World = World(instances: map<nat, Instance>, nextId: nat, alive: set<nat>)

  datatype Step =
    | Create(p: nat)                          // a state of p is cloned
    | Terminate(p: nat, id: nat)
    | Update(p: nat, order: seq<nat>)         // added states enter the set, removed ones leave it
    | Balance(p: nat, child: nat)             // the fork of a balancing round
    | Kill(p: nat, id: nat)                   // one termination of the round
    | Yield(p: nat, id: nat)                  // a state leaves the set until the next selection
    | Resume(p: nat, at: nat, id: nat)        // and comes back

  /** The states that are not among those gone, in order. */
  function Excluding(s: seq<nat>, gone: set<nat>): (r: seq<nat>)
    ensures |r| <= |s| && forall x :: x in r <==> x in s && x !in gone
  {
    if s == [] then []
    else if s[0] in gone then Excluding(s[1..], gone)
    else [s[0]] + Excluding(s[1..], gone)
  }

  function Range(s: seq<nat>, lower: nat, upper: nat): (r: set<nat>)
    requires lower <= upper <= |s|
    ensures forall x :: x in r <==> x in s[lower..upper]
  {
    set x | x in s[lower..upper]
  }

  /** What an instance really has: its set minus what is, or is about to be, terminated. */
  ghost function Owned(i: Instance): set<nat> {
    (set x | x in i.states) - i.removed - i.zombies - i.toKill + i.added + i.yielded
  }

  /** Nothing is pending: the states are the set. */
  ghost predicate Settled(i: Instance) {
    i.added == {} && i.removed == {} && i.zombies == {} && i.yielded == {} && i.toKill == {}
  }

  /** Of the live states, the child gives up the first half and the parent the rest. */
  function ParentKills(live: seq<nat>): set<nat> { Range(live, |live| / 2, |live|) }

  function ChildKills(live: seq<nat>): set<nat> { Range(live, 0, |live| / 2) }

  ghost predicate Next(w: World, v: World, step: Step) {
    var p := step.p;
    p in w.instances &&
    var i := w.instances[p];
    match step
    case Create(_) =>
      i.toKill == {}
      && (var j := i.(added := i.added + {w.nextId});
          v == World(w.instances[p := j], w.nextId + 1, w.alive + {w.nextId}))
    case Terminate(_, id) =>
      i.toKill == {} && id in Owned(i) && id !in i.yielded
      && (var j := if id in i.added then i.(added := i.added - {id})
                   else i.(removed := i.removed + {id}, zombies := i.zombies + {id});
          v == World(w.instances[p := j], w.nextId, w.alive - {id}))
    case Update(_, order) =>
      i.toKill == {} && NoRepeats(order)
      && (forall x :: x in order <==> (x in i.states || x in i.added) && x !in i.removed)
      && v == w.(instances := w.instances[p := Instance(order, {}, {}, {}, i.yielded, {})])
    case Balance(_, child) =>
      var live := Excluding(i.states, i.zombies);
      i.toKill == {} && |live| >= 2 && child !in w.instances
      && (var inP, inChild := i.(toKill := ParentKills(live)), i.(toKill := ChildKills(live));
          v == w.(instances := w.instances[p := inP][child := inChild]))
    case Kill(_, id) =>
      id in i.toKill
      && v == w.(instances := w.instances[p := i.(removed := i.removed + {id}, toKill := i.toKill - {id})])
    case Yield(_, id) =>
      i.toKill == {} && id in Owned(i) && id in i.states
      && v == w.(instances := w.instances[p := i.(states := Excluding(i.states, {id}), yielded := i.yielded + {id})])
    case Resume(_, at, id) =>
      i.toKill == {} && id in i.yielded && at <= |i.states|
      && (var j := i.(states := i.states[..at] + [id] + i.states[at..], yielded := i.yielded - {id});
          v == w.(instances := w.instances[p := j]))
  }

  ghost predicate GoodInstance(i: Instance, nextId: nat) {
    && NoRepeats(i.states) && (forall x :: x in i.states ==> x < nextId)
    && i.zombies <= i.removed
    && (forall x :: x in i.removed || x in i.toKill ==> x in i.states)
    && (forall x :: x in i.added ==> x < nextId && x !in i.states)
    && (forall x :: x in i.yielded ==> x < nextId && x !in i.states && x !in i.added)
  }

  ghost predicate Owns(w: World, p: nat, x: nat) { p in w.instances && x in Owned(w.instances[p]) }

  ghost predicate Good(w: World, p: nat) { p in w.instances ==> GoodInstance(w.instances[p], w.nextId) }

  /** Every existing state is owned by exactly one instance, and nothing else is owned. */
  ghost predicate Partitioned(w: World) {
    && (forall p {:trigger Good(w, p)} :: Good(w, p))
    && (forall p, q, x :: Owns(w, p, x) && Owns(w, q, x) ==> p == q)
    && (forall x :: x in w.alive <==> exists p :: Owns(w, p, x))
    && (forall x :: x in w.alive ==> x < w.nextId)
  }

  /** One instance with one state. */
  function Initial(p: nat): World { World(map[p := Instance([0], {}, {}, {}, {}, {})], 1, {0}) }

  lemma InitialPartitioned(p: nat)
    ensures Partitioned(Initial(p))
  {
    assert Owns(Initial(p), p, 0);
  }

  lemma {:induction false} ExcludingNoRepeats(s: seq<nat>, gone: set<nat>)
    requires NoRepeats(s)
    ensures NoRepeats(Excluding(s, gone))
  {
    if s == [] {
    } else {
      ExcludingNoRepeats(s[1..], gone);
    }
  }

  lemma {:induction false} AsManyMembers(s: seq<nat>, members: set<nat>)
    requires NoRepeats(s) && forall x :: x in members <==> x in s
    ensures |members| == |s|
  {
    if s == [] {
      assert members == {};
    } else {
      assert s == [s[0]] + s[1..];
      AsManyMembers(s[1..], members - {s[0]});
    }
  }

  lemma RangeSize(s: seq<nat>, lower: nat, upper: nat)
    requires NoRepeats(s) && lower <= upper <= |s|
    ensures |Range(s, lower, upper)| == upper - lower
  {
    AsManyMembers(s[lower..upper], Range(s, lower, upper));
  }

  /** Half of the states are for the child to give up, and the rest for the parent. */
  lemma HalfEach(live: seq<nat>)
    requires NoRepeats(live)
    ensures |ChildKills(live)| == |live| / 2 && |ParentKills(live)| == |live| - |live| / 2
  {
    RangeSize(live, 0, |live| / 2);
    RangeSize(live, |live| / 2, |live|);
  }

  /** Two disjoint halves, both non-empty. */
  lemma Halves(live: seq<nat>)
    requires NoRepeats(live)
    ensures ParentKills(live) !! ChildKills(live)
    ensures forall x :: x in ParentKills(live) || x in ChildKills(live) <==> x in live
    ensures |live| >= 2 ==> live[0] !in ParentKills(live) && live[|live| - 1] !in ChildKills(live)
  {
    var n := |live| / 2;
    assert live == live[..n] + live[n..];
    assert live[0..n] == live[..n] && live[n..|live|] == live[n..];
  }

  lemma InsertNew(s: seq<nat>, at: nat, id: nat)
    requires NoRepeats(s) && at <= |s| && id !in s
    ensures NoRepeats(s[..at] + [id] + s[at..]) && forall x :: x in s[..at] + [id] + s[at..] <==> x in s || x == id
  {
    var t := s[..at] + [id] + s[at..];
    forall x | x in s ensures x in t {
      var k :| 0 <= k < |s| && s[k] == x;
      assert t[if k < at then k else k + 1] == x;
    }
    assert t[at] == id;
  }

  lemma CreateStep(w: World, v: World, p: nat)
    requires Partitioned(w) && Next(w, v, Create(p))
    ensures Partitioned(v) && forall q, x :: Owns(v, q, x) <==> Owns(w, q, x) || (q == p && x == w.nextId)
  {
    assert Good(w, p);
    forall q ensures Good(v, q) {
      assert Good(w, q);
    }
    assert forall q, x :: Owns(v, q, x) <==> Owns(w, q, x) || (q == p && x == w.nextId);
    assert forall q :: !Owns(w, q, w.nextId);
    Transfer(w, v, p, w.nextId);
  }

  /** One state more for p. */
  lemma Transfer(w: World, v: World, p: nat, id: nat)
    requires Partitioned(w) && v.alive == w.alive + {id}
    requires forall q, x :: Owns(v, q, x) <==> Owns(w, q, x) || (q == p && x == id)
    requires forall q :: !Owns(w, q, id)
    ensures forall q, r, x :: Owns(v, q, x) && Owns(v, r, x) ==> q == r
    ensures forall x :: x in v.alive <==> exists q :: Owns(v, q, x)
  {
    assert Owns(v, p, id);
  }

  lemma TerminateStep(w: World, v: World, p: nat, id: nat)
    requires Partitioned(w) && Next(w, v, Terminate(p, id))
    ensures Partitioned(v) && forall q, x :: Owns(v, q, x) <==> Owns(w, q, x) && !(q == p && x == id)
  {
    forall q ensures Good(v, q) {
      assert Good(w, q);
    }
    assert Owns(w, p, id) && Good(w, p);
    assert forall q, x :: Owns(v, q, x) <==> Owns(w, q, x) && !(q == p && x == id);
    forall x ensures x in v.alive <==> exists q :: Owns(v, q, x) {
      if x in v.alive {
        var q :| Owns(w, q, x);
        assert Owns(v, q, x);
      }
    }
  }

  lemma Unmoved(w: World, v: World)
    requires Partitioned(w) && v.alive == w.alive && forall q, x :: Owns(v, q, x) <==> Owns(w, q, x)
    ensures forall q, r, x :: Owns(v, q, x) && Owns(v, r, x) ==> q == r
    ensures forall x :: x in v.alive <==> exists q :: Owns(v, q, x)
  {
    forall x ensures x in v.alive <==> exists q :: Owns(v, q, x) {
      if x in v.alive {
        var q :| Owns(w, q, x);
        assert Owns(v, q, x);
      }
    }
  }

  lemma UpdateStep(w: World, v: World, p: nat, order: seq<nat>)
    requires Partitioned(w) && Next(w, v, Update(p, order))
    ensures Partitioned(v) && (w.instances[p].yielded == {} ==> Settled(v.instances[p]))
    ensures forall q, x :: Owns(v, q, x) <==> Owns(w, q, x)
  {
    assert Good(w, p);
    forall q ensures Good(v, q) {
      assert Good(w, q);
    }
    Unmoved(w, v);
  }

  lemma KillStep(w: World, v: World, p: nat, id: nat)
    requires Partitioned(w) && Next(w, v, Kill(p, id))
    ensures Partitioned(v) && forall q, x :: Owns(v, q, x) <==> Owns(w, q, x)
  {
    forall q ensures Good(v, q) {
      assert Good(w, q);
    }
    Unmoved(w, v);
  }

  lemma YieldStep(w: World, v: World, p: nat, id: nat)
    requires Partitioned(w) && Next(w, v, Yield(p, id))
    ensures Partitioned(v) && forall q, x :: Owns(v, q, x) <==> Owns(w, q, x)
  {
    assert Good(w, p);
    ExcludingNoRepeats(w.instances[p].states, {id});
    forall q ensures Good(v, q) {
      assert Good(w, q);
    }
    Unmoved(w, v);
  }

  lemma ResumeStep(w: World, v: World, p: nat, at: nat, id: nat)
    requires Partitioned(w) && Next(w, v, Resume(p, at, id))
    ensures Partitioned(v) && forall q, x :: Owns(v, q, x) <==> Owns(w, q, x)
  {
    assert Good(w, p);
    InsertNew(w.instances[p].states, at, id);
    forall q ensures Good(v, q) {
      assert Good(w, q);
    }
    Unmoved(w, v);
  }

  /** All that an instance has is in its set. */
  ghost predicate NoneOutside(i: Instance) { i.added == {} && i.yielded == {} }

  /** A state that has yielded, or that has not reached the set yet, when the fork happens ends up on both sides: a
      round keeps the partition exactly when there is none. */
  lemma BalanceWhileOutside(w: World, v: World, p: nat, child: nat)
    requires Partitioned(w) && Next(w, v, Balance(p, child))
    ensures Partitioned(v) <==> NoneOutside(w.instances[p])
  {
    if NoneOutside(w.instances[p]) {
      BalanceStep(w, v, p, child);
    } else {
      var x :| x in w.instances[p].yielded + w.instances[p].added;
      assert Owns(v, p, x) && Owns(v, child, x);
    }
  }

  /** The fork splits what p owned: p keeps the first half, the child the rest, as far as they were not removed. Neither
      side is empty if the states removed since the last update are zombies. */
  lemma BalanceStep(w: World, v: World, p: nat, child: nat)
    requires Partitioned(w) && Next(w, v, Balance(p, child)) && NoneOutside(w.instances[p])
    ensures Partitioned(v) && v.alive == w.alive
    ensures forall q, x ::
      Owns(w, q, x) <==> if q == p then Owns(v, p, x) || Owns(v, child, x) else q != child && Owns(v, q, x)
    ensures var i := w.instances[p]; var live := Excluding(i.states, i.zombies);
      && Owned(v.instances[p]) == ChildKills(live) - i.removed
      && Owned(v.instances[child]) == ParentKills(live) - i.removed
      && (i.removed <= i.zombies ==> Owned(v.instances[p]) != {} && Owned(v.instances[child]) != {})
  {
    var i := w.instances[p];
    var live := Excluding(i.states, i.zombies);
    assert Good(w, p);
    ExcludingNoRepeats(i.states, i.zombies);
    Halves(live);
    assert forall x :: x in Owned(i) <==> x in live && x !in i.removed;
    assert Owned(v.instances[p]) == ChildKills(live) - i.removed;
    assert Owned(v.instances[child]) == ParentKills(live) - i.removed;
    forall q ensures Good(v, q) {
      assert Good(w, q);
    }
    assert live[0] in ChildKills(live) && live[|live| - 1] in ParentKills(live);
    Divided(w, v, p, child);
  }

  lemma Divided(w: World, v: World, p: nat, child: nat)
    requires Partitioned(w) && v.alive == w.alive && p != child
    requires forall q, x :: q != p && q != child ==> (Owns(v, q, x) <==> Owns(w, q, x))
    requires forall x :: Owns(w, p, x) <==> Owns(v, p, x) || Owns(v, child, x)
    requires forall x :: !(Owns(v, p, x) && Owns(v, child, x)) && !Owns(w, child, x)
    ensures forall q, r, x :: Owns(v, q, x) && Owns(v, r, x) ==> q == r
    ensures forall x :: x in v.alive <==> exists q :: Owns(v, q, x)
  {
    forall q, r, x | Owns(v, q, x) && Owns(v, r, x) ensures q == r {
      assert Owns(w, if q == child then p else q, x) && Owns(w, if r == child then p else r, x);
    }
    forall x ensures x in v.alive <==> exists q :: Owns(v, q, x) {
      if x in v.alive {
        var q :| Owns(w, q, x);
        assert Owns(v, q, x) || Owns(v, child, x);
      }
    }
  }

  lemma StepPartitioned(w: World, v: World, step: Step)
    requires Partitioned(w) && Next(w, v, step) && (step.Balance? ==> NoneOutside(w.instances[step.p]))
    ensures Partitioned(v)
  {
    match step
    case Create(p) => CreateStep(w, v, p);
    case Terminate(p, id) => TerminateStep(w, v, p, id);
    case Update(p, order) => UpdateStep(w, v, p, order);
    case Balance(p, child) => BalanceStep(w, v, p, child);
    case Kill(p, id) => KillStep(w, v, p, id);
    case Yield(p, id) => YieldStep(w, v, p, id);
    case Resume(p, at, id) => ResumeStep(w, v, p, at, id);
  }

  /** Step i of a run. */
  ghost predicate StepOf(worlds: seq<World>, steps: seq<Step>, i: nat)
    requires i < |steps| && |worlds| == |steps| + 1
  {
    Next(worlds[i], worlds[i + 1], steps[i])
  }

  ghost predicate Run(worlds: seq<World>, steps: seq<Step>) {
    && |worlds| == |steps| + 1
    && forall i: nat {:trigger StepOf(worlds, steps, i)} :: i < |steps| ==> StepOf(worlds, steps, i)
  }

  /** A round starts with no state outside of the set. */
  ghost predicate Collected(w: World, step: Step) {
    step.Balance? && step.p in w.instances ==> NoneOutside(w.instances[step.p])
  }

  /** In any interleaving in which no state is outside of the set when a round starts, a state that exists is owned by
      exactly one instance. */
  lemma {:induction false} RunPartitioned(worlds: seq<World>, steps: seq<Step>, n: nat)
    requires Run(worlds, steps) && n < |worlds| && Partitioned(worlds[0])
    requires forall i :: 0 <= i < n ==> Collected(worlds[i], steps[i])
    ensures Partitioned(worlds[n])
    decreases n
  {
    if n == 0 {
    } else {
      RunPartitioned(worlds, steps, n - 1);
      assert Collected(worlds[n - 1], steps[n - 1]) && StepOf(worlds, steps, n - 1);
      StepPartitioned(worlds[n - 1], worlds[n], steps[n - 1]);
    }
  }

  /** From the first instance on, the first round that starts while a state is outside of the set, and no step
      before, breaks it. */
  lemma Safety(p: nat, worlds: seq<World>, steps: seq<Step>, n: nat)
    requires Run(worlds, steps) && worlds[0] == Initial(p) && n < |steps|
    requires forall i :: 0 <= i < n ==> Collected(worlds[i], steps[i])
    ensures Partitioned(worlds[n])
    ensures Partitioned(worlds[n + 1]) <==> Collected(worlds[n], steps[n])
  {
    InitialPartitioned(p);
    RunPartitioned(worlds, steps, n);
    assert StepOf(worlds, steps, n);
    match steps[n]
    case Balance(q, child) => BalanceWhileOutside(worlds[n], worlds[n + 1], q, child);
    case _ => StepPartitioned(worlds[n], worlds[n + 1], steps[n]);
  }

  /** Has p killed a state since its last update? */
  ghost predicate Pending(steps: seq<Step>, p: nat, n: nat)
    requires n <= |steps|
  {
    exists i :: 0 <= i < n && KillsSince(steps, p, i, n)
  }

  ghost predicate KillsSince(steps: seq<Step>, p: nat, i: nat, n: nat)
    requires i < n <= |steps|
  {
    steps[i].Kill? && steps[i].p == p && forall k :: i < k < n ==> !(steps[k].Update? && steps[k].p == p)
  }

  /** All removed states are zombies, where no kill is pending. */
  ghost predicate Clean(w: World, steps: seq<Step>, n: nat)
    requires n <= |steps|
  {
    forall p {:trigger p in w.instances} :: p in w.instances && !Pending(steps, p, n) ==>
      w.instances[p].removed <= w.instances[p].zombies
  }

  lemma PendingAfter(steps: seq<Step>, p: nat, n: nat)
    requires n < |steps|
    ensures steps[n].Kill? && steps[n].p == p ==> Pending(steps, p, n + 1)
    ensures Pending(steps, p, n) && !(steps[n].Update? && steps[n].p == p) ==> Pending(steps, p, n + 1)
  {
    if steps[n].Kill? && steps[n].p == p { assert KillsSince(steps, p, n, n + 1); }
    if Pending(steps, p, n) && !(steps[n].Update? && steps[n].p == p) {
      var i :| 0 <= i < n && KillsSince(steps, p, i, n);
      assert KillsSince(steps, p, i, n + 1);
    }
  }

  lemma CleanStep(w: World, v: World, steps: seq<Step>, n: nat)
    requires n < |steps| && Next(w, v, steps[n]) && Clean(w, steps, n)
    requires steps[n].Balance? ==> !Pending(steps, steps[n].p, n)
    ensures Clean(v, steps, n + 1)
  {
    forall p | p in v.instances && !Pending(steps, p, n + 1)
      ensures v.instances[p].removed <= v.instances[p].zombies
    {
      PendingAfter(steps, p, n);
      if p in w.instances {
        assert (steps[n].Update? && steps[n].p == p) || w.instances[p].removed <= w.instances[p].zombies;
      }
    }
  }

  /** A round starts with no state outside of the set, and after an update since the last round's kills. */
  ghost predicate Orderly(worlds: seq<World>, steps: seq<Step>, i: nat)
    requires i < |steps| < |worlds|
  {
    steps[i].Balance? ==> Collected(worlds[i], steps[i]) && !Pending(steps, steps[i].p, i)
  }

  lemma {:induction false} RunClean(p: nat, worlds: seq<World>, steps: seq<Step>, n: nat)
    requires Run(worlds, steps) && worlds[0] == Initial(p) && n < |worlds|
    requires forall i :: 0 <= i < n ==> Orderly(worlds, steps, i)
    ensures Clean(worlds[n], steps, n)
  {
    if n == 0 {
    } else {
      RunClean(p, worlds, steps, n - 1);
      assert StepOf(worlds, steps, n - 1) && Orderly(worlds, steps, n - 1);
      CleanStep(worlds[n - 1], worlds[n], steps, n - 1);
    }
  }

  /** Two parts of a set, of the same size but for one. */
  ghost predicate HalfAndHalf(all: set<nat>, one: set<nat>, two: set<nat>) {
    one + two == all && one !! two && |one| == |all| / 2 && |two| == |all| - |all| / 2
  }

  lemma HalvesOfLive(live: seq<nat>, removed: set<nat>, owned: set<nat>)
    requires NoRepeats(live) && (forall x :: x in live ==> x !in removed) && forall x :: x in owned <==> x in live
    ensures |owned| == |live| && HalfAndHalf(owned, ChildKills(live) - removed, ParentKills(live) - removed)
  {
    Halves(live);
    HalfEach(live);
    TwoParts(ChildKills(live), ParentKills(live), owned, removed, |live|);
  }

  lemma TwoParts(one: set<nat>, two: set<nat>, all: set<nat>, removed: set<nat>, n: nat)
    requires one !! two && (forall x :: x in all <==> x in one || x in two) && forall x :: x in all ==> x !in removed
    requires |one| == n / 2 && |two| == n - n / 2
    ensures |all| == n && HalfAndHalf(all, one - removed, two - removed)
  {
    assert one + two == all && one - removed == one && two - removed == two;
  }

  /** A split of an instance that has removed only zombies gives each side half of what it had. */
  lemma SplitInHalf(w: World, v: World, p: nat, child: nat)
    requires Partitioned(w) && Next(w, v, Balance(p, child)) && NoneOutside(w.instances[p])
    requires w.instances[p].removed <= w.instances[p].zombies
    ensures |Owned(w.instances[p])| >= 2
    ensures HalfAndHalf(Owned(w.instances[p]), Owned(v.instances[p]), Owned(v.instances[child]))
  {
    var i := w.instances[p];
    var live := Excluding(i.states, i.zombies);
    assert Good(w, p);
    ExcludingNoRepeats(i.states, i.zombies);
    HalvesOfLive(live, i.removed, Owned(i));
    BalanceStep(w, v, p, child);
  }

  lemma OrderlyStart(p: nat, worlds: seq<World>, steps: seq<Step>, n: nat)
    requires Run(worlds, steps) && worlds[0] == Initial(p) && n < |steps| && steps[n].Balance?
    requires forall i :: 0 <= i <= n ==> Orderly(worlds, steps, i)
    ensures Partitioned(worlds[n]) && Next(worlds[n], worlds[n + 1], steps[n])
    ensures NoneOutside(worlds[n].instances[steps[n].p])
    ensures worlds[n].instances[steps[n].p].removed <= worlds[n].instances[steps[n].p].zombies
  {
    forall i | 0 <= i <= n ensures Collected(worlds[i], steps[i]) {
      assert Orderly(worlds, steps, i);
    }
    RunClean(p, worlds, steps, n);
    InitialPartitioned(p);
    RunPartitioned(worlds, steps, n);
    assert StepOf(worlds, steps, n) && Orderly(worlds, steps, n);
  }

  /** In every run from the first instance on whose rounds start orderly, both sides of a split have a state, and each
      side has half of the states. */
  lemma BothSidesKeepOne(p: nat, worlds: seq<World>, steps: seq<Step>, n: nat)
    requires Run(worlds, steps) && worlds[0] == Initial(p) && n < |steps| && steps[n].Balance?
    requires forall i :: 0 <= i <= n ==> Orderly(worlds, steps, i)
    ensures Partitioned(worlds[n + 1])
    ensures var Balance(q, child) := steps[n]; var w, v := worlds[n], worlds[n + 1];
      && q in w.instances && q in v.instances && child in v.instances
      && Owned(v.instances[q]) != {} && Owned(v.instances[child]) != {}
      && HalfAndHalf(Owned(w.instances[q]), Owned(v.instances[q]), Owned(v.instances[child]))
  {
    var Balance(q, child) := steps[n];
    OrderlyStart(p, worlds, steps, n);
    BalanceStep(worlds[n], worlds[n + 1], q, child);
    SplitInHalf(worlds[n], worlds[n + 1], q, child);
  }

  /** Instance 0 with three states. */
  lemma TwoCreations() returns (w: World, x: World, v: World)
    ensures Next(Initial(0), w, Create(0)) && Next(w, x, Create(0)) && Next(x, v, Update(0, [0, 1, 2]))
    ensures v.alive == {0, 1, 2} && v.instances.Keys == {0} && v.instances[0] == Instance([0, 1, 2], {}, {}, {}, {}, {})
  {
    var i := Initial(0).instances[0];
    w := World(Initial(0).instances[0 := i.(added := {} + {1})], 2, {0} + {1});
    x := World(w.instances[0 := w.instances[0].(added := w.instances[0].added + {2})], 3, {0} + {1} + {2});
    v := x.(instances := x.instances[0 := Instance([0, 1, 2], {}, {}, {}, {}, {})]);
  }

  lemma YieldAndFork(v: World) returns (w: World, x: World)
    requires v.instances.Keys == {0} && v.instances[0] == Instance([0, 1, 2], {}, {}, {}, {}, {})
    ensures Next(v, w, Yield(0, 0)) && Next(w, x, Balance(0, 1)) && x.alive == v.alive && Owns(x, 0, 0) && Owns(x, 1, 0)
  {
    var i := v.instances[0];
    assert 0 in Owned(i) && [0, 1, 2][1..] == [1, 2] && [1, 2][1..] == [2] && [2][1..] == [];
    assert Excluding([2], {0}) == [2] && Excluding([1, 2], {0}) == [1, 2] && Excluding([0, 1, 2], {0}) == [1, 2];
    var j := i.(states := Excluding(i.states, {0}), yielded := i.yielded + {0});
    w := v.(instances := v.instances[0 := j]);
    assert Excluding([2], {}) == [2] && Excluding([1, 2], {}) == [1, 2];
    var live := Excluding(j.states, j.zombies);
    x := w.(instances := w.instances[0 := j.(toKill := ParentKills(live))][1 := j.(toKill := ChildKills(live))]);
  }

  lemma TwoSteps(u: World, v: World, w: World, first: Step, second: Step)
    requires Next(u, v, first) && Next(v, w, second)
    ensures Run([u, v, w], [first, second])
  {
    forall k: nat | k < 2 ensures StepOf([u, v, w], [first, second], k) {
    }
  }

  /** A run after which two instances own state 0: it has yielded when its instance forks. */
  lemma DuplicatingRun() returns (worlds: seq<World>, steps: seq<Step>)
    ensures Run(worlds, steps) && worlds[0] == Initial(0)
    ensures var last := worlds[|worlds| - 1]; 0 in last.alive && Owns(last, 0, 0) && Owns(last, 1, 0)
  {
    var w1, w2, w3 := TwoCreations();
    var w4, w5 := YieldAndFork(w3);
    TwoSteps(Initial(0), w1, w2, Create(0), Create(0));
    TwoSteps(w3, w4, w5, Yield(0, 0), Balance(0, 1));
    Longer(w2, Update(0, [0, 1, 2]), [w3, w4, w5], [Yield(0, 0), Balance(0, 1)]);
    var one, first := [Initial(0), w1, w2], [Create(0), Create(0)];
    var two, second := [w2] + [w3, w4, w5], [Update(0, [0, 1, 2])] + [Yield(0, 0), Balance(0, 1)];
    Joined(one, first, two, second);
    worlds, steps := one + two[1..], first + second;
    assert worlds[|worlds| - 1] == w5;
  }

  /** An instance after a round; forked is what fork returned there, 1 in the child and 0 in the parent. */
  function AfterRound(i: Instance, forked: int): Instance {
    var live := Excluding(i.states, i.zombies);
    i.(removed := i.removed + if forked != 0 then ChildKills(live) else ParentKills(live))
  }

  /** What is to be killed has been killed. */
  function Killed(i: Instance): Instance { i.(removed := i.removed + i.toKill, toKill := {}) }

  lemma {:induction false} KillAll(w: World, p: nat) returns (worlds: seq<World>, steps: seq<Step>)
    requires p in w.instances
    ensures Run(worlds, steps) && worlds[0] == w
    ensures worlds[|worlds| - 1] == w.(instances := w.instances[p := Killed(w.instances[p])])
    ensures forall k :: 0 <= k < |steps| ==> steps[k].Kill? && steps[k].p == p
    decreases |w.instances[p].toKill|
  {
    var i := w.instances[p];
    if i.toKill == {} {
      assert Killed(i) == i && w.instances[p := i] == w.instances;
      worlds, steps := [w], [];
    } else {
      var id :| id in i.toKill;
      var j := i.(removed := i.removed + {id}, toKill := i.toKill - {id});
      var v := w.(instances := w.instances[p := j]);
      assert Killed(j) == Killed(i);
      var more, others := KillAll(v, p);
      worlds, steps := [w] + more, [Kill(p, id)] + others;
      assert v.instances[p := Killed(j)] == w.instances[p := Killed(i)];
      Longer(w, Kill(p, id), more, others);
    }
  }

  lemma Longer(w: World, step: Step, worlds: seq<World>, steps: seq<Step>)
    requires Run(worlds, steps) && Next(w, worlds[0], step)
    ensures Run([w] + worlds, [step] + steps)
  {
    var ws, ss := [w] + worlds, [step] + steps;
    forall k: nat | k < |ss| ensures StepOf(ws, ss, k) {
      assert k > 0 ==> StepOf(worlds, steps, k - 1);
    }
  }

  lemma Joined(one: seq<World>, first: seq<Step>, two: seq<World>, second: seq<Step>)
    requires Run(one, first) && Run(two, second) && one[|one| - 1] == two[0]
    ensures Run(one + two[1..], first + second)
  {
    var ws, ss := one + two[1..], first + second;
    forall k: nat | k < |ss| ensures StepOf(ws, ss, k) {
      if k < |first| {
        assert StepOf(one, first, k);
      } else {
        assert StepOf(two, second, k - |first|);
      }
    }
  }

  /** A fork and the terminations on both sides make of an instance what DoLoadBalancing makes of it in
      the two processes. */
  lemma RoundIsRun(w: World, p: nat, child: nat) returns (worlds: seq<World>, steps: seq<Step>)
    requires p in w.instances && child !in w.instances && w.instances[p].toKill == {}
    requires |Excluding(w.instances[p].states, w.instances[p].zombies)| >= 2
    ensures Run(worlds, steps) && worlds[0] == w && steps != [] && steps[0] == Balance(p, child)
    ensures forall k :: 0 < k < |steps| ==> steps[k].Kill?
    ensures var i := w.instances[p];
      worlds[|worlds| - 1] == w.(instances := w.instances[p := AfterRound(i, 0)][child := AfterRound(i, 1)])
  {
    var i := w.instances[p];
    var live := Excluding(i.states, i.zombies);
    var inP, inChild := i.(toKill := ParentKills(live)), i.(toKill := ChildKills(live));
    var v := w.(instances := w.instances[p := inP][child := inChild]);
    var one, first := KillAll(v, p);
    var two, second := KillAll(one[|one| - 1], child);
    assert Killed(inP) == AfterRound(i, 0) && Killed(inChild) == AfterRound(i, 1);
    Joined(one, first, two, second);
    Longer(w, Balance(p, child), one + two[1..], first + second);
    worlds, steps := [w] + (one + two[1..]), [Balance(p, child)] + (first + second);
    assert worlds[|worlds| - 1] == two[|two| - 1];
    assert v.instances[p := Killed(inP)][child := Killed(inChild)]
        == w.instances[p := AfterRound(i, 0)][child := AfterRound(i, 1)];
  }

  /** The part of the executor that a balancing round reads and writes. */
  class Executor {
    var states: seq<nat>           // in set order
    var addedStates: set<nat>
    var removedStates: set<nat>
    var zombies: set<nat>
    var yielded: set<nat>
    var inLoadBalancing: bool

    constructor (id: nat)
      ensures View() == Instance([id], {}, {}, {}, {}, {}) && !inLoadBalancing
    {
      states, addedStates, removedStates, zombies, yielded, inLoadBalancing := [id], {}, {}, {}, {}, false;
    }

    ghost function View(): Instance
      reads this
    {
      Instance(states, addedStates, removedStates, zombies, yielded, {})
    }

    /** One round in one process. full: the process table was full; forked: what fork returned here, -1 if it failed,
        1 in the child, 0 in the parent. */
    method DoLoadBalancing(full: bool, forked: int)
      modifies this
      ensures inLoadBalancing == (old(inLoadBalancing) && (full || |Excluding(states, zombies)| < 2))
      ensures View() ==
        if full || |Excluding(states, zombies)| < 2 || forked < 0 then old(View()) else AfterRound(old(View()), forked)
    {
      if |states| < 2 || full { return; }
      var allStates := CollectNonZombies();
      if |allStates| < 2 { return; }
      inLoadBalancing := true;
      if forked < 0 {
        inLoadBalancing := false;
        return;
      }
      var size := |allStates|;
      var n := size / 2;
      TerminateAll(allStates, if forked != 0 then 0 else n, if forked != 0 then n else size);
      inLoadBalancing := false;
    }

    method TerminateAll(allStates: seq<nat>, lower: nat, upper: nat)
      requires lower <= upper <= |allStates|
      modifies this`removedStates
      ensures removedStates == old(removedStates) + Range(allStates, lower, upper)
    {
      for i := lower to upper
        invariant removedStates == old(removedStates) + Range(allStates, lower, i)
      {
        ghost var before := Range(allStates, lower, i);
        removedStates := removedStates + {allStates[i]};
        assert allStates[lower..i + 1] == allStates[lower..i] + [allStates[i]];
        assert Range(allStates, lower, i + 1) == before + {allStates[i]};
      }
    }

    method CollectNonZombies() returns (all: seq<nat>)
      ensures all == Excluding(states, zombies)
    {
      all := [];
      for i := 0 to |states|
        invariant all == Excluding(states[..i], zombies)
      {
        ExcludingAppend(states[..i], states[i], zombies);
        assert states[..i + 1] == states[..i] + [states[i]];
        if states[i] !in zombies { all := all + [states[i]]; }
      }
      assert states[..|states|] == states;
    }

    lemma {:induction false} ExcludingAppend(s: seq<nat>, x: nat, gone: set<nat>)
      ensures Excluding(s + [x], gone) == Excluding(s, gone) + if x in gone then [] else [x]
    {
      if s == [] {
        assert [x][1..] == [];
      } else {
        assert (s + [x])[1..] == s[1..] + [x];
        ExcludingAppend(s[1..], x, gone);
      }
    }
  }
}
