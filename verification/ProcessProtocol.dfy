/** Any number of instances forking, claiming slots, exiting, dying and reaping, in any order. */
module ProcessProtocol {
  import opened ProcessTable

  /** An instance in its slot; a dead one stays there until some instance reaps it. */
  datatype Instance = Instance(slot: nat, pid: int, alive: bool)

  /** max instances allowed; the indices reserved but not in a slot; the instances by index; all indices given
      so far. */
  datatype System = System(table: Table, max: nat, outstanding: set<int>, procs: map<int, Instance>, given: set<int>)

  datatype Step =
    | Reserve
    | ForkFailed(index: int)
    | Slotted(index: int, pid: int, slot: nat)
    | Exit(index: int)
    | Death(index: int)
    | Reap
    | NewStateId

  function Initial(pid: int, max: nat): System {
    System(First(pid), max, {}, map[0 := Instance(0, pid, true)], {0})
  }

  predicate FirstFree(ids: seq<int>, max: nat, slot: nat) {
    slot < max <= |ids| && ids[slot] == FREE && forall i :: 0 <= i < slot ==> ids[i] != FREE
  }

  ghost function AlivePids(procs: map<int, Instance>): set<int> {
    set i | i in procs && procs[i].alive :: procs[i].pid
  }

  ghost function DeadOnes(procs: map<int, Instance>): set<int> {
    set i | i in procs && !procs[i].alive
  }

  ghost predicate Next(s: System, t: System, step: Step) {
    match step
    case Reserve =>
      CanReserve(s.table, s.max)
      && t == s.(table := ProcessTable.Reserve(s.table), outstanding := s.outstanding + {s.table.lastFileId},
                 given := s.given + {s.table.lastFileId})
    case ForkFailed(index) =>
      index in s.outstanding && t == s.(table := Cancel(s.table), outstanding := s.outstanding - {index})
    case Slotted(index, pid, slot) =>
      index in s.outstanding && index >= 0 && pid > 0 && (forall i :: i in s.procs ==> s.procs[i].pid != pid)
      && |s.table.ids| == |s.table.pids| && FirstFree(s.table.ids, s.max, slot)
      && t == s.(table := Claim(s.table, slot, index, pid), outstanding := s.outstanding - {index},
                 procs := s.procs[index := Instance(slot, pid, true)])
    case Exit(index) =>
      index in s.procs && s.procs[index].alive
      && s.procs[index].slot < |s.table.ids| && s.procs[index].slot < |s.table.pids|
      && t == s.(table := Release(s.table, s.procs[index].slot), procs := s.procs - {index})
    case Death(index) =>
      index in s.procs && t == s.(procs := s.procs[index := s.procs[index].(alive := false)])
    case Reap =>
      s.max <= |s.table.ids| == |s.table.pids|
      && t == s.(table := ProcessTable.Reap(s.table, AlivePids(s.procs), s.max), procs := s.procs - DeadOnes(s.procs))
    case NewStateId =>
      t == s.(table := s.table.(lastStateId := s.table.lastStateId + 1))
  }

  /** Instance i sits in its slot. */
  ghost predicate Seated(ids: seq<int>, pids: seq<int>, procs: map<int, Instance>, max: nat, i: int)
    requires i in procs
  {
    var p := procs[i];
    p.slot < max && p.slot < |ids| && p.slot < |pids| && ids[p.slot] == i && pids[p.slot] == p.pid && p.pid > 0
      && i >= 0
  }

  /** Slot k is free, or holds an instance that sits there. */
  ghost predicate Held(ids: seq<int>, pids: seq<int>, procs: map<int, Instance>, k: nat)
    requires k < |ids| == |pids|
  {
    if ids[k] == FREE then pids[k] == FREE else pids[k] != FREE && ids[k] in procs && procs[ids[k]].slot == k
  }

  /** Slots and instances correspond. */
  ghost predicate Matched(ids: seq<int>, pids: seq<int>, procs: map<int, Instance>, max: nat) {
    && |ids| == |pids| == MAX_PROCESSES && max <= MAX_PROCESSES
    && (forall i {:trigger Seated(ids, pids, procs, max, i)} :: i in procs ==> Seated(ids, pids, procs, max, i))
    && (forall k {:trigger Held(ids, pids, procs, k)} :: 0 <= k < MAX_PROCESSES ==> Held(ids, pids, procs, k))
    && (forall i, j {:trigger procs[i].pid, procs[j].pid} :: i in procs && j in procs && i != j ==>
      procs[i].pid != procs[j].pid)
  }

  ghost predicate Inv(s: System) {
    && Matched(s.table.ids, s.table.pids, s.procs, s.max)
    && s.outstanding !! s.procs.Keys
    && s.table.count == Occupied(s.table.ids) + |s.outstanding| <= s.max
    && s.outstanding + s.procs.Keys <= s.given
    && forall i :: i in s.given ==> 0 <= i < s.table.lastFileId
  }

  lemma InitialInv(pid: int, max: nat)
    requires pid > 0 && 1 <= max <= MAX_PROCESSES
    ensures Inv(Initial(pid, max))
  {
    var free := seq(MAX_PROCESSES, i => FREE);
    var ids := First(pid).ids;
    assert ids == free[0 := 0];
    OccupiedAll(free);
    OccupiedUpdate(free, 0, 0);
  }

  /** A child that reserved its place finds a free slot. */
  lemma SlotAvailable(s: System)
    requires Inv(s) && s.outstanding != {}
    ensures exists slot :: FirstFree(s.table.ids, s.max, slot)
  {
    assert |s.outstanding| == 0 ==> s.outstanding == {};
    SomeFree(s.table.ids, s.max);
  }

  lemma SomeFree(ids: seq<int>, max: nat)
    requires max <= |ids| && Occupied(ids) < max
    ensures exists slot :: FirstFree(ids, max, slot)
  {
    OccupiedPrefix(ids, max);
    OccupiedAll(ids[..max]);
    FirstFreeExists(ids, max);
  }

  lemma {:induction false} OccupiedPrefix(ids: seq<int>, n: nat)
    requires n <= |ids|
    ensures Occupied(ids) >= Occupied(ids[..n])
  {
    if n == 0 {
    } else {
      OccupiedPrefix(ids[1..], n - 1);
      assert ids[..n][1..] == ids[1..][..n - 1];
    }
  }

  lemma {:induction false} FirstFreeExists(ids: seq<int>, n: nat)
    requires n <= |ids| && FREE in ids[..n]
    ensures exists slot :: FirstFree(ids, n, slot)
    decreases n
  {
    if FREE in ids[..n - 1] {
      FirstFreeExists(ids, n - 1);
      var slot :| FirstFree(ids, n - 1, slot);
      assert FirstFree(ids, n, slot);
    } else {
      assert forall i :: 0 <= i < n - 1 ==> ids[i] == ids[..n - 1][i];
      assert FirstFree(ids, n, n - 1);
    }
  }

  /** An instance that exits still owns its slot. */
  lemma OwnsSlot(s: System, index: int)
    requires Inv(s) && index in s.procs
    ensures s.procs[index].slot < |s.table.ids| && s.table.ids[s.procs[index].slot] == index
  {
    assert Seated(s.table.ids, s.table.pids, s.procs, s.max, index);
  }

  lemma MatchedSlotted(ids: seq<int>, pids: seq<int>, procs: map<int, Instance>, max: nat, index: int, pid: int,
                       slot: nat)
    requires Matched(ids, pids, procs, max) && slot < max && ids[slot] == FREE && index !in procs && index >= 0
    requires pid > 0
    requires forall i :: i in procs ==> procs[i].pid != pid
    ensures Matched(ids[slot := index], pids[slot := pid], procs[index := Instance(slot, pid, true)], max)
  {
    var ids', pids', procs' := ids[slot := index], pids[slot := pid], procs[index := Instance(slot, pid, true)];
    forall i | i in procs' ensures Seated(ids', pids', procs', max, i) {
      if i != index { assert Seated(ids, pids, procs, max, i); }
    }
    forall k | 0 <= k < MAX_PROCESSES ensures Held(ids', pids', procs', k) {
      assert Held(ids, pids, procs, k);
    }
  }

  lemma MatchedExit(ids: seq<int>, pids: seq<int>, procs: map<int, Instance>, max: nat, index: int)
    requires Matched(ids, pids, procs, max) && index in procs && procs[index].slot < MAX_PROCESSES
    ensures ids[procs[index].slot] != FREE
    ensures Matched(ids[procs[index].slot := FREE], pids[procs[index].slot := FREE], procs - {index}, max)
  {
    var slot := procs[index].slot;
    var ids', pids', procs' := ids[slot := FREE], pids[slot := FREE], procs - {index};
    assert Seated(ids, pids, procs, max, index);
    forall i | i in procs' ensures Seated(ids', pids', procs', max, i) {
      assert Seated(ids, pids, procs, max, i);
    }
    forall k | 0 <= k < MAX_PROCESSES ensures Held(ids', pids', procs', k) {
      assert Held(ids, pids, procs, k);
    }
  }

  lemma SlottedInv(s: System, t: System, index: int, pid: int, slot: nat)
    requires Inv(s) && Next(s, t, Slotted(index, pid, slot))
    ensures Inv(t)
  {
    MatchedSlotted(s.table.ids, s.table.pids, s.procs, s.max, index, pid, slot);
    OccupiedUpdate(s.table.ids, slot, index);
    assert |s.outstanding| == |s.outstanding - {index}| + 1;
  }

  lemma ExitInv(s: System, t: System, index: int)
    requires Inv(s) && Next(s, t, Exit(index))
    ensures Inv(t)
  {
    MatchedExit(s.table.ids, s.table.pids, s.procs, s.max, index);
    OccupiedUpdate(s.table.ids, s.procs[index].slot, FREE);
  }

  lemma DeathInv(s: System, t: System, index: int)
    requires Inv(s) && Next(s, t, Death(index))
    ensures Inv(t)
  {
    var ids, pids := s.table.ids, s.table.pids;
    forall i | i in t.procs ensures Seated(ids, pids, t.procs, s.max, i) {
      assert Seated(ids, pids, s.procs, s.max, i);
    }
    forall k | 0 <= k < MAX_PROCESSES ensures Held(ids, pids, t.procs, k) {
      assert Held(ids, pids, s.procs, k);
    }
  }

  /** What reaping the slots below n does to each slot and to the count. */
  lemma {:induction false} ReapEffect(t: Table, alive: set<int>, n: nat)
    requires |t.ids| == |t.pids| && n <= |t.ids|
    requires forall k :: 0 <= k < |t.ids| ==> (t.ids[k] == FREE <==> t.pids[k] == FREE)
    ensures var r := ProcessTable.Reap(t, alive, n);
      && r.count - Occupied(r.ids) == t.count - Occupied(t.ids) && r.count <= t.count
      && forall k :: 0 <= k < n ==>
           if t.pids[k] in alive then r.ids[k] == t.ids[k] && r.pids[k] == t.pids[k]
           else r.ids[k] == FREE && r.pids[k] == FREE
  {
    if n == 0 {
    } else {
      ReapEffect(t, alive, n - 1);
      var r := ProcessTable.Reap(t, alive, n - 1);
      OccupiedUpdate(r.ids, n - 1, FREE);
    }
  }

  lemma MatchedReap(s: Table, procs: map<int, Instance>, max: nat)
    requires Matched(s.ids, s.pids, procs, max)
    ensures var t := ProcessTable.Reap(s, AlivePids(procs), max);
      t.count - Occupied(t.ids) == s.count - Occupied(s.ids) && t.count <= s.count
        && Matched(t.ids, t.pids, procs - DeadOnes(procs), max)
  {
    var alive := AlivePids(procs);
    var t, procs' := ProcessTable.Reap(s, alive, max), procs - DeadOnes(procs);
    forall k | 0 <= k < |s.ids| ensures s.ids[k] == FREE <==> s.pids[k] == FREE {
      assert Held(s.ids, s.pids, procs, k);
    }
    ReapEffect(s, alive, max);
    forall i | i in procs' ensures Seated(t.ids, t.pids, procs', max, i) {
      assert Seated(s.ids, s.pids, procs, max, i) && procs[i].pid in alive;
    }
    forall k | 0 <= k < MAX_PROCESSES ensures Held(t.ids, t.pids, procs', k) {
      HeldAfterReap(s, procs, max, k);
    }
  }

  lemma HeldAfterReap(s: Table, procs: map<int, Instance>, max: nat, k: nat)
    requires Matched(s.ids, s.pids, procs, max) && k < MAX_PROCESSES
    requires forall j :: 0 <= j < |s.ids| ==> (s.ids[j] == FREE <==> s.pids[j] == FREE)
    ensures var t := ProcessTable.Reap(s, AlivePids(procs), max); Held(t.ids, t.pids, procs - DeadOnes(procs), k)
  {
    var alive := AlivePids(procs);
    var t := ProcessTable.Reap(s, alive, max);
    ReapEffect(s, alive, max);
    assert Held(s.ids, s.pids, procs, k);
    if t.ids[k] != FREE {
      var i := s.ids[k];
      assert Seated(s.ids, s.pids, procs, max, i);
      var j :| j in procs && procs[j].alive && procs[j].pid == s.pids[k];
      assert procs[i].pid == procs[j].pid;
    }
  }

  lemma ReapInv(s: System, t: System)
    requires Inv(s) && Next(s, t, Reap)
    ensures Inv(t)
  {
    MatchedReap(s.table, s.procs, s.max);
  }

  lemma ReserveInv(s: System, t: System)
    requires Inv(s) && Next(s, t, Reserve)
    ensures Inv(t) && s.table.lastFileId !in s.given
  {
    assert s.table.lastFileId !in s.given;
    assert |t.outstanding| == |s.outstanding| + 1;
  }

  lemma ForkFailedInv(s: System, t: System, index: int)
    requires Inv(s) && Next(s, t, ForkFailed(index))
    ensures Inv(t)
  {
    assert |s.outstanding| == |t.outstanding| + 1;
  }

  /** Every step keeps the invariant. */
  lemma StepInv(s: System, t: System, step: Step)
    requires Inv(s) && Next(s, t, step)
    ensures Inv(t)
    ensures step.Reserve? ==> s.table.lastFileId !in s.given
  {
    match step
    case Reserve => ReserveInv(s, t);
    case ForkFailed(index) => ForkFailedInv(s, t, index);
    case Slotted(index, pid, slot) => SlottedInv(s, t, index, pid, slot);
    case Exit(index) => ExitInv(s, t, index);
    case Death(index) => DeathInv(s, t, index);
    case Reap => ReapInv(s, t);
    case NewStateId =>
  }

  /** Step i of a run. */
  ghost predicate StepOf(states: seq<System>, steps: seq<Step>, i: nat)
    requires i < |steps| && |states| == |steps| + 1
  {
    Next(states[i], states[i + 1], steps[i])
  }

  /** A run: states and the steps between them. */
  ghost predicate Run(states: seq<System>, steps: seq<Step>) {
    && |states| == |steps| + 1
    && forall i: nat {:trigger StepOf(states, steps, i)} :: i < |steps| ==> StepOf(states, steps, i)
  }

  lemma StepAt(states: seq<System>, steps: seq<Step>, i: nat)
    requires Run(states, steps) && i < |steps| && Inv(states[i])
    ensures Inv(states[i + 1])
  {
    assert StepOf(states, steps, i);
    StepInv(states[i], states[i + 1], steps[i]);
  }

  lemma {:induction false} RunInv(states: seq<System>, steps: seq<Step>, n: nat)
    requires Run(states, steps) && n < |states| && Inv(states[0])
    ensures Inv(states[n])
    decreases n
  {
    if n > 0 {
      var i: nat := n - 1;
      RunInv(states, steps, i);
      StepAt(states, steps, i);
      assert i + 1 == n;
    }
  }

  lemma {:induction false} GivenGrows(states: seq<System>, steps: seq<Step>, i: nat, n: nat)
    requires Run(states, steps) && i <= n < |states|
    ensures states[i].given <= states[n].given
    decreases n
  {
    if i < n {
      GivenGrows(states, steps, i, n - 1);
      var step := steps[n - 1];
      assert StepOf(states, steps, n - 1);
    }
  }

  /** From the start of the first instance on: the table never holds more than max instances and reservations, a child
      that has a reservation finds a slot, and an instance finds its own index in its slot. */
  lemma Safety(pid: int, max: nat, states: seq<System>, steps: seq<Step>, n: nat)
    requires pid > 0 && 1 <= max <= MAX_PROCESSES
    requires Run(states, steps) && states[0] == Initial(pid, max) && n < |states|
    ensures states[n].table.count == Occupied(states[n].table.ids) + |states[n].outstanding| <= states[n].max
    ensures states[n].outstanding != {} ==> exists slot :: FirstFree(states[n].table.ids, states[n].max, slot)
    ensures forall index :: index in states[n].procs ==>
      states[n].procs[index].slot < |states[n].table.ids| && states[n].table.ids[states[n].procs[index].slot] == index
  {
    InitialInv(pid, max);
    RunInv(states, steps, n);
    forall index | index in states[n].procs
      ensures states[n].procs[index].slot < |states[n].table.ids|
      ensures states[n].table.ids[states[n].procs[index].slot] == index
    {
      OwnsSlot(states[n], index);
    }
    if states[n].outstanding != {} { SlotAvailable(states[n]); }
  }

  /** In every run, an instance can be started exactly as long as the occupied slots and the reservations are fewer than
      the maximum. */
  lemma Progress(pid: int, max: nat, states: seq<System>, steps: seq<Step>, n: nat)
    requires pid > 0 && 1 <= max <= MAX_PROCESSES
    requires Run(states, steps) && states[0] == Initial(pid, max) && n < |states|
    ensures (exists t :: Next(states[n], t, Reserve))
       <==> Occupied(states[n].table.ids) + |states[n].outstanding| < states[n].max
  {
    InitialInv(pid, max);
    RunInv(states, steps, n);
    CanStart(states[n]);
  }

  /** And then its place can be given back, or a child with a new process number p can take a slot. */
  lemma ReservedProgress(pid: int, max: nat, states: seq<System>, steps: seq<Step>, n: nat, index: int, p: int)
    requires pid > 0 && 1 <= max <= MAX_PROCESSES
    requires Run(states, steps) && states[0] == Initial(pid, max) && n < |states| && index in states[n].outstanding
    ensures exists t :: Next(states[n], t, ForkFailed(index))
    ensures p > 0 && (forall i :: i in states[n].procs ==> states[n].procs[i].pid != p) ==>
      exists slot, t :: Next(states[n], t, Slotted(index, p, slot))
  {
    InitialInv(pid, max);
    RunInv(states, steps, n);
    CanCancel(states[n], index);
    if p > 0 && forall i :: i in states[n].procs ==> states[n].procs[i].pid != p { CanSeat(states[n], index, p); }
  }

  lemma CanCancel(s: System, index: int)
    requires index in s.outstanding
    ensures exists t :: Next(s, t, ForkFailed(index))
  {
    assert Next(s, s.(table := Cancel(s.table), outstanding := s.outstanding - {index}), ForkFailed(index));
  }

  lemma CanStart(s: System)
    requires Inv(s)
    ensures (exists t :: Next(s, t, Reserve)) <==> Occupied(s.table.ids) + |s.outstanding| < s.max
  {
    if Occupied(s.table.ids) + |s.outstanding| < s.max {
      var id := s.table.lastFileId;
      var t := s.(table := ProcessTable.Reserve(s.table), outstanding := s.outstanding + {id}, given := s.given + {id});
      assert Next(s, t, Reserve);
    }
  }

  lemma CanSeat(s: System, index: int, pid: int)
    requires Inv(s) && index in s.outstanding && pid > 0 && forall i :: i in s.procs ==> s.procs[i].pid != pid
    ensures exists slot, t :: Next(s, t, Slotted(index, pid, slot))
  {
    SlotAvailable(s);
    var slot: nat :| FirstFree(s.table.ids, s.max, slot);
    var t := s.(table := Claim(s.table, slot, index, pid), outstanding := s.outstanding - {index},
                procs := s.procs[index := Instance(slot, pid, true)]);
    assert index in s.given;
    assert Next(s, t, Slotted(index, pid, slot));
  }

  /** No index is given twice. */
  lemma IndicesUnique(pid: int, max: nat, states: seq<System>, steps: seq<Step>, i: nat, j: nat)
    requires pid > 0 && 1 <= max <= MAX_PROCESSES
    requires Run(states, steps) && states[0] == Initial(pid, max) && i < j < |steps| && steps[i].Reserve?
    requires steps[j].Reserve?
    ensures states[i].table.lastFileId != 0 && states[i].table.lastFileId != states[j].table.lastFileId
  {
    InitialInv(pid, max);
    IndicesDiffer(states, steps, i, j);
  }

  lemma IndicesDiffer(states: seq<System>, steps: seq<Step>, i: nat, j: nat)
    requires Run(states, steps) && Inv(states[0]) && 0 in states[0].given
    requires i < j < |steps| && steps[i].Reserve? && steps[j].Reserve?
    ensures states[i].table.lastFileId != 0 && states[i].table.lastFileId != states[j].table.lastFileId
  {
    NewIndex(states, steps, i);
    NewIndex(states, steps, j);
    GivenGrows(states, steps, i + 1, j);
    GivenGrows(states, steps, 0, i);
  }

  /** A reservation takes an index that has not been given, and gives it. */
  lemma NewIndex(states: seq<System>, steps: seq<Step>, i: nat)
    requires Run(states, steps) && Inv(states[0]) && i < |steps| && steps[i].Reserve?
    ensures states[i].table.lastFileId !in states[i].given && states[i].table.lastFileId in states[i + 1].given
  {
    RunInv(states, steps, i);
    assert StepOf(states, steps, i);
  }
}
