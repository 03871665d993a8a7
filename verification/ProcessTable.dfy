/** The process table shared by the instances that explore in parallel. */
module ProcessTable {
  const MAX_PROCESSES := 48
  const FREE := -1

  /** The shared record. A slot holds the index of the instance running in it, or FREE. */
  datatype Table = Table(count: int, lastFileId: nat, lastStateId: nat, ids: seq<int>, pids: seq<int>)

  function Occupied(ids: seq<int>): (n: nat)
    ensures n <= |ids|
  {
    if ids == [] then 0 else (if ids[0] != FREE then 1 else 0) + Occupied(ids[1..])
  }

  lemma {:induction false} OccupiedAll(ids: seq<int>)
    ensures Occupied(ids) == |ids| <==> FREE !in ids
    ensures Occupied(ids) == 0 <==> forall i :: 0 <= i < |ids| ==> ids[i] == FREE
  {
    if ids == [] {
    } else {
      OccupiedAll(ids[1..]);
    }
  }

  lemma {:induction false} OccupiedUpdate(ids: seq<int>, i: nat, v: int)
    requires i < |ids|
    ensures Occupied(ids[i := v]) == Occupied(ids) - (if ids[i] != FREE then 1 else 0) + (if v != FREE then 1 else 0)
  {
    if i == 0 {
      assert ids[0 := v][1..] == ids[1..];
    } else {
      OccupiedUpdate(ids[1..], i - 1, v);
      assert ids[i := v][1..] == ids[1..][i - 1 := v];
    }
  }

  // What each locked section does to the table.

  predicate CanReserve(t: Table, max: nat) { t.count != max }

  function Reserve(t: Table): Table { t.(lastFileId := t.lastFileId + 1, count := t.count + 1) }

  function Cancel(t: Table): Table { t.(count := t.count - 1) }

  function Claim(t: Table, slot: nat, index: nat, pid: int): Table
    requires slot < |t.ids| && slot < |t.pids|
  {
    t.(ids := t.ids[slot := index], pids := t.pids[slot := pid])
  }

  function Release(t: Table, slot: nat): Table
    requires slot < |t.ids| && slot < |t.pids|
  {
    t.(ids := t.ids[slot := FREE], pids := t.pids[slot := FREE], count := t.count - 1)
  }

  /** Releasing the slots below n whose process is not alive. */
  function Reap(t: Table, alive: set<int>, n: nat): (r: Table)
    requires |t.ids| == |t.pids| && n <= |t.ids|
    ensures |r.ids| == |t.ids| && |r.pids| == |t.pids|
    ensures r.lastFileId == t.lastFileId && r.lastStateId == t.lastStateId
    ensures forall i :: n <= i < |t.ids| ==> r.ids[i] == t.ids[i] && r.pids[i] == t.pids[i]
  {
    if n == 0 then t
    else
      var r := Reap(t, alive, n - 1);
      if r.pids[n - 1] == FREE || r.pids[n - 1] in alive then r else Release(r, n - 1)
  }

  class Shared {
    var count: int
    var lastFileId: nat
    var lastStateId: nat
    const ids: array<int>
    const pids: array<int>

    ghost function Contents(): Table
      reads this, ids, pids
    {
      Table(count, lastFileId, lastStateId, ids[..], pids[..])
    }

    ghost predicate Valid() {
      ids != pids && ids.Length == MAX_PROCESSES && pids.Length == MAX_PROCESSES
    }

    /** The table as the first instance, in slot 0 with index 0, leaves it. */
    constructor (pid: int)
      ensures Valid() && fresh(ids) && fresh(pids)
      ensures Contents() == First(pid)
    {
      ids := new int[MAX_PROCESSES];
      pids := new int[MAX_PROCESSES];
      count, lastStateId, lastFileId := 1, 0, 1;
      new;
      for i := 0 to MAX_PROCESSES
        invariant count == 1 && lastStateId == 0 && lastFileId == 1
        invariant forall j :: 0 <= j < i ==> ids[j] == FREE && pids[j] == FREE
      {
        ids[i] := FREE;
        pids[i] := FREE;
      }
      ids[0] := 0;
      pids[0] := pid;
    }

    /** The first locked section of fork. */
    method TryReserve(max: nat) returns (ok: bool, index: nat)
      requires Valid()
      modifies this
      ensures (ok <==> old(count) != max) && index == old(lastFileId)
      ensures count == old(count) + (if ok then 1 else 0) && lastFileId == old(lastFileId) + (if ok then 1 else 0)
      ensures ok == CanReserve(old(Contents()), max)
      ensures Contents() == if ok then Reserve(old(Contents())) else old(Contents())
    {
      index := lastFileId;
      if count == max { return false, index; }
      lastFileId := lastFileId + 1;
      count := count + 1;
      ok := true;
    }

    method CancelReservation()
      requires Valid()
      modifies this
      ensures Contents() == Cancel(old(Contents())) && count == old(count) - 1
    {
      count := count - 1;
    }

    /** The locked section of the child: the first free slot. */
    method ClaimSlot(max: nat, index: nat, pid: int) returns (slot: nat)
      requires Valid() && max <= MAX_PROCESSES && exists i :: 0 <= i < max && ids[i] == FREE
      modifies ids, pids
      ensures slot < max && old(ids[slot]) == FREE && forall i :: 0 <= i < slot ==> old(ids[i]) != FREE
      ensures Contents() == Claim(old(Contents()), slot, index, pid)
    {
      slot := 0;
      while slot < max
        invariant 0 <= slot <= max && forall i :: 0 <= i < slot ==> ids[i] != FREE
        invariant Contents() == old(Contents())
      {
        if ids[slot] == FREE {
          ids[slot] := index;
          pids[slot] := pid;
          break;
        }
        slot := slot + 1;
      }
    }

    /** The locked section of the destructor. */
    method ReleaseSlot(slot: nat, index: nat)
      requires Valid() && slot < MAX_PROCESSES && ids[slot] == index
      modifies this, ids, pids
      ensures Contents() == Release(old(Contents()), slot)
    {
      ids[slot] := FREE;
      pids[slot] := FREE;
      count := count - 1;
    }

    /** checkDeadProcesses. */
    method ReapDead(max: nat, alive: set<int>)
      requires Valid() && max <= MAX_PROCESSES
      modifies this, ids, pids
      ensures Contents() == Reap(old(Contents()), alive, max)
    {
      for i := 0 to max
        invariant Contents() == Reap(old(Contents()), alive, i)
      {
        if pids[i] == FREE || pids[i] in alive {
          continue;
        }
        ids[i] := FREE;
        pids[i] := FREE;
        count := count - 1;
      }
    }

    method FetchAndIncrementStateId() returns (id: nat)
      requires Valid()
      modifies this
      ensures id == old(lastStateId) && Contents() == old(Contents()).(lastStateId := id + 1)
    {
      id := lastStateId;
      lastStateId := lastStateId + 1;
    }
  }

  function First(pid: int): Table {
    Table(1, 1, 0, seq(MAX_PROCESSES, i => if i == 0 then 0 else FREE),
      seq(MAX_PROCESSES, i => if i == 0 then pid else FREE))
  }
}
