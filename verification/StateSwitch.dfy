/** Where the contents of an execution state live while it is active or inactive, and in concrete or symbolic mode. */
module StateSwitch {
  import opened Expressions
  import opened Sequences

  /** The system part of the CPU state, among the objects saved on a switch. */
  const CPU_SYSTEM := 0

  datatype Register = Concrete(byte: nat) | Symbolic(expr: Expr)

  /** What a state means, wherever it is stored: the bytes of the saved objects, the registers, and the path condition
      under which the symbolic ones are read. */
  datatype Contents = Contents(objects: map<nat, seq<nat>>, registers: seq<Register>, constraints: seq<Expr>)

  /** One state: its own copies of the saved objects, its path condition, and its register object, where symbolic
      bytes are kept beside the bytes of the store. */
  class ExecState {
    var active: bool
    var runningConcrete: bool
    var store: map<nat, seq<nat>>
    var regStore: seq<nat>
    var symbolic: map<nat, Expr>
    var constraints: seq<Expr>

    constructor (store: map<nat, seq<nat>>, object_: RegisterObject, active: bool, runningConcrete: bool)
      ensures this.active == active && this.runningConcrete == runningConcrete
      ensures this.store == store && Object() == object_
    {
      this.store, regStore, symbolic, constraints := store, object_.store, object_.symbolic, object_.constraints;
      this.active, this.runningConcrete := active, runningConcrete;
    }

    function Object(): RegisterObject
      reads this
    {
      RegisterObject(symbolic, regStore, constraints)
    }
  }

  /** A register object, with the path condition its symbolic bytes depend on. */
  datatype RegisterObject = RegisterObject(symbolic: map<nat, Expr>, store: seq<nat>, constraints: seq<Expr>)

  function Registers(symbolic: map<nat, Expr>, bytes: seq<nat>): seq<Register> {
    seq(|bytes|, i requires 0 <= i < |bytes| => if i in symbolic then Symbolic(symbolic[i]) else Concrete(bytes[i]))
  }

  ghost predicate SameKeys(m: map<nat, seq<nat>>, n: map<nat, seq<nat>>) { forall o :: o in m <==> o in n }

  /** m agrees with n on the objects of a list and on the system part. */
  ghost predicate Agree(m: map<nat, seq<nat>>, n: map<nat, seq<nat>>, list: seq<nat>) {
    forall o :: o in m && o in n && (o == CPU_SYSTEM || o in list) ==> m[o] == n[o]
  }

  lemma AgreeEverywhere(m: map<nat, seq<nat>>, n: map<nat, seq<nat>>, list: seq<nat>)
    requires SameKeys(m, n) && Agree(m, n, list) && forall o :: o in m ==> o in list
    ensures m == n
  {
  }

  lemma AgreeStep(m: map<nat, seq<nat>>, n: map<nat, seq<nat>>, list: seq<nat>, k: nat, bytes: seq<nat>)
    requires k < |list| && Agree(m, n, list[..k]) && list[k] in n && bytes == n[list[k]]
    ensures Agree(m[list[k] := bytes], n, list[..k + 1])
  {
    assert list[..k + 1] == list[..k] + [list[k]];
  }

  lemma SystemStep(m: map<nat, seq<nat>>, n: map<nat, seq<nat>>, list: seq<nat>, k: nat)
    requires k < |list| && Agree(m, n, list[..k]) && list[k] == CPU_SYSTEM
    ensures Agree(m, n, list[..k + 1])
  {
    assert list[..k + 1] == list[..k] + [list[k]];
  }

  /** m still is n off the objects of a list and the system part. */
  ghost predicate Untouched(m: map<nat, seq<nat>>, n: map<nat, seq<nat>>, list: seq<nat>) {
    forall o :: o in m && o in n && o != CPU_SYSTEM && o !in list ==> m[o] == n[o]
  }

  lemma UntouchedStep(m: map<nat, seq<nat>>, n: map<nat, seq<nat>>, list: seq<nat>, k: nat, bytes: seq<nat>)
    requires k < |list| && Untouched(m, n, list[..k])
    ensures Untouched(m[list[k] := bytes], n, list[..k + 1]) && Untouched(m, n, list[..k + 1])
  {
    assert list[..k + 1] == list[..k] + [list[k]];
  }

  lemma NextNotYet(list: seq<nat>, k: nat)
    requires k < |list| && NoRepeats(list)
    ensures list[k] !in list[..k]
  {
  }

  /** The locations all states share: those of the saved objects and of the registers. */
  class Machine {
    var shared: map<nat, seq<nat>>
    var sharedRegs: seq<nat>
    const saveOnContextSwitch: seq<nat>
    var states: set<ExecState>
    var current: ExecState?   // the only state that may be active

    /** Shared locations if active, else its own copies; registers from the shared bytes if running concrete. */
    ghost function ContentsOf(s: ExecState): Contents
      reads this, s
    {
      Contents(if s.active then shared else s.store,
        Registers(s.symbolic, if s.runningConcrete then sharedRegs else s.regStore), s.constraints)
    }

    ghost predicate Shaped(s: ExecState)
      reads this, s
    {
      && SameKeys(s.store, shared) && |s.regStore| == |sharedRegs|
      && (s.runningConcrete ==> s.active)
    }

    /** The first state is active and runs concrete. */
    constructor (saved: map<nat, seq<nat>>, order: seq<nat>, regs: seq<nat>)
      requires CPU_SYSTEM in order && NoRepeats(order) && forall o :: o in saved <==> o in order
      ensures Valid() && current != null && fresh(current) && states == {current}
      ensures current.active && current.runningConcrete && current.Object() == RegisterObject(map[], regs, [])
      ensures sharedRegs == regs
      ensures ContentsOf(current) == Contents(saved, Registers(map[], regs), [])
    {
      var s := new ExecState(saved, RegisterObject(map[], regs, []), true, true);
      shared, sharedRegs, saveOnContextSwitch := saved, regs, order;
      states, current := {s}, s;
    }

    ghost predicate Valid()
      reads this, states
    {
      && CPU_SYSTEM in saveOnContextSwitch
      && NoRepeats(saveOnContextSwitch)
      && (forall o :: o in shared <==> o in saveOnContextSwitch)
      && (forall s {:trigger Shaped(s)} :: s in states ==> Shaped(s))
      && (forall s :: s in states && s.active ==> s == current)
    }

    /** The registers move to the shared bytes; the symbolic ones stay where they are. */
    method SwitchToConcrete(s: ExecState)
      requires Valid() && s in states && s.active && !s.runningConcrete
      modifies this`sharedRegs, s`runningConcrete
      ensures Valid() && s.runningConcrete
      ensures forall x :: x in states ==> ContentsOf(x) == old(ContentsOf(x))
    {
      assert Shaped(s);
      sharedRegs := s.regStore;
      s.runningConcrete := true;
      forall x | x in states ensures Shaped(x) && ContentsOf(x) == old(ContentsOf(x)) {
        assert old(Shaped(x));
      }
    }

    method SwitchToSymbolic(s: ExecState)
      requires Valid() && s in states && s.runningConcrete
      modifies s`regStore, s`runningConcrete
      ensures Valid() && !s.runningConcrete
      ensures forall x :: x in states ==> ContentsOf(x) == old(ContentsOf(x))
    {
      assert Shaped(s);
      s.regStore := sharedRegs;
      s.runningConcrete := false;
      forall x | x in states ensures Shaped(x) && ContentsOf(x) == old(ContentsOf(x)) {
        assert old(Shaped(x));
      }
    }

    /** Deactivate one state, activate another, or both. Nobody's contents change. */
    method DoStateSwitch(oldState: ExecState?, newState: ExecState?)
      requires Valid() && (oldState != null || newState != null)
      requires oldState != null ==> oldState in states && oldState.active
      requires newState != null ==> newState in states && !newState.active
      requires oldState == null ==> forall x :: x in states ==> !x.active
      modifies this`shared, this`current, oldState, newState
      ensures Valid() && states == old(states)
      ensures oldState != null ==> !oldState.active && !oldState.runningConcrete
      ensures newState != null ==> newState.active && !newState.runningConcrete
      ensures forall x :: x in states && x.active ==> x == newState
      ensures forall x :: x in states ==> ContentsOf(x) == old(ContentsOf(x))
    {
      assert newState != null ==> Shaped(newState);
      Exchange(oldState, newState);
      assert oldState != null ==> ContentsOf(oldState) == old(ContentsOf(oldState));
      assert newState != null ==> ContentsOf(newState) == old(ContentsOf(newState));
      forall x | x in states
        ensures Shaped(x) && (x != oldState && x != newState ==> ContentsOf(x) == old(ContentsOf(x)))
      {
        assert old(Shaped(x));
      }
    }

    /** The shared locations go to the old state's copies, and the new state's copies to the shared locations. */
    method Exchange(oldState: ExecState?, newState: ExecState?)
      requires Valid() && (oldState != null || newState != null)
      requires oldState != null ==> oldState in states && oldState.active
      requires newState != null ==> newState in states && !newState.active
      modifies this`shared, this`current, oldState, newState
      ensures current == newState && states == old(states)
      ensures shared == if newState != null then newState.store else old(shared)
      ensures oldState != null ==>
        && !oldState.active && !oldState.runningConcrete && oldState.store == old(shared)
        && |oldState.regStore| == |sharedRegs|
        && Registers(oldState.symbolic, oldState.regStore) == old(ContentsOf(oldState)).registers
        && oldState.constraints == old(oldState.constraints)
      ensures newState != null ==>
        && newState.active && newState.store == old(newState.store) && newState.regStore == old(newState.regStore)
        && newState.symbolic == old(newState.symbolic) && newState.constraints == old(newState.constraints)
        && newState.runningConcrete == old(newState.runningConcrete)
    {
      assert oldState != null ==> Shaped(oldState);
      assert newState != null ==> Shaped(newState);
      ghost var s0 := shared;
      if oldState != null { SaveOld(oldState); }
      if newState != null { Activate(newState); }
      CopyObjects(oldState, newState, s0);
      current := newState;
    }

    method Activate(s: ExecState)
      requires CPU_SYSTEM in s.store
      modifies this`shared, s`active
      ensures s.active && shared == old(shared)[CPU_SYSTEM := s.store[CPU_SYSTEM]]
    {
      shared := shared[CPU_SYSTEM := s.store[CPU_SYSTEM]];
      s.active := true;
    }

    /** Leave concrete mode, save the system part, and become inactive. */
    method SaveOld(s: ExecState)
      requires Valid() && s in states && s.active
      modifies s
      ensures !s.active && !s.runningConcrete && s.store == old(s.store)[CPU_SYSTEM := shared[CPU_SYSTEM]]
      ensures Registers(s.symbolic, s.regStore) == old(ContentsOf(s)).registers && |s.regStore| == |sharedRegs|
      ensures s.constraints == old(s.constraints)
    {
      assert Shaped(s);
      if s.runningConcrete { SwitchToSymbolic(s); }
      s.store := s.store[CPU_SYSTEM := shared[CPU_SYSTEM]];
      s.active := false;
    }

    /** The other saved objects: out to the old state, then in from the new one. */
    method CopyObjects(oldState: ExecState?, newState: ExecState?, ghost s0: map<nat, seq<nat>>)
      requires oldState != newState || oldState == null
      requires SameKeys(shared, s0) && CPU_SYSTEM in s0 && (forall o :: o in s0 <==> o in saveOnContextSwitch)
      requires oldState != null ==> SameKeys(oldState.store, s0) && Agree(oldState.store, s0, [])
      requires newState != null ==> SameKeys(newState.store, s0) && Agree(shared, newState.store, [])
      requires NoRepeats(saveOnContextSwitch) && Untouched(shared, s0, []) && (newState == null ==> shared == s0)
      modifies this`shared, oldState
      ensures newState != null ==> shared == newState.store
      ensures newState == null ==> shared == s0
      ensures oldState != null ==> oldState.store == s0 && OnlyStore(oldState)
    {
      var n := 0;
      while n < |saveOnContextSwitch|
        invariant 0 <= n <= |saveOnContextSwitch| && SameKeys(shared, s0)
        invariant Untouched(shared, s0, saveOnContextSwitch[..n])
        invariant newState == null ==> shared == s0
        invariant newState != null ==>
          && newState.store == old(newState.store)
          && Agree(shared, newState.store, saveOnContextSwitch[..n])
        invariant oldState != null ==>
          OnlyStore(oldState) && SameKeys(oldState.store, s0) && Agree(oldState.store, s0, saveOnContextSwitch[..n])
      {
        var mo := saveOnContextSwitch[n];
        CopyObject(oldState, newState, n, s0);
        n := n + 1;
      }
      assert saveOnContextSwitch[..n] == saveOnContextSwitch;
      if oldState != null { AgreeEverywhere(oldState.store, s0, saveOnContextSwitch); }
      if newState != null { AgreeEverywhere(shared, newState.store, saveOnContextSwitch); }
    }

    twostate predicate OnlyStore(s: ExecState)
      reads s
    {
      && s.active == old(s.active) && s.runningConcrete == old(s.runningConcrete)
      && s.regStore == old(s.regStore) && s.symbolic == old(s.symbolic) && s.constraints == old(s.constraints)
    }

    method CopyObject(oldState: ExecState?, newState: ExecState?, n: nat, ghost s0: map<nat, seq<nat>>)
      requires oldState != newState || oldState == null
      requires n < |saveOnContextSwitch| && NoRepeats(saveOnContextSwitch)
      requires SameKeys(shared, s0) && saveOnContextSwitch[n] in s0 && Untouched(shared, s0, saveOnContextSwitch[..n])
      requires newState == null ==> shared == s0
      requires newState != null ==>
        && SameKeys(newState.store, s0)
        && Agree(shared, newState.store, saveOnContextSwitch[..n])
      requires oldState != null ==> SameKeys(oldState.store, s0) && Agree(oldState.store, s0, saveOnContextSwitch[..n])
      modifies this`shared, oldState
      ensures SameKeys(shared, s0) && Untouched(shared, s0, saveOnContextSwitch[..n + 1])
      ensures newState == null ==> shared == s0
      ensures newState != null ==>
        && newState.store == old(newState.store)
        && Agree(shared, newState.store, saveOnContextSwitch[..n + 1])
      ensures oldState != null ==>
        OnlyStore(oldState) && SameKeys(oldState.store, s0) && Agree(oldState.store, s0, saveOnContextSwitch[..n + 1])
    {
      var mo := saveOnContextSwitch[n];
      NextNotYet(saveOnContextSwitch, n);
      UntouchedStep(shared, s0, saveOnContextSwitch, n, shared[mo]);
      if mo == CPU_SYSTEM {
        if oldState != null { SystemStep(oldState.store, s0, saveOnContextSwitch, n); }
        if newState != null { SystemStep(shared, newState.store, saveOnContextSwitch, n); }
        return;
      }
      if oldState != null { SaveOne(oldState, n, s0); }
      if newState != null { RestoreOne(newState, n, s0); }
    }

    method SaveOne(s: ExecState, n: nat, ghost s0: map<nat, seq<nat>>)
      requires n < |saveOnContextSwitch| && SameKeys(s.store, s0) && Agree(s.store, s0, saveOnContextSwitch[..n])
      requires var mo := saveOnContextSwitch[n]; mo in s0 && mo in shared && shared[mo] == s0[mo]
      modifies s`store
      ensures SameKeys(s.store, s0) && Agree(s.store, s0, saveOnContextSwitch[..n + 1])
    {
      var mo := saveOnContextSwitch[n];
      AgreeStep(s.store, s0, saveOnContextSwitch, n, shared[mo]);
      s.store := s.store[mo := shared[mo]];
    }

    method RestoreOne(s: ExecState, n: nat, ghost s0: map<nat, seq<nat>>)
      requires n < |saveOnContextSwitch| && SameKeys(shared, s0) && SameKeys(s.store, s0)
      requires saveOnContextSwitch[n] in s0
      requires Agree(shared, s.store, saveOnContextSwitch[..n]) && Untouched(shared, s0, saveOnContextSwitch[..n])
      modifies this`shared
      ensures SameKeys(shared, s0)
      ensures Agree(shared, s.store, saveOnContextSwitch[..n + 1])
      ensures Untouched(shared, s0, saveOnContextSwitch[..n + 1])
    {
      var mo := saveOnContextSwitch[n];
      AgreeStep(shared, s.store, saveOnContextSwitch, n, s.store[mo]);
      UntouchedStep(shared, s0, saveOnContextSwitch, n, s.store[mo]);
      shared := shared[mo := s.store[mo]];
    }

    /** Save the shared locations before a branch. */
    method NotifyBranch(s: ExecState)
      requires Valid() && s in states && s.active
      modifies s`store
      ensures Valid() && s.store == shared
      ensures forall x :: x in states ==> ContentsOf(x) == old(ContentsOf(x))
    {
      assert Shaped(s);
      s.store := s.store[CPU_SYSTEM := shared[CPU_SYSTEM]];
      var n := 0;
      while n < |saveOnContextSwitch|
        invariant 0 <= n <= |saveOnContextSwitch| && SameKeys(s.store, shared)
        invariant Agree(s.store, shared, saveOnContextSwitch[..n])
      {
        var mo := saveOnContextSwitch[n];
        AgreeStep(s.store, shared, saveOnContextSwitch, n, shared[mo]);
        s.store := s.store[mo := shared[mo]];
        n := n + 1;
      }
      assert saveOnContextSwitch[..n] == saveOnContextSwitch;
      AgreeEverywhere(s.store, shared, saveOnContextSwitch);
      forall x | x in states ensures Shaped(x) && ContentsOf(x) == old(ContentsOf(x)) {
        assert old(Shaped(x));
      }
    }

    /** A copy of a state, its flags included. */
    method Clone(s: ExecState) returns (ret: ExecState)
      ensures fresh(ret) && ret.active == s.active && ret.runningConcrete == s.runningConcrete
      ensures ret.store == s.store && ret.Object() == s.Object()
    {
      ret := new ExecState(s.store, s.Object(), s.active, s.runningConcrete);
    }

    /** A fork in symbolic mode: checkpoint, clone, and leave the clone inactive. It starts with the same contents. */
    method Fork(s: ExecState) returns (child: ExecState)
      requires Valid() && s in states && s.active && !s.runningConcrete
      modifies this`states, s`store
      ensures Valid() && fresh(child) && states == old(states) + {child} && !child.active && s.active
      ensures ContentsOf(child) == old(ContentsOf(s))
      ensures forall x :: x in old(states) ==> ContentsOf(x) == old(ContentsOf(x))
    {
      NotifyBranch(s);
      child := Clone(s);
      child.active := false;
      states := states + {child};
      assert old(Shaped(s));
      forall x | x in states ensures Shaped(x) {
        assert x != child ==> old(Shaped(x));
      }
    }

    /** A write to a saved object. */
    method WriteObject(s: ExecState, o: nat, bytes: seq<nat>)
      requires Valid() && s in states && o in shared
      modifies this`shared, s`store
      ensures Valid() && ContentsOf(s) == old(ContentsOf(s)).(objects := old(ContentsOf(s)).objects[o := bytes])
      ensures forall x :: x in states && x != s ==> ContentsOf(x) == old(ContentsOf(x))
    {
      assert Shaped(s);
      if s.active {
        shared := shared[o := bytes];
      } else {
        s.store := s.store[o := bytes];
      }
      forall x | x in states ensures Shaped(x) && (x != s ==> ContentsOf(x) == old(ContentsOf(x))) {
        assert old(Shaped(x));
      }
    }

    /** A new constraint on a state's path condition. */
    method AddConstraint(s: ExecState, e: Expr)
      requires Valid() && s in states
      modifies s`constraints
      ensures Valid() && ContentsOf(s) == old(ContentsOf(s)).(constraints := old(s.constraints) + [e])
      ensures forall x :: x in states && x != s ==> ContentsOf(x) == old(ContentsOf(x))
    {
      s.constraints := s.constraints + [e];
      forall x | x in states ensures Shaped(x) && (x != s ==> ContentsOf(x) == old(ContentsOf(x))) {
        assert old(Shaped(x));
      }
    }

    /** A concrete write to the registers from..from + |bytes| of the active state, as QEMU's helpers do it. */
    method WriteRegisterConcrete(s: ExecState, from: nat, bytes: seq<nat>)
      requires Valid() && s in states && s.active && from + |bytes| <= |sharedRegs| == |s.regStore|
      modifies this`sharedRegs, s`regStore, s`symbolic
      ensures Valid()
      ensures ContentsOf(s) == old(ContentsOf(s)).(registers :=
                AfterWrite(old(s.runningConcrete), old(s.Object()), old(sharedRegs), from, bytes))
      ensures forall x :: x in states && x != s ==> ContentsOf(x) == old(ContentsOf(x))
    {
      assert Shaped(s);
      if !s.runningConcrete || exists i :: from <= i < from + |bytes| && i in s.symbolic {
        s.regStore := Overlaid(s.regStore, from, bytes);
        s.symbolic := Cleared(s.symbolic, from, |bytes|);
      } else {
        sharedRegs := Overlaid(sharedRegs, from, bytes);
      }
      forall x | x in states ensures Shaped(x) && (x != s ==> ContentsOf(x) == old(ContentsOf(x))) {
        assert old(Shaped(x));
      }
    }

    /** A concrete read of n registers of the active state by QEMU's helpers; symbolic ones are given a value. */
    method ReadRegisterConcrete(s: ExecState, from: nat, n: nat, solver: Solver) returns (bytes: seq<nat>)
      requires Valid() && s in states && s.active && from + n <= |sharedRegs| == |s.regStore|
      modifies s`regStore, s`symbolic, s`constraints
      ensures Valid()
      ensures (s.Object(), bytes) == AfterRead(s.runningConcrete, old(s.Object()), sharedRegs, from, n, solver)
      ensures forall x :: x in states && x != s ==> ContentsOf(x) == old(ContentsOf(x))
    {
      assert Shaped(s);
      if !s.runningConcrete || exists i :: from <= i < from + n && i in s.symbolic {
        bytes := ForceBytes(s, from, n, solver);
      } else {
        bytes := sharedRegs[from..from + n];
      }
      forall x | x in states ensures Shaped(x) && (x != s ==> ContentsOf(x) == old(ContentsOf(x))) {
        assert old(Shaped(x));
      }
    }

    method ForceBytes(s: ExecState, from: nat, n: nat, solver: Solver) returns (bytes: seq<nat>)
      requires from + n <= |s.regStore|
      modifies s`regStore, s`symbolic, s`constraints
      ensures s.Object() == ForcedRange(old(s.Object()), from, n, solver) && bytes == s.regStore[from..from + n]
    {
      bytes := [];
      ghost var r := s.Object();
      for i := 0 to n
        invariant s.Object() == ForcedRange(r, from, i, solver) && |bytes| == i
        invariant |s.regStore| == |r.store| && forall j :: 0 <= j < i ==> bytes[j] == s.regStore[from + j]
      {
        var b := ForceByte(s, from + i, solver);
        bytes := bytes + [b];
      }
    }

    method ForceByte(s: ExecState, i: nat, solver: Solver) returns (b: nat)
      requires i < |s.regStore|
      modifies s`regStore, s`symbolic, s`constraints
      ensures s.Object() == Forced(old(s.Object()), i, solver) && s.regStore == old(s.regStore)[i := b]
    {
      if i in s.symbolic {
        var e := s.symbolic[i];
        var v := solver(s.constraints, e);
        s.constraints := s.constraints + [Eq(e, Const(v))];
        s.symbolic, s.regStore := s.symbolic - {i}, s.regStore[i := v];
      }
      b := s.regStore[i];
    }

    /** A write of a value, symbolic or not, to the object of a register. */
    method WriteRegisterSymbolic(s: ExecState, i: nat, e: Expr)
      requires Valid() && s in states && i < |s.regStore|
      modifies s`regStore, s`symbolic
      ensures Valid() && s.Object() == WithByte(old(s.Object()), i, e)
      ensures forall x :: x in states && x != s ==> ContentsOf(x) == old(ContentsOf(x))
    {
      assert Shaped(s);
      if e.Const? {
        s.symbolic, s.regStore := s.symbolic - {i}, s.regStore[i := e.value];
      } else {
        s.symbolic := s.symbolic[i := e];
      }
      forall x | x in states ensures Shaped(x) && (x != s ==> ContentsOf(x) == old(ContentsOf(x))) {
        assert old(Shaped(x));
      }
    }

    /** A write of a value, given by its bytes, to registers of this state: to the object, or, while the state
        runs concrete and they are all concrete, to the shared bytes; ok is false if it must be a constant then
        and is not. */
    method WriteCpuRegister(s: ExecState, from: nat, values: seq<Expr>) returns (ok: bool)
      requires Valid() && s in states
      requires from + |values| <= |sharedRegs| == |s.regStore|
      modifies this`sharedRegs, s`regStore, s`symbolic
      ensures Valid() && (ok <==> old(InObject(s.runningConcrete, s.symbolic, from, |values|)) || AllConst(values))
      ensures ok ==>
        ContentsOf(s).registers ==
          AfterCpuWrite(old(s.runningConcrete), old(s.Object()), old(sharedRegs), from, values)
      ensures ContentsOf(s) == old(ContentsOf(s)).(registers := ContentsOf(s).registers)
      ensures !ok ==> ContentsOf(s) == old(ContentsOf(s))
      ensures forall x :: x in states && x != s ==> ContentsOf(x) == old(ContentsOf(x))
    {
      assert Shaped(s);
      ok := true;
      if !s.runningConcrete || exists i :: from <= i < from + |values| && i in s.symbolic {
        WriteObjectBytes(s, from, values);
      } else if AllConst(values) {
        sharedRegs := Overlaid(sharedRegs, from, ValuesOf(values));
      } else {
        ok := false;
      }
      forall x | x in states ensures Shaped(x) && (x != s ==> ContentsOf(x) == old(ContentsOf(x))) {
        assert old(Shaped(x));
      }
    }

    method WriteObjectBytes(s: ExecState, from: nat, values: seq<Expr>)
      requires from + |values| <= |s.regStore|
      modifies s`regStore, s`symbolic
      ensures s.Object() == WithBytes(old(s.Object()), from, values)
    {
      for k := 0 to |values|
        invariant s.Object() == WithBytes(old(s.Object()), from, values[..k])
      {
        var i, e := from + k, values[k];
        if e.Const? {
          s.symbolic, s.regStore := s.symbolic - {i}, s.regStore[i := e.value];
        } else {
          s.symbolic := s.symbolic[i := e];
        }
        assert values[..k + 1][..k] == values[..k];
      }
      assert values[..|values|] == values;
    }
  }

  predicate AllConst(values: seq<Expr>) { forall k :: 0 <= k < |values| ==> values[k].Const? }

  function ValuesOf(values: seq<Expr>): (r: seq<nat>)
    requires AllConst(values)
    ensures |r| == |values| && forall k :: 0 <= k < |r| ==> r[k] == values[k].value
  {
    seq(|values|, k requires 0 <= k < |values| => values[k].value)
  }

  /** The bytes of a value, written one after the other. */
  function WithBytes(r: RegisterObject, from: nat, values: seq<Expr>): (t: RegisterObject)
    requires from + |values| <= |r.store|
    ensures |t.store| == |r.store|
  {
    if values == [] then r
    else
      var last := |values| - 1;
      WithByte(WithBytes(r, from, values[..last]), from + last, values[last])
  }

  lemma {:induction false} WithBytesAt(r: RegisterObject, from: nat, values: seq<Expr>, i: nat)
    requires from + |values| <= |r.store| && i < |r.store|
    ensures RegisterAt(WithBytes(r, from, values), i)
         == if from <= i < from + |values| then RegisterOf(values[i - from]) else RegisterAt(r, i)
  {
    if values == [] {
    } else {
      var last := |values| - 1;
      WithBytesAt(r, from, values[..last], i);
      assert from <= i < from + last ==> values[..last][i - from] == values[i - from];
    }
  }

  /** What byte i of an object holds. */
  function RegisterAt(r: RegisterObject, i: nat): Register
    requires i < |r.store|
  {
    if i in r.symbolic then Symbolic(r.symbolic[i]) else Concrete(r.store[i])
  }

  function RegisterOf(e: Expr): Register { if e.Const? then Concrete(e.value) else Symbolic(e) }

  /** What the registers hold after such a write. */
  ghost function AfterCpuWrite(concrete: bool, r: RegisterObject, shared: seq<nat>, from: nat,
                               values: seq<Expr>): seq<Register>
    requires from + |values| <= |r.store| == |shared|
    requires InObject(concrete, r.symbolic, from, |values|) || AllConst(values)
  {
    if InObject(concrete, r.symbolic, from, |values|) then
      var t := WithBytes(r, from, values);
      Registers(t.symbolic, if concrete then shared else t.store)
    else
      Registers(r.symbolic, Overlaid(shared, from, ValuesOf(values)))
  }

  /** The bytes of a value are what the registers hold, and the others are as before. */
  ghost predicate HoldingValue(after: seq<Register>, before: seq<Register>, from: nat, values: seq<Expr>) {
    && |after| == |before|
    && forall i :: 0 <= i < |after| ==>
         after[i] == if from <= i < from + |values| then RegisterOf(values[i - from]) else before[i]
  }

  /** Such a write takes effect exactly when it does not meet a symbolic byte while the state runs concrete, or when the
      shared bytes happen to be what it has constants for. */
  lemma CpuRegisterWriteTakesEffect(concrete: bool, r: RegisterObject, shared: seq<nat>, from: nat, values: seq<Expr>)
    requires from + |values| <= |r.store| == |shared|
    requires InObject(concrete, r.symbolic, from, |values|) || AllConst(values)
    ensures HoldingValue(AfterCpuWrite(concrete, r, shared, from, values),
      Registers(r.symbolic, if concrete then shared else r.store), from, values)
       <==> !Mixed(concrete, r, from, |values|)
            || forall k :: 0 <= k < |values| && values[k].Const? ==> shared[from + k] == values[k].value
  {
    var after := AfterCpuWrite(concrete, r, shared, from, values);
    var before := Registers(r.symbolic, if concrete then shared else r.store);
    if InObject(concrete, r.symbolic, from, |values|) {
      var t := WithBytes(r, from, values);
      forall i: nat | i < |r.store|
        ensures RegisterAt(t, i)
             == if from <= i < from + |values| then RegisterOf(values[i - from]) else RegisterAt(r, i)
      {
        WithBytesAt(r, from, values, i);
      }
      forall i | 0 <= i < |after|
        ensures after[i] ==
          if RegisterAt(t, i).Symbolic? || !concrete then RegisterAt(t, i) else Concrete(shared[i])
        ensures before[i] == if RegisterAt(r, i).Symbolic? || !concrete then RegisterAt(r, i) else Concrete(shared[i])
      {
      }
      forall k | 0 <= k < |values|
        ensures after[from + k] == RegisterOf(values[k]) <==>
          !(concrete && values[k].Const?) || shared[from + k] == values[k].value
      {
        var i := from + k;
        assert RegisterAt(t, i) == RegisterOf(values[i - from]);
      }
      if forall k :: 0 <= k < |values| ==> after[from + k] == RegisterOf(values[k]) {
        forall i | 0 <= i < |after|
          ensures after[i] == if from <= i < from + |values| then RegisterOf(values[i - from]) else before[i]
        {
          if from <= i < from + |values| {
            var k := i - from;
            assert after[from + k] == RegisterOf(values[k]);
          } else {
            assert RegisterAt(t, i) == RegisterAt(r, i);
          }
        }
      } else {
        var k :| 0 <= k < |values| && after[from + k] != RegisterOf(values[k]);
        assert values[from + k - from] == values[k];
      }
    }
  }

  function WithByte(r: RegisterObject, i: nat, e: Expr): RegisterObject
    requires i < |r.store|
  {
    if e.Const? then RegisterObject(r.symbolic - {i}, r.store[i := e.value], r.constraints)
    else r.(symbolic := r.symbolic[i := e])
  }

  /** A symbolic value written to the object is what the register holds, in either mode; a constant one is unless the
      state runs concrete and the shared byte is another. */
  lemma SymbolicWriteTakesEffect(concrete: bool, r: RegisterObject, shared: seq<nat>, i: nat, e: Expr)
    requires i < |r.store| == |shared|
    ensures var t := WithByte(r, i, e);
      Registers(t.symbolic, if concrete then shared else t.store) ==
        Registers(r.symbolic, if concrete then shared else r.store)
          [i := if e.Const? then Concrete(e.value) else Symbolic(e)]
      <==> !(concrete && e.Const?) || shared[i] == e.value
  {
    var t := WithByte(r, i, e);
    var after := Registers(t.symbolic, if concrete then shared else t.store);
    assert concrete && e.Const? ==> after[i] == Concrete(shared[i]);
  }

  /** bytes written over s from an index on. */
  function Overlaid(s: seq<nat>, from: nat, bytes: seq<nat>): (r: seq<nat>)
    requires from + |bytes| <= |s|
    ensures |r| == |s|
    ensures forall i :: 0 <= i < |s| ==> r[i] == if from <= i < from + |bytes| then bytes[i - from] else s[i]
  {
    s[..from] + bytes + s[from + |bytes|..]
  }

  /** The symbolic bytes outside a range. */
  function Cleared(symbolic: map<nat, Expr>, from: nat, n: nat): (r: map<nat, Expr>)
    ensures forall i :: i in r <==> i in symbolic && !(from <= i < from + n)
    ensures forall i :: i in r ==> r[i] == symbolic[i]
  {
    symbolic - set i | i in symbolic && from <= i < from + n
  }

  /** Does a register write go to the register object? */
  predicate InObject(runningConcrete: bool, symbolic: map<nat, Expr>, from: nat, n: nat) {
    !runningConcrete || exists i :: from <= i < from + n && i in symbolic
  }

  /** What the registers hold after such a write. */
  ghost function AfterWrite(concrete: bool, r: RegisterObject, shared: seq<nat>, from: nat,
                            bytes: seq<nat>): seq<Register>
    requires from + |bytes| <= |r.store| == |shared|
  {
    if InObject(concrete, r.symbolic, from, |bytes|) then
      Registers(Cleared(r.symbolic, from, |bytes|), if concrete then shared else Overlaid(r.store, from, bytes))
    else
      Registers(r.symbolic, Overlaid(shared, from, bytes))
  }

  /** The registers that go through the object while the state runs concrete: some of them are symbolic. */
  predicate Mixed(concrete: bool, r: RegisterObject, from: nat, n: nat) {
    concrete && exists i :: from <= i < from + n && i in r.symbolic
  }

  /** The bytes are what the registers hold, and the others are as before. */
  ghost predicate Holding(after: seq<Register>, before: seq<Register>, from: nat, bytes: seq<nat>) {
    && |after| == |before|
    && forall i :: 0 <= i < |after| ==>
         after[i] == if from <= i < from + |bytes| then Concrete(bytes[i - from]) else before[i]
  }

  lemma HoldingShared(after: seq<Register>, before: seq<Register>, shared: seq<nat>, from: nat, bytes: seq<nat>)
    requires from + |bytes| <= |shared| == |after| == |before|
    requires forall i :: 0 <= i < |after| ==>
      after[i] == if from <= i < from + |bytes| then Concrete(shared[i]) else before[i]
    ensures Holding(after, before, from, bytes) <==> shared[from..from + |bytes|] == bytes
  {
    var part := shared[from..from + |bytes|];
    if Holding(after, before, from, bytes) {
      forall j | 0 <= j < |bytes| ensures part[j] == bytes[j] {
        assert after[from + j] == Concrete(bytes[from + j - from]);
      }
    } else {
      var i :| 0 <= i < |after|
        && after[i] != if from <= i < from + |bytes| then Concrete(bytes[i - from]) else before[i];
      assert part[i - from] == shared[i];
    }
  }

  /** A write takes effect exactly when it does not meet a symbolic byte while the state runs concrete, unless the
      shared bytes happen to be the ones written: then they, not the object, are what the state reads. */
  lemma RegisterWriteTakesEffect(concrete: bool, r: RegisterObject, shared: seq<nat>, from: nat, bytes: seq<nat>)
    requires from + |bytes| <= |r.store| == |shared|
    ensures Holding(AfterWrite(concrete, r, shared, from, bytes),
      Registers(r.symbolic, if concrete then shared else r.store), from, bytes)
       <==> !Mixed(concrete, r, from, |bytes|) || shared[from..from + |bytes|] == bytes
  {
    if Mixed(concrete, r, from, |bytes|) {
      HoldingShared(AfterWrite(concrete, r, shared, from, bytes), Registers(r.symbolic, shared), shared, from, bytes);
    }
  }

  /** Byte i with a value that the solver gives it, and that it keeps. */
  function Forced(r: RegisterObject, i: nat, solver: Solver): (t: RegisterObject)
    requires i < |r.store|
    ensures |t.store| == |r.store|
  {
    if i !in r.symbolic then r
    else
      var v := solver(r.constraints, r.symbolic[i]);
      RegisterObject(r.symbolic - {i}, r.store[i := v], r.constraints + [Eq(r.symbolic[i], Const(v))])
  }

  /** The n bytes from an index on, one after the other. */
  function ForcedRange(r: RegisterObject, from: nat, n: nat, solver: Solver): (t: RegisterObject)
    requires from + n <= |r.store|
    ensures |t.store| == |r.store|
  {
    if n == 0 then r else Forced(ForcedRange(r, from, n - 1, solver), from + (n - 1), solver)
  }

  /** The symbolic bytes of the range become concrete; everything else stays. */
  lemma {:induction false} ForcedRangeShape(r: RegisterObject, from: nat, n: nat, solver: Solver)
    requires from + n <= |r.store|
    ensures var t := ForcedRange(r, from, n, solver);
      && (forall i :: i in t.symbolic <==> i in r.symbolic && !(from <= i < from + n))
      && (forall i :: i in t.symbolic ==> t.symbolic[i] == r.symbolic[i])
      && forall i :: 0 <= i < |t.store| && !(from <= i < from + n && i in r.symbolic) ==> t.store[i] == r.store[i]
  {
    if n == 0 {
    } else {
      ForcedRangeShape(r, from, n - 1, solver);
    }
  }

  /** The register object after a concrete read, and the bytes read. */
  function AfterRead(concrete: bool, r: RegisterObject, shared: seq<nat>, from: nat, n: nat,
                     solver: Solver): (RegisterObject, seq<nat>)
    requires from + n <= |r.store| == |shared|
  {
    if InObject(concrete, r.symbolic, from, n) then
      var t := ForcedRange(r, from, n, solver);
      (t, t.store[from..from + n])
    else
      (r, shared[from..from + n])
  }

  /** A read gives what the registers hold, from then on too, exactly under the same condition as a write: it must not
      meet a symbolic byte while the state runs concrete, unless the shared bytes happen to be the ones read. */
  lemma RegisterReadTakesEffect(concrete: bool, r: RegisterObject, shared: seq<nat>, from: nat, n: nat, solver: Solver)
    requires from + n <= |r.store| == |shared|
    ensures var (t, bytes) := AfterRead(concrete, r, shared, from, n, solver);
      Holding(Registers(t.symbolic, if concrete then shared else t.store),
        Registers(r.symbolic, if concrete then shared else r.store), from, bytes)
      <==> !Mixed(concrete, r, from, n) || shared[from..from + n] == bytes
  {
    var (t, bytes) := AfterRead(concrete, r, shared, from, n, solver);
    ForcedRangeShape(r, from, n, solver);
    if Mixed(concrete, r, from, n) {
      HoldingShared(Registers(t.symbolic, shared), Registers(r.symbolic, shared), shared, from, bytes);
    } else if InObject(concrete, r.symbolic, from, n) {
      assert forall i :: from <= i < from + n ==> t.store[i] == bytes[i - from];
    }
  }

  /** The registers are as they were, and those read hold the bytes read. */
  ghost predicate ReadTakesEffect(concrete: bool, r: RegisterObject, shared: seq<nat>, from: nat, n: nat,
                                  solver: Solver)
    requires from + n <= |r.store| == |shared|
  {
    var (t, bytes) := AfterRead(concrete, r, shared, from, n, solver);
    Holding(Registers(t.symbolic, if concrete then shared else t.store),
      Registers(r.symbolic, if concrete then shared else r.store), from, bytes)
  }

  /** The shared bytes of a range are what the object has: the same bytes, and for each symbolic one the only value that
      the path condition leaves it. */
  ghost predicate Agreeing(r: RegisterObject, shared: seq<nat>, from: nat, n: nat)
    requires from + n <= |r.store| == |shared|
  {
    && Satisfiable(r.constraints)
    && forall i {:trigger shared[i]} :: from <= i < from + n ==>
         if i in r.symbolic then Entails(r.constraints, Eq(r.symbolic[i], Const(shared[i])))
           else r.store[i] == shared[i]
  }

  /** A read takes effect, whatever values the solver finds, exactly when it does not meet a symbolic byte while the
      state runs concrete, or when the shared bytes agree with the object. */
  lemma ReadAlwaysTakesEffect(concrete: bool, r: RegisterObject, shared: seq<nat>, from: nat, n: nat)
    requires from + n <= |r.store| == |shared|
    ensures (forall solver {:trigger Sound(solver)} ::
               Sound(solver) ==> ReadTakesEffect(concrete, r, shared, from, n, solver))
       <==> !Mixed(concrete, r, from, n) || Agreeing(r, shared, from, n)
  {
    forall solver: Solver | Sound(solver) && (!Mixed(concrete, r, from, n) || Agreeing(r, shared, from, n))
      ensures ReadTakesEffect(concrete, r, shared, from, n, solver)
    {
      RegisterReadTakesEffect(concrete, r, shared, from, n, solver);
      if Mixed(concrete, r, from, n) { AgreeingRead(r, shared, from, n, solver); }
    }
    if Mixed(concrete, r, from, n) && !Agreeing(r, shared, from, n) {
      var solver := DisagreeingRead(r, shared, from, n);
      RegisterReadTakesEffect(concrete, r, shared, from, n, solver);
    }
  }

  lemma AgreeingRead(r: RegisterObject, shared: seq<nat>, from: nat, n: nat, solver: Solver)
    requires from + n <= |r.store| == |shared| && Sound(solver) && Agreeing(r, shared, from, n)
    ensures shared[from..from + n] == ForcedRange(r, from, n, solver).store[from..from + n]
  {
    var t := ForcedRange(r, from, n, solver);
    ForcedRangeShape(r, from, n, solver);
    ForcedRangeNarrows(r, from, n, solver);
    var a: Assignment :| Meets(a, t.constraints);
    assert Meets(a, r.constraints) && HasValues(r, t, from, n, a);
    forall i | from <= i < from + n ensures shared[i] == t.store[i] {
      if i in r.symbolic {
        assert Holds(Eq(r.symbolic[i], Const(shared[i])), a);
        assert Eval(Eq(r.symbolic[i], Const(shared[i])), a) == Truth(Eval(r.symbolic[i], a) == shared[i]);
      }
    }
  }

  /** A solver that makes a read differ from the shared bytes. */
  lemma DisagreeingRead(r: RegisterObject, shared: seq<nat>, from: nat, n: nat) returns (solver: Solver)
    requires from + n <= |r.store| == |shared| && Mixed(true, r, from, n) && !Agreeing(r, shared, from, n)
    ensures Sound(solver) && shared[from..from + n] != ForcedRange(r, from, n, solver).store[from..from + n]
  {
    var i: nat;
    if !Satisfiable(r.constraints) {
      i :| from <= i < from + n && i in r.symbolic;
      solver := DisagreeingWithout(r, shared[i], from, n, i);
    } else {
      i :| from <= i < from + n && !(
        if i in r.symbolic then Entails(r.constraints, Eq(r.symbolic[i], Const(shared[i])))
          else r.store[i] == shared[i]);
      solver := DisagreeingAt(r, shared[i], from, n, i);
    }
    var t := ForcedRange(r, from, n, solver);
    assert t.store[from..from + n][i - from] == t.store[i] && shared[from..from + n][i - from] == shared[i];
  }

  lemma DisagreeingWithout(r: RegisterObject, v: nat, from: nat, n: nat, i: nat) returns (solver: Solver)
    requires from <= i < from + n <= |r.store| && i in r.symbolic && !Satisfiable(r.constraints)
    ensures Sound(solver) && v != ForcedRange(r, from, n, solver).store[i]
  {
    solver := Answering(_ => 0, v + 1);
    AnsweringIsSound(_ => 0, v + 1);
    ForcedWithout(r, from, n, _ => 0, v + 1, i);
  }

  lemma DisagreeingAt(r: RegisterObject, v: nat, from: nat, n: nat, i: nat) returns (solver: Solver)
    requires from <= i < from + n <= |r.store|
    requires if i in r.symbolic then !Entails(r.constraints, Eq(r.symbolic[i], Const(v))) else r.store[i] != v
    ensures Sound(solver) && v != ForcedRange(r, from, n, solver).store[i]
  {
    var a: Assignment := _ => 0;
    if i in r.symbolic {
      a :| Meets(a, r.constraints) && !Holds(Eq(r.symbolic[i], Const(v)), a);
      assert Eval(Eq(r.symbolic[i], Const(v)), a) == Truth(Eval(r.symbolic[i], a) == v);
    }
    solver := Answering(a, 0);
    AnsweringIsSound(a, 0);
    ForcedRangeShape(r, from, n, solver);
    if i in r.symbolic {
      ForcedByAnswers(r, from, n, a, 0);
      ForcedRangeNarrows(r, from, n, solver);
      assert HasValues(r, ForcedRange(r, from, n, solver), from, n, a);
    }
  }

  /** The solver that goes by one assignment where it can; d is what it says of constraints that cannot be met. */
  ghost function Answering(a: Assignment, d: nat): Solver { (cs, e) => Answer(a, d, cs, e) }

  ghost function Answer(a: Assignment, d: nat, cs: seq<Expr>, e: Expr): nat {
    if Meets(a, cs) then Eval(e, a)
    else if Satisfiable(cs) then var b: Assignment :| Meets(b, cs); Eval(e, b)
    else d
  }

  lemma AnsweringIsSound(a: Assignment, d: nat)
    ensures Sound(Answering(a, d))
  {
    forall cs, e | Satisfiable(cs) ensures Possible(cs, e, Answering(a, d)(cs, e)) {
      assert Answering(a, d)(cs, e) == Answer(a, d, cs, e);
    }
  }

  /** The assignment goes on meeting the constraints. */
  lemma {:induction false} ForcedByAnswers(r: RegisterObject, from: nat, n: nat, a: Assignment, d: nat)
    requires from + n <= |r.store| && Meets(a, r.constraints)
    ensures Meets(a, ForcedRange(r, from, n, Answering(a, d)).constraints)
  {
    if n == 0 {
    } else {
      ForcedByAnswers(r, from, n - 1, a, d);
      ForcedOnce(ForcedRange(r, from, n - 1, Answering(a, d)), from + (n - 1), a, d);
    }
  }

  lemma ForcedOnce(r: RegisterObject, i: nat, a: Assignment, d: nat)
    requires i < |r.store| && Meets(a, r.constraints)
    ensures Meets(a, Forced(r, i, Answering(a, d)).constraints)
  {
    if i in r.symbolic {
      var e := r.symbolic[i];
      assert Answering(a, d)(r.constraints, e) == Answer(a, d, r.constraints, e) == Eval(e, a);
      EqualityMeaning(r.constraints, e, Eval(e, a));
    }
  }

  /** Under constraints that cannot be met every byte read is the same. */
  lemma {:induction false} ForcedWithout(r: RegisterObject, from: nat, n: nat, a: Assignment, d: nat, i: nat)
    requires from + n <= |r.store| && !Satisfiable(r.constraints)
    ensures var t := ForcedRange(r, from, n, Answering(a, d));
      !Satisfiable(t.constraints) && (from <= i < from + n && i in r.symbolic ==> t.store[i] == d)
  {
    if n == 0 {
    } else {
      ForcedWithout(r, from, n - 1, a, d, i);
      ForcedRangeShape(r, from, n - 1, Answering(a, d));
      ForcedOnceWithout(ForcedRange(r, from, n - 1, Answering(a, d)), from + (n - 1), a, d);
    }
  }

  lemma ForcedOnceWithout(r: RegisterObject, i: nat, a: Assignment, d: nat)
    requires i < |r.store| && !Satisfiable(r.constraints)
    ensures var t := Forced(r, i, Answering(a, d));
      !Satisfiable(t.constraints) && (i in r.symbolic ==> t.store[i] == d)
  {
    if i in r.symbolic {
      assert Answering(a, d)(r.constraints, r.symbolic[i]) == Answer(a, d, r.constraints, r.symbolic[i]) == d;
      EqualityMeaning(r.constraints, r.symbolic[i], d);
    }
  }

  /** What a read adds to the path condition: that the symbolic bytes have the values read. */
  lemma {:induction false} ForcedRangeNarrows(r: RegisterObject, from: nat, n: nat, solver: Solver)
    requires from + n <= |r.store| && Sound(solver)
    ensures var t := ForcedRange(r, from, n, solver);
      && (Satisfiable(r.constraints) ==> Satisfiable(t.constraints))
      && forall a :: Meets(a, t.constraints) <==> Meets(a, r.constraints) && HasValues(r, t, from, n, a)
  {
    if n == 0 {
    } else {
      ForcedRangeNarrows(r, from, n - 1, solver);
      ForcedRangeShape(r, from, n - 1, solver);
      var before := ForcedRange(r, from, n - 1, solver);
      ForcedNarrows(before, from + (n - 1), solver);
      var t := ForcedRange(r, from, n, solver);
      forall a ensures Meets(a, t.constraints) <==> Meets(a, r.constraints) && HasValues(r, t, from, n, a) {
        assert HasValues(r, t, from, n, a) <==>
          && HasValues(r, before, from, n - 1, a)
          && HasValues(before, t, from + (n - 1), 1, a);
      }
    }
  }

  /** The symbolic bytes of a range have the values they were given. */
  ghost predicate HasValues(r: RegisterObject, t: RegisterObject, from: nat, n: nat, a: Assignment)
    requires from + n <= |t.store|
  {
    forall i :: from <= i < from + n && i in r.symbolic ==> Eval(r.symbolic[i], a) == t.store[i]
  }

  lemma ForcedNarrows(r: RegisterObject, i: nat, solver: Solver)
    requires i < |r.store| && Sound(solver)
    ensures var t := Forced(r, i, solver);
      && (Satisfiable(r.constraints) ==> Satisfiable(t.constraints))
      && forall a :: Meets(a, t.constraints) <==> Meets(a, r.constraints) && HasValues(r, t, i, 1, a)
  {
    if i in r.symbolic {
      var t := Forced(r, i, solver);
      EqualityMeaning(r.constraints, r.symbolic[i], t.store[i]);
      if Satisfiable(r.constraints) {
        var a :| Meets(a, r.constraints) && Eval(r.symbolic[i], a) == t.store[i];
        assert Meets(a, t.constraints);
      }
    }
  }

  lemma EqualityMeaning(cs: seq<Expr>, e: Expr, v: nat)
    ensures forall a :: Meets(a, cs + [Eq(e, Const(v))]) <==> Meets(a, cs) && Eval(e, a) == v
  {
    forall a ensures Meets(a, cs + [Eq(e, Const(v))]) <==> Meets(a, cs) && Eval(e, a) == v {
      MeetsOneMore(a, cs, Eq(e, Const(v)));
      assert Eval(Eq(e, Const(v)), a) == Truth(Eval(e, a) == v);
    }
  }

  /** A state that runs concrete, with a symbolic register that can only be 1, over a shared byte that is 0. */
  method SymbolicWhileConcrete() returns (m: Machine, s: ExecState)
    ensures fresh(m) && fresh(s) && m.Valid() && m.states == {s} && s.active && s.runningConcrete && m.sharedRegs == [0]
    ensures |s.regStore| == 1 && s.symbolic == map[0 := Var(0)] && s.constraints == [Eq(Var(0), Const(1))]
  {
    m := new Machine(map[CPU_SYSTEM := []], [CPU_SYSTEM], [0]);
    s := m.current;
    assert m.Shaped(s);
    m.AddConstraint(s, Eq(Var(0), Const(1)));
    m.WriteRegisterSymbolic(s, 0, Var(0));
    assert m.Shaped(s);
  }

  /** Reading that register gives 1, but the register then holds 0. */
  method ReadIsLost(solver: Solver) returns (bytes: seq<nat>, now: seq<Register>)
    requires Sound(solver)
    ensures bytes == [1] && now == [Concrete(0)]
  {
    var m, s := SymbolicWhileConcrete();
    OnlyOne(solver);
    ghost var r := s.Object();
    assert ForcedRange(r, 0, 1, solver) == Forced(ForcedRange(r, 0, 0, solver), 0, solver) && 0 in r.symbolic;
    bytes := m.ReadRegisterConcrete(s, 0, 1, solver);
    now := Registers(s.symbolic, m.sharedRegs);
  }

  lemma OnlyOne(solver: Solver)
    requires Sound(solver)
    ensures solver([Eq(Var(0), Const(1))], Var(0)) == 1
  {
    var cs := [Eq(Var(0), Const(1))];
    assert Meets(_ => 1, cs);
    var a :| Meets(a, cs) && Eval(Var(0), a) == solver(cs, Var(0));
    assert Holds(cs[0], a);
  }

  /** Writing 1 to it leaves it 0. */
  method WriteIsLost() returns (now: seq<Register>)
    ensures now == [Concrete(0)]
  {
    var m, s := SymbolicWhileConcrete();
    ghost var r := s.Object();
    assert 0 in r.symbolic;
    m.WriteRegisterConcrete(s, 0, [1]);
    now := Registers(s.symbolic, m.sharedRegs);
    assert now == m.ContentsOf(s).registers;
  }

  /** Putting the constant 1 in its place leaves it 0, whether the object is written directly or in passing. */
  method SymbolicWriteIsLost() returns (now: seq<Register>, after: seq<Register>)
    ensures now == [Concrete(0)] && after == [Concrete(0)]
  {
    var m, s := SymbolicWhileConcrete();
    m.WriteRegisterSymbolic(s, 0, Const(1));
    now := Registers(s.symbolic, m.sharedRegs);
    m, s := SymbolicWhileConcrete();
    ghost var r := s.Object();
    assert 0 in r.symbolic && [Const(1)][..0] == [];
    assert WithBytes(r, 0, [Const(1)]) == WithByte(WithBytes(r, 0, []), 0, Const(1));
    var ok := m.WriteCpuRegister(s, 0, [Const(1)]);
    after := Registers(s.symbolic, m.sharedRegs);
    assert after == m.ContentsOf(s).registers;
  }
}
