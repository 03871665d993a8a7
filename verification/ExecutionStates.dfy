/** Several execution states on one heap. */
module ExecutionStates {
  import opened Expressions
  import opened AddressSpaces
  import opened Pages
  import opened ExecutionMemory
  import opened SymbolicBytes
  import opened Options

  /** What a state can do to its memory. */
  datatype Operation =
    | ReadRam(a: nat, buf: array<nat>, start: nat, size: nat, solver: Solver)
    | WriteRam(a: nat, bytes: seq<nat>)
    | ReadVirtual(a: nat, n: nat, t: Hosts)
    | WriteVirtual(a: nat, value: Expr, n: nat, t: Hosts)
    | ReadDevice(a: nat, buf: array<nat>, size: nat, solver: Solver)
    | WriteDevice(a: nat, bytes: seq<nat>)
    | WriteRegister(k: nat, e: Expr)
  {
    ghost function Buffers(): set<array<nat>> {
      match this
      case ReadRam(_, buf, _, _, _) => {buf}
      case ReadDevice(_, buf, _, _) => {buf}
      case _ => {}
    }

    ghost predicate Enabled(s: State)
      reads s, s.heap
    {
      match this
      case ReadRam(a, buf, start, size, solver) =>
        Sound(solver) && size > 0 && s.Mem().RamRange(a, size) && start + size <= buf.Length
      case WriteRam(a, bytes) => bytes != [] && s.Mem().RamRange(a, |bytes|)
      case ReadVirtual(a, n, t) => n > 0 && PageWise(t) && Backed(s.Mem(), t, a, n)
      case WriteVirtual(a, value, n, t) => n > 0 && PageWise(t) && Backed(s.Mem(), t, a, n)
      case ReadDevice(a, buf, size, solver) => Sound(solver) && s.Mem().RamRange(a, size) && size <= buf.Length
      case WriteDevice(a, bytes) => s.Mem().RamRange(a, |bytes|)
      case WriteRegister(k, e) => k < |s.Mem().Object(s.cpuRegistersState)|
    }
  }

  /** What an operation answers. */
  datatype Answer = Nothing | Value(e: Option<Expr>) | Wrote(outcome: Outcome)

  /** All of a value's bytes that are mapped are written, or, for a constant that cannot be, none. */
  ghost predicate WroteVirtual(m: Memory, m': Memory, a: nat, value: Expr, n: nat, t: Hosts, r: Outcome) {
    && (r.Aborted? <==> value.Const? && n <= 8 && (n !in {1, 2, 4, 8} || Crosses(a, n)))
    && (r.Aborted? ==> m' == m)
    && (r.Answer? ==>
      && (r.ok <==> Reach(t, a, n) == n)
      && Written(m, m', t, a, Parts(value, n), Reach(t, a, n)))
  }

  /** What an operation does to the state that does it, which was s0 with constraints c0. */
  ghost predicate Did(s: State, op: Operation, s0: Snapshot, c0: seq<Expr>, r: Answer)
    reads s, s.heap, op.Buffers()
  {
    match op
    case ReadRam(a, buf, start, size, _) =>
      start + size <= buf.Length && s.HasRead(s0, c0, a, buf[start..start + size])
    case WriteRam(a, bytes) => s.HasWritten(s0, a, Constants(bytes)) && s.constraints == c0
    case ReadVirtual(a, n, t) =>
      && n > 0 && s.Mem() == s0.memory && s.constraints == c0
      && r == Value(if Reach(t, a, n) == n then Some(Joined(Gathered(s0.memory, t, a, n))) else None)
    case WriteVirtual(a, value, n, t) =>
      s.constraints == c0 && r.Wrote? && WroteVirtual(s0.memory, s.Mem(), a, value, n, t, r.outcome)
    case ReadDevice(a, buf, size, _) => size <= buf.Length && s.HasRead(s0, c0, a, buf[..size])
    case WriteDevice(a, bytes) => s.HasWritten(s0, a, Constants(bytes)) && s.constraints == c0
    case WriteRegister(k, e) =>
      && s.constraints == c0 && k < |s0.memory.Object(s.cpuRegistersState)|
      && s.Mem().Object(s.cpuRegistersState) == s0.memory.Object(s.cpuRegistersState)[k := e]
      && forall b :: b != s.cpuRegistersState ==> s.Mem().Object(b) == s0.memory.Object(b)
  }

  class ExecutionStates {
    const heap: Heap
    var states: set<State>

    constructor (s: State)
      requires s.Ready() && Owns(s.Snap())
      ensures Valid() && states == {s} && heap == s.heap
    {
      heap, states := s.heap, {s};
    }

    ghost predicate Good(s: State)
      reads s, s.heap, s.memcache, s.memcache.repr
    {
      s.heap == heap && s.Ready() && Owns(s.Snap()) && this !in s.memcache.repr
    }

    ghost predicate Apart(s: State, t: State)
      reads s, t, s.memcache, t.memcache
    {
      s != t ==> s.Detached(t)
    }

    ghost predicate Valid()
      reads this, states, heap, set s <- states :: s.memcache, set s <- states, x <- s.memcache.repr :: x
      reads set s <- states :: s.heap
    {
      && (forall s {:trigger Good(s)} :: s in states ==> Good(s))
      && (forall s, t {:trigger Apart(s, t)} :: s in states && t in states ==> Apart(s, t))
    }

    /** A state does what the operation is for, and leaves the other states' memory as it is. */
    method Apply(s: State, op: Operation) returns (r: Answer)
      requires Valid() && s in states && op.Enabled(s)
      requires forall x, b :: x in states && b in op.Buffers() ==> b !in x.memcache.repr
      modifies s, heap, s.memcache`repr, s.memcache.repr, op.Buffers()
      ensures Valid() && states == old(states)
      ensures Did(s, op, old(s.Snap()), old(s.constraints), r)
      ensures forall x :: x in states && x != s ==>
        && Unaltered(old(x.Mem()), x.Mem())
        && x.constraints == old(x.constraints)
    {
      r := Act(s, op);
      forall x, y | x in old(states) && y in old(states) && x != s && y != s ensures Apart(x, y) {
        assert old(Apart(x, y)) && old(Apart(s, x)) && old(Apart(s, y));
      }
    }

    /** The operation, seen from each of the others. */
    method Act(s: State, op: Operation) returns (r: Answer)
      requires Valid() && s in states && op.Enabled(s)
      requires forall x, b :: x in states && b in op.Buffers() ==> b !in x.memcache.repr
      modifies s, heap, s.memcache`repr, s.memcache.repr, op.Buffers()
      ensures states == old(states) && Good(s) && Did(s, op, old(s.Snap()), old(s.constraints), r)
      ensures forall x :: x in states && x != s ==>
        && Good(x) && Apart(s, x) && Apart(x, s) && Unaltered(old(x.Mem()), x.Mem())
        && x.constraints == old(x.constraints) && x.memcache.repr == old(x.memcache.repr)
    {
      assert Good(s);
      ghost var s0 := s.Snap();
      r := Perform(s, op);
      s.StillOwns(s0);
      forall x | x in old(states) && x != s
        ensures Good(x) && Apart(s, x) && Apart(x, s) && Unaltered(old(x.Mem()), x.Mem())
        ensures x.constraints == old(x.constraints) && x.memcache.repr == old(x.memcache.repr)
      {
        assert old(Good(x)) && old(Apart(s, x));
        s.StillBeside(s0, old(x.Snap()), x);
      }
    }

    method Perform(s: State, op: Operation) returns (r: Answer)
      requires s.Ready() && op.Enabled(s) && forall b :: b in op.Buffers() ==> b !in s.memcache.repr
      modifies s, s.heap, s.memcache`repr, s.memcache.repr, op.Buffers()
      ensures s.Ready() && s.memcache.Extended()
      ensures Kept(old(s.Snap()), s.Snap()) && Did(s, op, old(s.Snap()), old(s.constraints), r)
    {
      r := Nothing;
      match op
      case ReadRam(a, buf, start, size, solver) =>
        s.ReadRamConcrete(a, buf, start, size, solver);
      case WriteRam(a, bytes) =>
        s.WriteRamConcrete(a, bytes);
      case ReadVirtual(a, n, t) =>
        KeptSame(s.Snap());
        var e := s.ReadMemory(a, n, t);
        r := Value(e);
      case WriteVirtual(a, value, n, t) =>
        var outcome := s.WriteMemory(a, value, n, t);
        r := Wrote(outcome);
      case ReadDevice(a, buf, size, solver) =>
        s.DmaRead(a, buf, size, solver);
      case WriteDevice(a, bytes) =>
        s.DmaWrite(a, bytes);
      case WriteRegister(k, e) =>
        s.WriteCpuRegister(k, e);
    }

    /** A clone means what its original means. */
    method Clone(s: State) returns (ret: State)
      requires Valid() && s in states
      modifies this`states, s, heap, s.memcache`repr, s.memcache.repr
      ensures Valid() && fresh(ret) && states == old(states) + {ret}
      ensures ret.constraints == s.constraints == old(s.constraints)
      ensures Unaltered(old(s.Mem()), s.Mem()) && Unaltered(old(s.Mem()), ret.Mem())
      ensures forall x :: x in old(states) ==> Unaltered(old(x.Mem()), x.Mem())
    {
      ret := CloneOf(s);
      Add(ret);
    }

    method Add(ret: State)
      requires Valid() && Good(ret) && forall x :: x in states ==> Apart(ret, x) && Apart(x, ret)
      modifies this`states
      ensures Valid() && states == old(states) + {ret}
    {
      states := states + {ret};
      forall x | x in states ensures Good(x) {
        assert old(Good(x));
      }
      forall x, y | x in states && y in states ensures Apart(x, y) {
        assert old(Apart(x, y));
      }
    }

    method CloneOf(s: State) returns (ret: State)
      requires Valid() && s in states
      modifies s, heap, s.memcache`repr, s.memcache.repr
      ensures Valid() && states == old(states) && fresh(ret) && ret.constraints == s.constraints == old(s.constraints)
      ensures Good(ret) && forall x :: x in states ==> Apart(ret, x) && Apart(x, ret)
      ensures Unaltered(old(s.Mem()), s.Mem()) && Unaltered(old(s.Mem()), ret.Mem())
      ensures forall x :: x in old(states) ==> Unaltered(old(x.Mem()), x.Mem())
    {
      assert Good(s);
      ghost var s0 := s.Snap().(owned := {});
      ret := s.Clone();
      forall x | x in states && x != s
        ensures Good(x) && Apart(s, x) && Apart(x, s) && Apart(ret, x) && Apart(x, ret)
        ensures Unaltered(old(x.Mem()), x.Mem()) && x.memcache.repr == old(x.memcache.repr)
      {
        assert old(Good(x)) && old(Apart(s, x));
        s.StillBeside(s0, old(x.Snap()), x);
        ret.StillBeside(s0, old(x.Snap()), x);
      }
      forall x, y | x in states && y in states && x != s && y != s ensures Apart(x, y) {
        assert old(Apart(x, y)) && old(Apart(s, x)) && old(Apart(s, y));
      }
    }
  }
}
