/** Which states can be scheduled: yielding, suspending, resuming and selecting. */
module YieldProtocol {
  import opened Options

  /** The executor's books: its states, the ones its searcher knows, those added and removed since the last update,
      the state that has yielded, and the states whose yield flag is up. */
  datatype Books = Books(states: set<nat>, searcher: set<nat>, added: set<nat>, removed: set<nat>,
                         yielded: Option<nat>, flagged: set<nat>)

  function Updated(b: Books): Books {
    b.(states := b.states + b.added - b.removed, searcher := b.searcher + b.added - b.removed,
       added := {}, removed := {})
  }

  function Suspended(b: Books, s: nat): Books { b.(states := b.states - {s}, searcher := b.searcher - {s}) }

  function Resumed(b: Books, s: nat): Books {
    if s in b.states then b else b.(states := b.states + {s}, searcher := b.searcher + {s})
  }

  function Yielded(b: Books, s: nat): Books {
    if |b.states| <= 1 then b
    else Suspended(b.(added := b.added - {s}, yielded := Some(s)), s).(flagged := b.flagged + {s})
  }

  function Restored(b: Books): Books {
    if b.yielded.None? then b
    else Resumed(b.(flagged := b.flagged - {b.yielded.value}), b.yielded.value).(yielded := None)
  }

  function Terminated(b: Books, s: nat): Books {
    if s in b.added then b.(added := b.added - {s}) else b.(removed := b.removed + {s})
  }

  /** One state, which the searcher knows. */
  function InitialBooks(s: nat): Books { Books({s}, {s}, {}, {}, None, {}) }

  class Executor {
    var states: set<nat>
    var searcher: set<nat>
    var addedStates: set<nat>
    var removedStates: set<nat>
    var yieldedState: Option<nat>
    var flagged: set<nat>

    ghost function Contents(): Books
      reads this
    {
      Books(states, searcher, addedStates, removedStates, yieldedState, flagged)
    }

    constructor (s: nat)
      ensures Contents() == InitialBooks(s)
    {
      states, searcher, addedStates, removedStates, yieldedState, flagged := {s}, {s}, {}, {}, None, {};
    }

    method UpdateStates()
      modifies this
      ensures Contents() == Updated(old(Contents()))
    {
      states, searcher := states + addedStates - removedStates, searcher + addedStates - removedStates;
      addedStates, removedStates := {}, {};
    }

    /** The state must be one of the set: erasing it must remove one, or an assertion fails. */
    method SuspendState(s: nat) returns (ok: bool)
      requires s in states
      modifies this
      ensures ok && Contents() == Suspended(old(Contents()), s)
    {
      searcher := searcher - {s};
      states := states - {s};
      ok := true;
    }

    method ResumeState(s: nat) returns (ok: bool)
      modifies this
      ensures ok == (s !in old(states)) && Contents() == Resumed(old(Contents()), s)
    {
      if s in states { return false; }
      states := states + {s};
      searcher := searcher + {s};
      ok := true;
    }

    /** No other state may have yielded, and this one must be in the set, with its flag down. */
    method YieldState(s: nat)
      requires |states| > 1 ==> yieldedState == None && s in states && s !in flagged
      modifies this
      ensures old(|states|) <= 1 ==> Contents() == old(Contents())
      ensures old(|states|) > 1 ==>
        && yieldedState == Some(s) && states == old(states) - {s} && searcher == old(searcher) - {s}
        && addedStates == old(addedStates) - {s} && removedStates == old(removedStates) && flagged == old(flagged) + {s}
      ensures Contents() == Yielded(old(Contents()), s)
    {
      if |states| <= 1 { return; }
      yieldedState := Some(s);
      if s in addedStates { addedStates := addedStates - {s}; }
      var ok := SuspendState(s);
      assert ok;
      flagged := flagged + {s};
    }

    method RestoreYieldedState()
      requires yieldedState.Some? ==> yieldedState.value in flagged
      modifies this
      ensures Contents() == Restored(old(Contents()))
    {
      if yieldedState.Some? {
        var s := yieldedState.value;
        flagged := flagged - {s};
        var ok := ResumeState(s);
        yieldedState := None;
      }
    }

    method TerminateState(s: nat)
      modifies this
      ensures Contents() == Terminated(old(Contents()), s)
    {
      if s in addedStates {
        addedStates := addedStates - {s};
      } else {
        removedStates := removedStates + {s};
      }
    }

    /** prefer is the searcher's wish: the state it picks if it still has it. */
    method SelectNextState(prefer: nat) returns (next: Option<nat>)
      requires yieldedState.Some? ==> yieldedState.value in flagged
      modifies this
      ensures var b := Updated(old(Contents()));
        && (next.None? <==> b.searcher == {})
        && (next.None? ==> Contents() == b)
        && (next.Some? ==>
          && next.value in b.searcher && Contents() == Restored(b)
          && (prefer in b.searcher ==> next.value == prefer))
    {
      UpdateStates();
      if searcher == {} { return None; }
      var s :| s in searcher && (prefer in searcher ==> s == prefer);
      RestoreYieldedState();
      next := Some(s);
    }
  }

  /** Running a state; a state has stopped and one must be selected; or no state was left to select. */
  datatype Phase = Running(current: nat) | Selecting | Ended

  datatype System = System(books: Books, phase: Phase, alive: set<nat>)

  datatype Step = Fork(child: nat) | Terminate(s: nat) | Update | YieldCurrent | Select(next: Option<nat>)

  ghost predicate Next(x: System, y: System, step: Step) {
    match step
    case Fork(child) =>
      x.phase.Running? && child !in x.alive && child !in x.books.states
      && y == System(x.books.(added := x.books.added + {child}), x.phase, x.alive + {child})
    case Terminate(s) =>
      x.phase.Running? && s in (x.books.states - x.books.removed) + x.books.added
      && y == System(Terminated(x.books, s), if s == x.phase.current then Selecting else x.phase, x.alive - {s})
    case Update => !x.phase.Ended? && y == x.(books := Updated(x.books))
    case YieldCurrent =>
      x.phase.Running?
      && y == x.(books := Yielded(x.books, x.phase.current),
                 phase := if |x.books.states| <= 1 then x.phase else Selecting)
    case Select(next) =>
      !x.phase.Ended?
      && (var b := Updated(x.books);
          if b.searcher == {} then next == None && y == x.(books := b, phase := Ended)
          else next.Some? && next.value in b.searcher && y == x.(books := Restored(b), phase := Running(next.value)))
  }

  /** The states a selection can pick, now or after the update it starts with. */
  ghost function Schedulable(b: Books): set<nat> { b.states - b.removed + b.added }

  ghost function Slot(b: Books): set<nat> { if b.yielded.Some? then {b.yielded.value} else {} }

  ghost predicate Consistent(b: Books) {
    && b.searcher == b.states && b.added !! b.states && b.removed <= b.states
    && b.flagged == Slot(b) && Slot(b) !! b.states + b.added
  }

  ghost predicate Inv(x: System) {
    && Consistent(x.books)
    && x.alive == Schedulable(x.books) + Slot(x.books)
    && (x.phase.Running? ==> x.books.yielded == None && x.phase.current in x.books.states - x.books.removed)
  }

  lemma UpdateKeeps(b: Books)
    requires Consistent(b)
    ensures Consistent(Updated(b)) && Schedulable(Updated(b)) == Schedulable(b) == Updated(b).states
  {
  }

  lemma RestoreKeeps(b: Books)
    requires Consistent(b)
    ensures Consistent(Restored(b)) && Schedulable(Restored(b)) == Schedulable(b) + Slot(b) && Slot(Restored(b)) == {}
  {
  }

  lemma ForkKeeps(b: Books, s: nat)
    requires Consistent(b) && s !in b.states && s !in Slot(b)
    ensures var c := b.(added := b.added + {s});
      Consistent(c) && Schedulable(c) == Schedulable(b) + {s} && Slot(c) == Slot(b)
  {
  }

  lemma TerminateKeeps(b: Books, s: nat)
    requires Consistent(b) && s in b.states + b.added
    ensures Consistent(Terminated(b, s)) && Schedulable(Terminated(b, s)) == Schedulable(b) - {s}
    ensures Slot(Terminated(b, s)) == Slot(b) && s !in Slot(b)
  {
  }

  lemma YieldKeeps(b: Books, s: nat)
    requires Consistent(b) && s in b.states - b.removed && b.yielded == None && |b.states| > 1
    ensures Consistent(Yielded(b, s)) && Schedulable(Yielded(b, s)) == Schedulable(b) - {s}
    ensures Slot(Yielded(b, s)) == {s}
  {
  }

  lemma TerminateInv(x: System, y: System, s: nat)
    requires Inv(x) && Next(x, y, Terminate(s))
    ensures Inv(y)
  {
    TerminateKeeps(x.books, s);
  }

  /** Every step keeps the books consistent, and every state that was not terminated is either schedulable or in the
      yield slot. */
  lemma StepInv(x: System, y: System, step: Step)
    requires Inv(x) && Next(x, y, step)
    ensures Inv(y)
  {
    match step
    case Fork(child) => ForkInv(x, y, child);
    case Terminate(s) => TerminateInv(x, y, s);
    case Update => UpdateKeeps(x.books);
    case YieldCurrent => YieldInv(x, y);
    case Select(next) => SelectInv(x, y, next);
  }

  lemma ForkInv(x: System, y: System, child: nat)
    requires Inv(x) && Next(x, y, Fork(child))
    ensures Inv(y)
  {
    ForkKeeps(x.books, child);
  }

  lemma YieldInv(x: System, y: System)
    requires Inv(x) && Next(x, y, YieldCurrent)
    ensures Inv(y)
  {
    if |x.books.states| > 1 { YieldKeeps(x.books, x.phase.current); }
  }

  lemma SelectInv(x: System, y: System, next: Option<nat>)
    requires Inv(x) && Next(x, y, Select(next))
    ensures Inv(y)
  {
    UpdateKeeps(x.books);
    RestoreKeeps(Updated(x.books));
  }

  /** A selection that finds a state does not pick the one that yielded, and makes it schedulable again. */
  lemma SelectAfterYield(x: System, y: System, next: nat)
    requires Inv(x) && Next(x, y, Select(Some(next))) && x.books.yielded.Some?
    ensures next != x.books.yielded.value && x.books.yielded.value in y.books.states && y.books.yielded == None
    ensures y.alive == x.alive == Schedulable(y.books)
  {
    UpdateKeeps(x.books);
    RestoreKeeps(Updated(x.books));
  }

  /** A yield is followed by the end of the run exactly when every other state was terminated since the last
      update and none was added: the set still counted them, but the selection finds nobody. The state that
      yielded is then lost. */
  lemma YieldLost(x: System, y: System, z: System, next: Option<nat>)
    requires Inv(x) && |x.books.states| > 1 && Next(x, y, YieldCurrent) && Next(y, z, Select(next))
    ensures z.phase.Ended? <==> Schedulable(x.books) == {x.phase.current}
    ensures z.phase.Ended? ==> x.phase.current in z.alive && Schedulable(z.books) == {}
    ensures !z.phase.Ended? ==> x.phase.current in Schedulable(z.books)
  {
    YieldKeeps(x.books, x.phase.current);
    UpdateKeeps(y.books);
    RestoreKeeps(Updated(y.books));
  }

  /** Step i of a run. */
  ghost predicate StepOf(systems: seq<System>, steps: seq<Step>, i: nat)
    requires i < |steps| && |systems| == |steps| + 1
  {
    Next(systems[i], systems[i + 1], steps[i])
  }

  ghost predicate Run(systems: seq<System>, steps: seq<Step>) {
    && |systems| == |steps| + 1
    && forall i: nat {:trigger StepOf(systems, steps, i)} :: i < |steps| ==> StepOf(systems, steps, i)
  }

  /** The first state is running. */
  ghost function Initial(s: nat): System { System(InitialBooks(s), Running(s), {s}) }

  lemma InitialInv(s: nat)
    ensures Inv(Initial(s))
  {
  }

  lemma {:induction false} RunInv(systems: seq<System>, steps: seq<Step>, n: nat)
    requires Run(systems, steps) && n < |systems| && Inv(systems[0])
    ensures Inv(systems[n])
    decreases n
  {
    if n == 0 {
    } else {
      RunInv(systems, steps, n - 1);
      assert StepOf(systems, steps, n - 1);
      StepInv(systems[n - 1], systems[n], steps[n - 1]);
    }
  }

  /** In every run from the first state on: a state that was not terminated is either schedulable or in the yield
      slot; what yielding, suspending and restoring assert holds whenever a state runs, and for the one in the slot;
      and a selection that finds a state picks another one than the one that yielded, which is schedulable again right
      after it. */
  lemma Safety(s: nat, systems: seq<System>, steps: seq<Step>, n: nat)
    requires Run(systems, steps) && systems[0] == Initial(s) && n < |systems|
    ensures var b := systems[n].books;
      && systems[n].alive == Schedulable(b) + Slot(b) && Schedulable(b) !! Slot(b)
      && (systems[n].phase.Running? ==>
            var c := systems[n].phase.current; b.yielded == None && c in b.states && c in b.searcher && c !in b.flagged)
      && (b.yielded.Some? ==> b.yielded.value in b.flagged && b.yielded.value !in b.states)
    ensures n < |steps| && steps[n].Select? && steps[n].next.Some? && systems[n].books.yielded.Some? ==>
      && steps[n].next != systems[n].books.yielded
      && systems[n].books.yielded.value in systems[n + 1].books.states
        && systems[n + 1].alive == Schedulable(systems[n + 1].books)
  {
    InitialInv(s);
    RunInv(systems, steps, n);
    if n < |steps| && steps[n].Select? && steps[n].next.Some? && systems[n].books.yielded.Some? {
      assert StepOf(systems, steps, n);
      SelectAfterYield(systems[n], systems[n + 1], steps[n].next.value);
    }
  }

  /** A run that loses a state: it forks a child, terminates it, and yields before the sets are updated. */
  lemma LosingRun() returns (systems: seq<System>, steps: seq<Step>)
    ensures Run(systems, steps) && systems[0] == Initial(0)
    ensures var last := systems[|systems| - 1]; last.phase.Ended? && 0 in last.alive && Schedulable(last.books) == {}
  {
    var x0 := Initial(0);
    var x1 := System(Books({0}, {0}, {1}, {}, None, {}), Running(0), {0, 1});
    var x2 := System(Books({0, 1}, {0, 1}, {}, {}, None, {}), Running(0), {0, 1});
    var x3 := System(Books({0, 1}, {0, 1}, {}, {1}, None, {}), Running(0), {0});
    var x4 := System(Books({1}, {1}, {}, {1}, Some(0), {0}), Selecting, {0});
    var x5 := System(Books({}, {}, {}, {}, Some(0), {0}), Ended, {0});
    systems, steps := [x0, x1, x2, x3, x4, x5], [Fork(1), Update, Terminate(1), YieldCurrent, Select(None)];
    assert x2.books == Updated(x1.books);
    assert |x3.books.states| == 2 && Yielded(x3.books, 0) == x4.books;
    assert Updated(x4.books) == x5.books;
  }
}
