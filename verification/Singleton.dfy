// The lock-free singleton as a machine of atomic steps, under sequential
// consistency: every load, store, exchange and compare-and-swap is one step.

module Singletons {

  datatype Traits = Heap | StaticMemory

  /** The word instance_: 0, the marker of a creation in progress, or an address. */
  datatype Word = Null | BeingCreated | Pointer(address: nat)

  /** Where a call of get() stands. Creating is the entry of Traits::New, and
      Constructing the point where it runs the constructor. */
  datatype Phase =
    | Loading
    | Swapping
    | Creating
    | Constructing
    | Storing(newval: Word)
    | Waiting
    | Done(result: Word)

  /** constructed counts the runs of the constructor. */
  datatype State = State(instance: Word, dead: bool, constructed: nat, calls: seq<Phase>)

  datatype Event = Call(i: nat) | OnExit | Resurrect

  /** The heap gives every object a new address, static memory the same one. */
  function Address(traits: Traits, n: nat): nat {
    if traits.Heap? then n else 0
  }

  function Move(s: State, i: nat, phase: Phase): State
    requires i < |s.calls|
  {
    s.(calls := s.calls[i := phase])
  }

  /** One atomic step of call i. */
  function Step(traits: Traits, s: State, i: nat): State
    requires i < |s.calls|
  {
    match s.calls[i]
    case Loading => if s.instance.Pointer? then Move(s, i, Done(s.instance)) else Move(s, i, Swapping)
    case Swapping =>
      if s.instance.Null? then Move(s.(instance := BeingCreated), i, Creating) else Move(s, i, Waiting)
    case Creating =>
      if traits.Heap? then Move(s, i, Constructing)
      else Move(s.(dead := true), i, if s.dead then Storing(Null) else Constructing)
    case Constructing => Move(s.(constructed := s.constructed + 1), i, Storing(Pointer(Address(traits, s.constructed))))
    case Storing(newval) => Move(s.(instance := newval), i, Done(newval))
    case Waiting => if s.instance.BeingCreated? then s else Move(s, i, Done(s.instance))
    case Done(_) => s
  }

  /** No call is under way. */
  predicate Idle(s: State) {
    forall i :: 0 <= i < |s.calls| ==> s.calls[i].Loading? || s.calls[i].Done?
  }

  /** OnExit must not overlap a call of get(). */
  predicate Next(traits: Traits, s: State, e: Event, t: State) {
    match e
    case Call(i) => i < |s.calls| && t == Step(traits, s, i)
    case OnExit => Idle(s) && t == s.(instance := Null, dead := s.dead || traits.StaticMemory?)
    case Resurrect => traits.StaticMemory? && t == s.(dead := false)
  }

  ghost predicate IsRun(traits: Traits, run: seq<State>, events: seq<Event>) {
    && |run| == |events| + 1
    && forall k :: 0 <= k < |events| ==> Next(traits, run[k], events[k], run[k + 1])
  }

  // ---- One instance before exit ----

  /** Before the first call, or after an exit of a heap singleton or a Resurrect:
      nothing exists, and nothing stands in the way of creating it. */
  predicate Ready(traits: Traits, s: State) {
    s.instance == Null && Idle(s) && (traits.StaticMemory? ==> !s.dead)
  }

  predicate Before(p: Phase) { p.Loading? || p.Swapping? }

  predicate Outside(p: Phase) { p.Loading? || p.Swapping? || p.Waiting? }

  /** Call i is the creator, everyone else is outside. */
  ghost predicate Owns(traits: Traits, s0: State, s: State, i: nat)
    requires |s.calls| == |s0.calls|
  {
    && i < |s.calls| && !s0.calls[i].Done?
    && (forall j :: 0 <= j < |s.calls| && !s0.calls[j].Done? && j != i ==> Outside(s.calls[j]))
    && match s.calls[i]
       case Creating => s.constructed == s0.constructed && (traits.StaticMemory? ==> !s.dead)
       case Constructing => s.constructed == s0.constructed
       case Storing(w) => s.constructed == s0.constructed + 1 && w == Pointer(Address(traits, s0.constructed))
       case _ => false
  }

  /** What holds after any steps of calls since the ready state s0. */
  ghost predicate Epoch(traits: Traits, s0: State, s: State) {
    && |s.calls| == |s0.calls|
    && (forall i :: 0 <= i < |s.calls| && s0.calls[i].Done? ==> s.calls[i] == s0.calls[i])
    && match s.instance
       case Null =>
         && s.constructed == s0.constructed && (traits.StaticMemory? ==> !s.dead)
         && forall i :: 0 <= i < |s.calls| && !s0.calls[i].Done? ==> Before(s.calls[i])
       case BeingCreated => exists i: nat :: Owns(traits, s0, s, i)
       case Pointer(address) =>
         && address == Address(traits, s0.constructed) && s.constructed == s0.constructed + 1
         && forall i :: 0 <= i < |s.calls| && !s0.calls[i].Done? ==>
              Outside(s.calls[i]) || s.calls[i] == Done(Pointer(address))
  }

  lemma OwnerSteps(traits: Traits, s0: State, s: State, i: nat)
    requires Epoch(traits, s0, s) && s.instance.BeingCreated? && Owns(traits, s0, s, i)
    ensures Epoch(traits, s0, Step(traits, s, i))
  {
    var t := Step(traits, s, i);
    if t.instance.BeingCreated? {
      assert Owns(traits, s0, t, i);
    }
  }

  lemma OtherSteps(traits: Traits, s0: State, s: State, i: nat, j: nat)
    requires Epoch(traits, s0, s) && s.instance.BeingCreated? && Owns(traits, s0, s, i) && j < |s.calls| && j != i
    ensures Epoch(traits, s0, Step(traits, s, j))
  {
    assert Owns(traits, s0, Step(traits, s, j), i);
  }

  lemma StepKeepsEpoch(traits: Traits, s0: State, s: State, j: nat)
    requires Epoch(traits, s0, s) && j < |s.calls|
    ensures Epoch(traits, s0, Step(traits, s, j))
  {
    if s.instance.BeingCreated? {
      var i: nat :| Owns(traits, s0, s, i);
      if i == j {
        OwnerSteps(traits, s0, s, i);
      } else {
        OtherSteps(traits, s0, s, i, j);
      }
    } else if s.instance.Null? && s.calls[j].Swapping? && !s0.calls[j].Done? {
      assert Owns(traits, s0, Step(traits, s, j), j);
    }
  }

  lemma {:induction false} EpochHolds(traits: Traits, run: seq<State>, events: seq<Event>, k: nat)
    requires IsRun(traits, run, events) && Ready(traits, run[0]) && k < |run|
    requires forall e :: e in events ==> e.Call?
    ensures Epoch(traits, run[0], run[k])
    decreases k
  {
    if k > 0 {
      EpochHolds(traits, run, events, k - 1);
      assert events[k - 1] in events && Next(traits, run[k - 1], events[k - 1], run[k - 1 + 1]);
      StepKeepsEpoch(traits, run[0], run[k - 1], events[k - 1].i);
    }
  }

  /** In every interleaving the constructor runs at most once, it has run once any
      call is complete, and every completed call returned that one instance. */
  lemma OneInstance(traits: Traits, run: seq<State>, events: seq<Event>, k: nat)
    requires IsRun(traits, run, events) && Ready(traits, run[0]) && k < |run|
    requires forall e :: e in events ==> e.Call?
    ensures run[k].constructed <= run[0].constructed + 1 && |run[k].calls| == |run[0].calls|
    ensures forall i :: 0 <= i < |run[k].calls| && run[k].calls[i].Done? && !run[0].calls[i].Done? ==>
      && run[k].constructed == run[0].constructed + 1
      && run[k].calls[i].result == Pointer(Address(traits, run[0].constructed))
  {
    EpochHolds(traits, run, events, k);
    if run[k].instance.BeingCreated? {
      var i: nat :| Owns(traits, run[0], run[k], i);
    }
  }

  /** No call is stuck for good: while one is incomplete, some step changes the state. */
  lemma SomeoneCanStep(traits: Traits, s0: State, s: State, i: nat)
    requires Epoch(traits, s0, s) && i < |s.calls| && !s.calls[i].Done?
    ensures exists j: nat :: j < |s.calls| && Step(traits, s, j) != s
  {
    if s.calls[i].Waiting? && s.instance.BeingCreated? {
      var j: nat :| Owns(traits, s0, s, j);
      assert Step(traits, s, j).calls[j] != s.calls[j];
    } else {
      assert Step(traits, s, i).calls[i] != s.calls[i];
    }
  }

  // ---- Calls come to an end ----

  /** How many more phases a call can go through. */
  function Rank(p: Phase): nat {
    match p
    case Loading => 5
    case Swapping => 4
    case Creating => 3
    case Constructing => 2
    case Storing(_) | Waiting => 1
    case Done(_) => 0
  }

  function Work(calls: seq<Phase>): nat {
    if calls == [] then 0 else Work(calls[..|calls| - 1]) + Rank(calls[|calls| - 1])
  }

  lemma {:induction false} WorkAfter(calls: seq<Phase>, i: nat, p: Phase)
    requires i < |calls|
    ensures Work(calls[i := p]) == Work(calls) - Rank(calls[i]) + Rank(p)
    decreases calls
  {
    var n := |calls| - 1;
    if i == n {
      assert calls[i := p][..n] == calls[..n];
    } else {
      assert calls[i := p][..n] == calls[..n][i := p];
      WorkAfter(calls[..n], i, p);
    }
  }

  lemma {:induction false} WorkIsBounded(calls: seq<Phase>)
    ensures Work(calls) <= 5 * |calls|
    decreases calls
  {
    if calls != [] {
      WorkIsBounded(calls[..|calls| - 1]);
    }
  }

  lemma StepLowersWork(traits: Traits, s: State, i: nat)
    requires i < |s.calls|
    ensures Step(traits, s, i) != s ==> Work(Step(traits, s, i).calls) < Work(s.calls)
  {
    var t := Step(traits, s, i);
    if t != s {
      assert t.calls == s.calls[i := t.calls[i]];
      WorkAfter(s.calls, i, t.calls[i]);
    }
  }

  /** How many of the first k events changed the state. */
  function Changes(run: seq<State>, k: nat): nat
    requires k < |run|
  {
    if k == 0 then 0 else Changes(run, k - 1) + if run[k] != run[k - 1] then 1 else 0
  }

  lemma {:induction false} ChangesAreBounded(traits: Traits, run: seq<State>, events: seq<Event>, k: nat)
    requires IsRun(traits, run, events) && k < |run|
    requires forall e :: e in events ==> e.Call?
    ensures Changes(run, k) + Work(run[k].calls) <= Work(run[0].calls)
    decreases k
  {
    if k > 0 {
      ChangesAreBounded(traits, run, events, k - 1);
      assert events[k - 1] in events && Next(traits, run[k - 1], events[k - 1], run[k - 1 + 1]);
      StepLowersWork(traits, run[k - 1], events[k - 1].i);
    }
  }

  /** Every call of get() completes: a run has at most five steps for each call that
      change anything, and one that nobody can extend has completed all of them. */
  lemma AllCallsComplete(traits: Traits, run: seq<State>, events: seq<Event>, k: nat)
    requires IsRun(traits, run, events) && Ready(traits, run[0]) && k < |run|
    requires forall e :: e in events ==> e.Call?
    ensures Changes(run, k) <= 5 * |run[0].calls|
    ensures (forall j: nat :: j < |run[k].calls| ==> Step(traits, run[k], j) == run[k])
       <==> (forall i :: 0 <= i < |run[k].calls| ==> run[k].calls[i].Done?)
  {
    ChangesAreBounded(traits, run, events, k);
    WorkIsBounded(run[0].calls);
    EpochHolds(traits, run, events, k);
    if i: nat :| i < |run[k].calls| && !run[k].calls[i].Done? {
      SomeoneCanStep(traits, run[0], run[k], i);
    }
  }

  // ---- After exit, with static memory ----

  /** The phases that a call can reach once dead_ is set. */
  predicate Barren(p: Phase) {
    p.Loading? || p.Swapping? || p.Creating? || p.Waiting? || p == Storing(Null) || p == Done(Null)
  }

  /** After OnExit and before a Resurrect. */
  ghost predicate AfterExit(s0: State, s: State) {
    && s.dead && !s.instance.Pointer? && s.constructed == s0.constructed && |s.calls| == |s0.calls|
    && forall i :: 0 <= i < |s.calls| ==>
         if s0.calls[i].Done? then s.calls[i] == s0.calls[i] else Barren(s.calls[i])
  }

  lemma StepKeepsAfterExit(s0: State, s: State, e: Event, t: State)
    requires AfterExit(s0, s) && !e.Resurrect? && Next(StaticMemory, s, e, t)
    ensures AfterExit(s0, t)
  {
  }

  /** Until a Resurrect, nothing more is constructed and every get() that begins
      after OnExit returns NULL. */
  lemma {:induction false} NullAfterExit(run: seq<State>, events: seq<Event>, k: nat)
    requires IsRun(StaticMemory, run, events) && 1 <= k < |run| && events[0] == OnExit
    requires forall e :: e in events ==> !e.Resurrect?
    ensures AfterExit(run[1], run[k])
    decreases k
  {
    if k == 1 {
      assert Next(StaticMemory, run[0], events[0], run[0 + 1]);
    } else {
      NullAfterExit(run, events, k - 1);
      assert events[k - 1] in events && Next(StaticMemory, run[k - 1], events[k - 1], run[k - 1 + 1]);
      StepKeepsAfterExit(run[1], run[k - 1], events[k - 1], run[k]);
    }
  }

  lemma GetAfterExitIsNull(run: seq<State>, events: seq<Event>, k: nat, i: nat)
    requires IsRun(StaticMemory, run, events) && 1 <= k < |run| && events[0] == OnExit
    requires forall e :: e in events ==> !e.Resurrect?
    ensures run[k].constructed == run[1].constructed == run[0].constructed && |run[k].calls| == |run[1].calls|
    ensures i < |run[k].calls| && !run[1].calls[i].Done? && run[k].calls[i].Done? ==> run[k].calls[i].result == Null
  {
    NullAfterExit(run, events, k);
    assert Next(StaticMemory, run[0], events[0], run[0 + 1]);
  }

  // ---- Whole runs, with static memory ----

  function Resurrections(events: seq<Event>): nat {
    if events == [] then 0
    else Resurrections(events[..|events| - 1]) + if events[|events| - 1].Resurrect? then 1 else 0
  }

  function ConstructingNow(calls: seq<Phase>): nat {
    if calls == [] then 0
    else ConstructingNow(calls[..|calls| - 1]) + if calls[|calls| - 1].Constructing? then 1 else 0
  }

  lemma {:induction false} ConstructingAfter(calls: seq<Phase>, i: nat, p: Phase)
    requires i < |calls|
    ensures ConstructingNow(calls[i := p])
         == ConstructingNow(calls) - (if calls[i].Constructing? then 1 else 0) + (if p.Constructing? then 1 else 0)
    decreases calls
  {
    var n := |calls| - 1;
    if i == n {
      assert calls[i := p][..n] == calls[..n];
    } else {
      assert calls[i := p][..n] == calls[..n][i := p];
      ConstructingAfter(calls[..n], i, p);
    }
  }

  /** Constructors run, running, and still permitted. */
  function Licences(s: State): nat {
    s.constructed + ConstructingNow(s.calls) + if s.dead then 0 else 1
  }

  lemma StepKeepsLicences(s: State, i: nat)
    requires i < |s.calls|
    ensures Licences(Step(StaticMemory, s, i)) == Licences(s)
  {
    ConstructingAfter(s.calls, i, Step(StaticMemory, s, i).calls[i]);
    assert Step(StaticMemory, s, i).calls == s.calls[i := Step(StaticMemory, s, i).calls[i]];
  }

  lemma {:induction false} LicencesHold(run: seq<State>, events: seq<Event>, k: nat)
    requires IsRun(StaticMemory, run, events) && k < |run|
    ensures Licences(run[k]) <= Licences(run[0]) + Resurrections(events[..k])
    decreases k
  {
    if k > 0 {
      LicencesHold(run, events, k - 1);
      assert Next(StaticMemory, run[k - 1], events[k - 1], run[k - 1 + 1]);
      assert events[..k][..k - 1] == events[..k - 1];
      if events[k - 1].Call? {
        StepKeepsLicences(run[k - 1], events[k - 1].i);
      }
    }
  }

  lemma {:induction false} NoneConstructing(calls: seq<Phase>)
    requires forall i :: 0 <= i < |calls| ==> !calls[i].Constructing?
    ensures ConstructingNow(calls) == 0
    decreases calls
  {
    if calls != [] {
      NoneConstructing(calls[..|calls| - 1]);
    }
  }

  /** Over any run, exits and concurrent calls included, the buffer is constructed
      at most once, and once more for every Resurrect. */
  lemma OneConstructionPerLife(run: seq<State>, events: seq<Event>, k: nat)
    requires IsRun(StaticMemory, run, events) && k < |run|
    requires run[0].constructed == 0 && Idle(run[0])
    ensures run[k].constructed <= 1 + Resurrections(events[..k])
  {
    LicencesHold(run, events, k);
    NoneConstructing(run[0].calls);
  }

  // ---- The code of one call, statement by statement ----

  /** The static fields, with the single call that is running. */
  class Singleton {
    const traits: Traits
    var instance: Word
    var dead: bool
    var constructed: nat

    ghost function At(phase: Phase): State
      reads this
    {
      State(instance, dead, constructed, [phase])
    }

    constructor (traits: Traits)
      ensures this.traits == traits && At(Loading) == State(Null, false, 0, [Loading])
    {
      this.traits := traits;
      instance, dead, constructed := Null, false, 0;
    }

    method CompareAndSwap(expected: Word, replacement: Word) returns (previous: Word)
      modifies this`instance
      ensures previous == old(instance)
      ensures instance == if old(instance) == expected then replacement else old(instance)
    {
      previous := instance;
      if previous == expected {
        instance := replacement;
      }
    }

    method New() returns (newval: Word)
      modifies this`dead, this`constructed
      ensures var entered := Step(traits, old(At(Creating)), 0);
              At(Storing(newval)) == if entered.calls[0].Constructing? then Step(traits, entered, 0) else entered
    {
      if traits.StaticMemory? {
        var previous := dead;
        dead := true;
        if previous {
          return Null;
        }
      }
      newval := Pointer(Address(traits, constructed));
      constructed := constructed + 1;
    }

    /** Undisturbed, get() leaves the state that its own steps lead to. */
    method Get() returns (result: Word)
      requires !instance.BeingCreated?
      modifies this
      ensures exists n: nat :: At(Done(result)) == Steps(traits, old(At(Loading)), n)
      ensures old(instance).Pointer? ==> result == old(instance)
      ensures old(instance).Null? && !(traits.StaticMemory? && old(dead)) ==>
        result == instance == Pointer(Address(traits, old(constructed))) && constructed == old(constructed) + 1
      ensures old(instance).Null? && traits.StaticMemory? && old(dead) ==>
        result == instance == Null && constructed == old(constructed)
    {
      ghost var start := At(Loading);
      var value := instance;
      if value != Null && value != BeingCreated {
        assert At(Done(value)) == Steps(traits, start, 1);
        return value;
      }
      assert At(Swapping) == Steps(traits, start, 1);
      var previous := CompareAndSwap(Null, BeingCreated);
      assert At(Creating) == Step(traits, Steps(traits, start, 1), 0) == Steps(traits, start, 2);
      ghost var created := At(Creating);
      var newval := New();
      ghost var n := if Step(traits, created, 0).calls[0].Constructing? then 4 else 3;
      assert Steps(traits, start, 3) == Step(traits, Steps(traits, start, 2), 0);
      assert Steps(traits, start, 4) == Step(traits, Steps(traits, start, 3), 0);
      assert At(Storing(newval)) == Steps(traits, start, n);
      instance := newval;
      assert At(Done(newval)) == Step(traits, Steps(traits, start, n), 0) == Steps(traits, start, n + 1);
      return newval;
    }

    method OnExit()
      requires !instance.BeingCreated?
      modifies this
      ensures Next(traits, old(At(Loading)), Event.OnExit, At(Loading))
    {
      if traits.StaticMemory? {
        dead := true;
      }
      instance := Null;
    }
  }

  /** The only call of a state, after n of its steps. */
  ghost function Steps(traits: Traits, s: State, n: nat): (t: State)
    requires |s.calls| == 1
    ensures |t.calls| == 1
  {
    if n == 0 then s else Step(traits, Steps(traits, s, n - 1), 0)
  }
}
