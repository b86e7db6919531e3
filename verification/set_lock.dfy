/** A set lock: one mutex per core. A shared holder has its own core's mutex, an
    exclusive one has them all, taken in order. */
module SetLock {
  import opened Options
  import opened Threads

  /** Where a thread is. The number says how far a loop over the mutexes has come. */
  datatype Pc =
    | Idle
    | Acquiring(i: nat)     // exclusive
    | Exclusive
    | Releasing(i: nat)
    | AcquiringShared
    | Shared
    | Downgrading(i: nat)

  /** owner says which thread has each mutex; core is the index each thread uses for
      its shared accesses. */
  datatype State = State(owner: seq<Option<nat>>, pc: seq<Pc>, core: seq<nat>)

  /** What a caller may start, and one step of what is under way. */
  datatype Step = AcquireExclusive(t: nat) | ReleaseExclusive(t: nat) | AcquireShared(t: nat) | ReleaseShared(t: nat)
                | Upgrade(t: nat) | Downgrade(t: nat) | Act(t: nat)

  predicate WellSized(s: State) {
    |s.pc| == |s.core| && forall t :: 0 <= t < |s.core| ==> s.core[t] < |s.owner|
  }

  function At(s: State, t: nat, pc: Pc): State
    requires t < |s.pc|
  {
    s.(pc := s.pc[t := pc])
  }

  function Next(s: State, step: Step): Option<State>
    requires WellSized(s) && step.t < |s.pc|
  {
    var t := step.t;
    match step
    case AcquireExclusive(_) => if s.pc[t].Idle? then Some(At(s, t, Acquiring(0))) else None
    case ReleaseExclusive(_) => if s.pc[t].Exclusive? then Some(At(s, t, Releasing(0))) else None
    case AcquireShared(_) => if s.pc[t].Idle? then Some(At(s, t, AcquiringShared)) else None
    case ReleaseShared(_) =>
      if s.pc[t].Shared? then Some(At(s, t, Idle).(owner := s.owner[s.core[t] := None])) else None
    case Upgrade(_) =>
      if s.pc[t].Shared? then Some(At(s, t, Acquiring(0)).(owner := s.owner[s.core[t] := None])) else None
    case Downgrade(_) => if s.pc[t].Exclusive? then Some(At(s, t, Downgrading(0))) else None
    case Act(_) => Acts(s, t)
  }

  function Acts(s: State, t: nat): Option<State>
    requires WellSized(s) && t < |s.pc|
  {
    match s.pc[t]
    case Acquiring(i) =>
      if i >= |s.owner| then Some(At(s, t, Exclusive))
      else if s.owner[i] == None then Some(At(s, t, Acquiring(i + 1)).(owner := s.owner[i := Some(t)]))
      else None
    case Releasing(i) =>
      if i >= |s.owner| then Some(At(s, t, Idle))
      else Some(At(s, t, Releasing(i + 1)).(owner := s.owner[i := None]))
    case AcquiringShared =>
      if s.owner[s.core[t]] == None then Some(At(s, t, Shared).(owner := s.owner[s.core[t] := Some(t)])) else None
    case Downgrading(i) =>
      if i >= |s.owner| then Some(At(s, t, Shared))
      else Some(At(s, t, Downgrading(i + 1)).(owner := if i != s.core[t] then s.owner[i := None] else s.owner))
    case _ => None
  }

  /** Which mutexes a thread has, by where it is. */
  predicate Owns(pc: Pc, core: nat, j: nat) {
    match pc
    case Idle => false
    case Acquiring(i) => j < i
    case Exclusive => true
    case Releasing(i) => i <= j
    case AcquiringShared => false
    case Shared => j == core
    case Downgrading(i) => i <= j || j == core
  }

  ghost predicate Inv(s: State) {
    && WellSized(s)
    && (forall t, j :: 0 <= t < |s.pc| && 0 <= j < |s.owner| ==>
      (s.owner[j] == Some(t) <==> Owns(s.pc[t], s.core[t], j)))
    && (forall j :: 0 <= j < |s.owner| && s.owner[j].Some? ==> s.owner[j].value < |s.pc|)
  }

  function Start(mutexes: nat, core: seq<nat>): State {
    State(seq(mutexes, _ => None), seq(|core|, _ => Idle), core)
  }

  lemma StepOwns(s: State, step: Step, u: nat, j: nat)
    requires Inv(s) && step.t < |s.pc| && Next(s, step).Some? && u < |s.pc| && j < |s.owner|
    ensures |Next(s, step).value.pc| == |s.pc| && |Next(s, step).value.owner| == |s.owner|
    ensures Next(s, step).value.owner[j] == Some(u) <==> Owns(Next(s, step).value.pc[u], s.core[u], j)
  {
    var t := step.t;
    assert s.owner[j] == Some(u) <==> Owns(s.pc[u], s.core[u], j);
    assert s.owner[j] == Some(t) <==> Owns(s.pc[t], s.core[t], j);
  }

  lemma StepSizes(s: State, step: Step)
    requires Inv(s) && step.t < |s.pc| && Next(s, step).Some?
    ensures var s' := Next(s, step).value; s'.core == s.core && |s'.owner| == |s.owner| && |s'.pc| == |s.pc|
    ensures forall j :: 0 <= j < |s.owner| && Next(s, step).value.owner[j].Some? ==>
      Next(s, step).value.owner[j].value < |s.pc|
  {
    hide Owns;
  }

  lemma StepKeeps(s: State, step: Step)
    requires Inv(s) && step.t < |s.pc| && Next(s, step).Some?
    ensures Inv(Next(s, step).value)
    ensures Next(s, step).value.core == s.core && |Next(s, step).value.owner| == |s.owner|
  {
    hide Next, Owns;
    StepSizes(s, step);
    forall u, j | 0 <= u < |s.pc| && 0 <= j < |s.owner|
      ensures Next(s, step).value.owner[j] == Some(u) <==> Owns(Next(s, step).value.pc[u], s.core[u], j)
    {
      StepOwns(s, step, u, j);
    }
  }

  ghost predicate Run(s: State, steps: seq<Step>, s': State)
    decreases |steps|
  {
    if steps == [] then s == s'
    else
      WellSized(s) && steps[0].t < |s.pc| && Next(s, steps[0]).Some? && Run(Next(s, steps[0]).value, steps[1..], s')
  }

  lemma {:induction false} RunKeeps(s: State, steps: seq<Step>, s': State)
    requires Inv(s) && Run(s, steps, s')
    ensures Inv(s') && s'.core == s.core && |s'.owner| == |s.owner|
    decreases |steps|
  {
    if steps != [] {
      StepKeeps(s, steps[0]);
      hide Next, Inv;
      RunKeeps(Next(s, steps[0]).value, steps[1..], s');
    }
  }

  predicate Possible(mutexes: nat, core: seq<nat>) {
    forall t :: 0 <= t < |core| ==> core[t] < mutexes
  }

  /** In every run, an exclusive holder is alone; threads that hold shared together
      have different cores. */
  lemma Excludes(mutexes: nat, core: seq<nat>, steps: seq<Step>, s: State, t: nat, u: nat)
    requires Possible(mutexes, core) && Run(Start(mutexes, core), steps, s)
    requires t < |s.pc| && u < |s.pc| && t != u
    ensures s.pc[t].Exclusive? ==> !s.pc[u].Exclusive? && !s.pc[u].Shared?
    ensures s.pc[t].Shared? && s.pc[u].Shared? ==> t < |core| && u < |core| && core[t] != core[u]
  {
    RunKeeps(Start(mutexes, core), steps, s);
    var j := s.core[u];
    assert s.owner[j] == Some(t) <==> Owns(s.pc[t], s.core[t], j);
    assert s.owner[j] == Some(u) <==> Owns(s.pc[u], s.core[u], j);
  }

  /** Shared accesses of different cores never wait for one another. */
  lemma SharedTogether(mutexes: nat, core: seq<nat>, steps: seq<Step>, s: State, t: nat)
    requires Possible(mutexes, core) && Run(Start(mutexes, core), steps, s)
    requires t < |s.pc| && s.pc[t].AcquiringShared?
    requires forall u :: 0 <= u < |s.pc| && u != t ==>
      s.pc[u].Idle? || s.pc[u].AcquiringShared? || (s.pc[u].Shared? && u < |core| && t < |core| && core[u] != core[t])
    ensures WellSized(s) && Acts(s, t).Some?
  {
    RunKeeps(Start(mutexes, core), steps, s);
    var j := s.core[t];
    forall u | 0 <= u < |s.pc|
      ensures s.owner[j] != Some(u)
    {
      assert s.owner[j] == Some(u) <==> Owns(s.pc[u], s.core[u], j);
    }
  }

  /** The mutexes follow from where the threads are: however they came there, by
      acquiring shared or by downgrading, the state is the same. */
  lemma DowngradeLikeAcquire(mutexes: nat, core: seq<nat>, steps: seq<Step>, s: State, steps': seq<Step>, s': State)
    requires Possible(mutexes, core)
    requires Run(Start(mutexes, core), steps, s) && Run(Start(mutexes, core), steps', s')
    requires s.pc == s'.pc
    ensures s == s'
  {
    RunKeeps(Start(mutexes, core), steps, s);
    RunKeeps(Start(mutexes, core), steps', s');
    forall j | 0 <= j < mutexes
      ensures s.owner[j] == s'.owner[j]
    {
      forall t | 0 <= t < |s.pc|
        ensures s.owner[j] == Some(t) <==> s'.owner[j] == Some(t)
      {
        assert s.owner[j] == Some(t) <==> Owns(s.pc[t], s.core[t], j);
        assert s'.owner[j] == Some(t) <==> Owns(s'.pc[t], s'.core[t], j);
      }
    }
  }

  /** Can take a step, or may let go of what it holds when it likes. */
  predicate CanGoOn(s: State, t: nat)
    requires WellSized(s) && t < |s.pc|
  {
    Acts(s, t).Some? || s.pc[t].Exclusive? || s.pc[t].Shared?
  }

  /** The mutex a thread is about to take. */
  predicate Wants(s: State, t: nat, j: nat)
    requires WellSized(s) && t < |s.pc|
  {
    j < |s.owner| && (s.pc[t] == Acquiring(j) || (s.pc[t].AcquiringShared? && j == s.core[t]))
  }

  /** Who is about to take a mutex holds all before it, on the way to all, or none, on the
      way to the one of its core. */
  lemma WaiterHolds(mutexes: nat, core: seq<nat>, steps: seq<Step>, s: State, t: nat, i: nat)
    requires Possible(mutexes, core) && Run(Start(mutexes, core), steps, s)
    requires WellSized(s) && t < |s.pc| && Wants(s, t, i)
    ensures forall j :: 0 <= j < |s.owner| ==> (s.owner[j] == Some(t) <==> s.pc[t].Acquiring? && j < i)
  {
    RunKeeps(Start(mutexes, core), steps, s);
    forall j | 0 <= j < |s.owner|
      ensures s.owner[j] == Some(t) <==> s.pc[t].Acquiring? && j < i
    {
      assert s.owner[j] == Some(t) <==> Owns(s.pc[t], s.core[t], j);
    }
  }

  /** Following owners from a mutex that is taken: an owner that waits in turn waits
      for a later mutex, so the way ends at a thread that can go on. */
  lemma {:induction false} OwnerChain(s: State, j: nat) returns (t: nat)
    requires Inv(s) && j < |s.owner| && s.owner[j].Some?
    ensures t < |s.pc| && CanGoOn(s, t)
    decreases |s.owner| - j
  {
    t := s.owner[j].value;
    assert s.owner[j] == Some(t) <==> Owns(s.pc[t], s.core[t], j);
    if s.pc[t].Acquiring? && s.pc[t].i < |s.owner| && s.owner[s.pc[t].i].Some? {
      t := OwnerChain(s, s.pc[t].i);
    }
  }

  /** No run deadlocks: while any thread waits for a mutex, some thread can go on. */
  lemma NoDeadlock(mutexes: nat, core: seq<nat>, steps: seq<Step>, s: State, waiting: nat) returns (t: nat)
    requires Possible(mutexes, core) && Run(Start(mutexes, core), steps, s)
    requires waiting < |s.pc| && !s.pc[waiting].Idle?
    ensures WellSized(s) && t < |s.pc| && CanGoOn(s, t)
  {
    RunKeeps(Start(mutexes, core), steps, s);
    t := waiting;
    match s.pc[waiting]
    case Acquiring(i) =>
      if i < |s.owner| && s.owner[i].Some? {
        t := OwnerChain(s, i);
      }
    case AcquiringShared =>
      if s.owner[s.core[waiting]].Some? {
        t := OwnerChain(s, s.core[waiting]);
      }
    case _ =>
  }
}
