/** A counting semaphore on one lock and one futex word, for any number of threads
    that wait and post as they like. */
module Semaphore {
  import opened Options
  import opened Threads

  /** Where a thread is; all marks a broadcast. Between two places lies one step on
      the shared state. */
  datatype Pc =
    | Idle
    // wait
    | Acquire
    | Check
    | SetZero
    | Release
    | FutexWait
    | Asleep
    | Reacquire
    | Recount
    | Take
    | Unlock
    // signal and broadcast
    | PostAcquire(all: bool)
    | Post(all: bool)
    | SetOne(all: bool)
    | Wake(all: bool)
    | PostUnlock

  /** posted and taken count the posts and the waits that took effect. */
  datatype State = State(count: int, numWaiting: int, futx: int, lock: Option<nat>, pc: seq<Pc>,
                         initial: int, posted: nat, taken: nat)

  /** Threads act one at a time; a signal wakes one sleeper, u, when there is one;
      a sleeper may also return for no reason. */
  datatype Step =
    | StartWait(t: nat)
    | StartPost(t: nat, all: bool)
    | Act(t: nat)
    | WakeOne(t: nat, u: nat)
    | Spurious(t: nat)

  function At(s: State, t: nat, pc: Pc): State
    requires t < |s.pc|
  {
    s.(pc := s.pc[t := pc])
  }

  predicate IsAsleep(pc: Pc) {
    pc.Asleep?
  }

  function Next(s: State, step: Step): Option<State>
    requires step.t < |s.pc|
  {
    var t := step.t;
    match step
    case StartWait(_) => if s.pc[t].Idle? then Some(At(s, t, Acquire)) else None
    case StartPost(_, all) => if s.pc[t].Idle? then Some(At(s, t, PostAcquire(all))) else None
    case Spurious(_) => if s.pc[t].Asleep? then Some(At(s, t, Reacquire)) else None
    case WakeOne(_, u) =>
      if s.pc[t] == Wake(false) && u < |s.pc| && s.pc[u].Asleep? then Some(At(At(s, u, Reacquire), t, PostUnlock))
      else None
    case Act(_) => Acts(s, t)
  }

  function Acts(s: State, t: nat): Option<State>
    requires t < |s.pc|
  {
    match s.pc[t]
    case Idle => None
    case Acquire => if s.lock == None then Some(At(s, t, Check).(lock := Some(t))) else None
    case Check =>
      if s.count <= 0 then Some(At(s, t, SetZero).(numWaiting := s.numWaiting + 1)) else Some(At(s, t, Take))
    case SetZero => Some(At(s, t, Release).(futx := 0))
    case Release => Some(At(s, t, FutexWait).(lock := None))
    case FutexWait => Some(At(s, t, if s.futx == 0 then Asleep else Reacquire))
    case Asleep => None
    case Reacquire => if s.lock == None then Some(At(s, t, Recount).(lock := Some(t))) else None
    case Recount => Some(At(s, t, Check).(numWaiting := s.numWaiting - 1))
    case Take => Some(At(s, t, Unlock).(count := s.count - 1, taken := s.taken + 1))
    case Unlock => Some(At(s, t, Idle).(lock := None))
    case PostAcquire(all) => if s.lock == None then Some(At(s, t, Post(all)).(lock := Some(t))) else None
    case Post(all) =>
      var raised := s.(count := s.count + 1, posted := s.posted + 1);
      Some(At(raised, t, if s.numWaiting > 0 then SetOne(all) else PostUnlock))
    case SetOne(all) => Some(At(s, t, Wake(all)).(futx := 1))
    case Wake(all) =>
      if all then Some(At(s.(pc := AllWoken(s.pc)), t, PostUnlock))
      else if Count(s.pc, IsAsleep) == 0 then Some(At(s, t, PostUnlock))
      else None
    case PostUnlock => Some(At(s, t, Idle).(lock := None))
  }

  function AllWoken(pc: seq<Pc>): (r: seq<Pc>)
    ensures |r| == |pc|
    ensures forall i :: 0 <= i < |pc| ==> r[i] == if pc[i].Asleep? then Reacquire else pc[i]
  {
    seq(|pc|, i requires 0 <= i < |pc| => if pc[i].Asleep? then Reacquire else pc[i])
  }

  predicate HoldsLock(pc: Pc) {
    pc.Check? || pc.SetZero? || pc.Release? || pc.Recount? || pc.Take? || pc.Unlock?
    || pc.Post? || pc.SetOne? || pc.Wake? || pc.PostUnlock?
  }

  /** Counted in numWaiting. */
  predicate Waits(pc: Pc) {
    pc.SetZero? || pc.Release? || pc.FutexWait? || pc.Asleep? || pc.Reacquire? || pc.Recount?
  }

  /** Waits on the futex word or is about to, the word having been set back. */
  predicate OnFutex(pc: Pc) {
    pc.Release? || pc.FutexWait? || pc.Asleep?
  }

  /** A waiter that is awake: it looks at the count again before it can sleep, or
      takes, or is about to compare the futex word. */
  predicate Awake(pc: Pc) {
    pc.Check? || pc.Take? || (Waits(pc) && !pc.Asleep?)
  }

  /** A poster that has raised the count and still owes the wake-up. */
  predicate Owes(pc: Pc) {
    pc.SetOne? || pc.Wake?
  }

  ghost predicate Locks(s: State) {
    && (forall t :: 0 <= t < |s.pc| && HoldsLock(s.pc[t]) ==> s.lock == Some(t))
    && (s.lock.Some? ==> s.lock.value < |s.pc| && HoldsLock(s.pc[s.lock.value]))
  }

  ghost predicate Counts(s: State) {
    && s.numWaiting == Count(s.pc, Waits)
    && s.count == s.initial + s.posted - s.taken
    && (s.initial >= 0 ==> s.count >= 0)
    && (forall t :: 0 <= t < |s.pc| && s.pc[t].Take? ==> s.count > 0)
    && (forall t :: 0 <= t < |s.pc| && s.pc[t].SetZero? ==> s.count <= 0)
  }

  /** Unless the word says otherwise, whoever is at the futex has reason to sleep. */
  ghost predicate Word(s: State) {
    (s.futx == 0 || s.futx == 1)
    && (s.futx == 0 && Count(s.pc, OnFutex) > 0 ==>
      s.count <= 0 || (s.count <= 1 && s.lock.Some? && s.lock.value < |s.pc| && s.pc[s.lock.value].SetOne?))
  }

  /** While somebody sleeps, each unit of the count is claimed by an awake waiter or
      by a wake-up still owed. */
  ghost predicate NoneLost(s: State) {
    Count(s.pc, IsAsleep) > 0 ==> s.count <= Count(s.pc, Awake) + Count(s.pc, Owes)
  }

  ghost predicate Inv(s: State) {
    Locks(s) && Counts(s) && Word(s) && NoneLost(s)
  }

  /** How the counts move when thread t goes from one place to another. */
  ghost predicate CountsMove(s: State, s': State, t: nat)
    requires t < |s.pc| == |s'.pc|
  {
    && Count(s'.pc, Waits) + One(Waits(s.pc[t])) == Count(s.pc, Waits) + One(Waits(s'.pc[t]))
    && Count(s'.pc, OnFutex) + One(OnFutex(s.pc[t])) == Count(s.pc, OnFutex) + One(OnFutex(s'.pc[t]))
    && Count(s'.pc, IsAsleep) + One(IsAsleep(s.pc[t])) == Count(s.pc, IsAsleep) + One(IsAsleep(s'.pc[t]))
    && Count(s'.pc, Awake) + One(Awake(s.pc[t])) == Count(s.pc, Awake) + One(Awake(s'.pc[t]))
    && Count(s'.pc, Owes) + One(Owes(s.pc[t])) == Count(s.pc, Owes) + One(Owes(s'.pc[t]))
  }

  lemma MoveCounts(s: State, s': State, t: nat)
    requires t < |s.pc| == |s'.pc| && s'.pc == s.pc[t := s'.pc[t]]
    ensures CountsMove(s, s', t)
  {
    CountUpdate(s.pc, t, s'.pc[t], Waits);
    CountUpdate(s.pc, t, s'.pc[t], OnFutex);
    CountUpdate(s.pc, t, s'.pc[t], IsAsleep);
    CountUpdate(s.pc, t, s'.pc[t], Awake);
    CountUpdate(s.pc, t, s'.pc[t], Owes);
  }

  lemma OnFutexWaits(pc: seq<Pc>)
    ensures Count(pc, OnFutex) <= Count(pc, Waits) && Count(pc, IsAsleep) <= Count(pc, OnFutex)
  {
    if pc != [] {
      OnFutexWaits(pc[1..]);
    }
  }

  /** A step of one thread on its own. */
  predicate Single(s: State, step: Step)
    requires step.t < |s.pc|
  {
    !step.WakeOne? && !(step.Act? && s.pc[step.t] == Wake(true))
  }

  lemma SingleLocks(s: State, step: Step)
    requires Locks(s) && step.t < |s.pc| && Single(s, step) && Next(s, step).Some?
    ensures Locks(Next(s, step).value)
  {
  }

  lemma SingleCounts(s: State, step: Step)
    requires Locks(s) && Counts(s) && step.t < |s.pc| && Single(s, step) && Next(s, step).Some?
    requires CountsMove(s, Next(s, step).value, step.t)
    ensures Counts(Next(s, step).value)
  {
    hide Count;
  }

  lemma SingleWord(s: State, step: Step)
    requires Locks(s) && Counts(s) && Word(s) && step.t < |s.pc| && Single(s, step) && Next(s, step).Some?
    requires CountsMove(s, Next(s, step).value, step.t)
    ensures Word(Next(s, step).value)
  {
    hide Count;
    OnFutexWaits(s.pc);
  }

  lemma SingleNoneLost(s: State, step: Step)
    requires Locks(s) && Counts(s) && Word(s) && NoneLost(s) && step.t < |s.pc| && Single(s, step)
    requires Next(s, step).Some?
    requires CountsMove(s, Next(s, step).value, step.t)
    ensures NoneLost(Next(s, step).value)
  {
    hide Count;
    OnFutexWaits(s.pc);
    if s.pc[step.t].FutexWait? {
      CountAtLeast(s.pc, step.t, OnFutex);
      if s.lock.Some? && s.lock.value < |s.pc| && s.pc[s.lock.value].SetOne? {
        CountAtLeast(s.pc, s.lock.value, Owes);
      }
    }
  }

  lemma SingleMoves(s: State, step: Step)
    requires step.t < |s.pc| && Single(s, step) && Next(s, step).Some?
    ensures var s' := Next(s, step).value; |s'.pc| == |s.pc| && s'.pc == s.pc[step.t := s'.pc[step.t]]
  {
  }

  lemma SingleKeeps(s: State, step: Step)
    requires Inv(s) && step.t < |s.pc| && Single(s, step) && Next(s, step).Some?
    ensures Inv(Next(s, step).value)
  {
    SingleMoves(s, step);
    MoveCounts(s, Next(s, step).value, step.t);
    SingleLocks(s, step);
    SingleCounts(s, step);
    SingleWord(s, step);
    SingleNoneLost(s, step);
    hide Locks, Counts, Word, NoneLost;
  }

  /** A signal hands its wake-up to one sleeper. */
  lemma WakeOneKeeps(s: State, step: Step)
    requires Inv(s) && step.t < |s.pc| && step.WakeOne? && Next(s, step).Some?
    ensures Inv(Next(s, step).value)
  {
    var middle := At(s, step.u, Reacquire);
    MoveCounts(s, middle, step.u);
    MoveCounts(middle, Next(s, step).value, step.t);
    hide Count;
  }

  lemma AllWokenCounts(pc: seq<Pc>)
    ensures Count(AllWoken(pc), Waits) == Count(pc, Waits)
    ensures Count(AllWoken(pc), OnFutex) <= Count(pc, OnFutex)
    ensures Count(AllWoken(pc), IsAsleep) == 0
  {
    CountSame(pc, AllWoken(pc), Waits);
    CountFewer(pc, AllWoken(pc), OnFutex);
    CountNone(AllWoken(pc), IsAsleep);
  }

  /** A broadcast leaves nobody asleep. */
  lemma WakeAllKeeps(s: State, t: nat)
    requires Inv(s) && t < |s.pc| && s.pc[t] == Wake(true)
    ensures Inv(Next(s, Act(t)).value)
  {
    AllWokenCounts(s.pc);
    var middle := s.(pc := AllWoken(s.pc));
    MoveCounts(middle, Next(s, Act(t)).value, t);
    hide Count;
  }

  lemma StepKeeps(s: State, step: Step)
    requires Inv(s) && step.t < |s.pc| && Next(s, step).Some?
    ensures Inv(Next(s, step).value) && |Next(s, step).value.pc| == |s.pc|
    ensures Next(s, step).value.initial == s.initial
  {
    if step.WakeOne? {
      WakeOneKeeps(s, step);
    } else if step.Act? && s.pc[step.t] == Wake(true) {
      WakeAllKeeps(s, step.t);
    } else {
      SingleKeeps(s, step);
      SingleMoves(s, step);
    }
  }

  function Start(threads: nat, initial: int): State {
    State(initial, 0, 0, None, seq(threads, _ => Idle), initial, 0, 0)
  }

  lemma StartInv(threads: nat, initial: int)
    ensures Inv(Start(threads, initial))
  {
    var s := Start(threads, initial);
    CountNone(s.pc, Waits);
    CountNone(s.pc, IsAsleep);
    OnFutexWaits(s.pc);
  }

  ghost predicate Run(s: State, steps: seq<Step>, s': State)
    decreases |steps|
  {
    if steps == [] then s == s'
    else steps[0].t < |s.pc| && Next(s, steps[0]).Some? && Run(Next(s, steps[0]).value, steps[1..], s')
  }

  lemma {:induction false} RunKeeps(s: State, steps: seq<Step>, s': State)
    requires Inv(s) && Run(s, steps, s')
    ensures Inv(s') && s'.initial == s.initial && |s'.pc| == |s.pc|
    decreases |steps|
  {
    if steps != [] {
      StepKeeps(s, steps[0]);
      hide Inv, Next;
      RunKeeps(Next(s, steps[0]).value, steps[1..], s');
    }
  }

  /** In every run, whatever barges in and however often sleepers return unasked: the
      count is the initial value plus posts minus waits done, never negative from a
      start that is not; and while a thread sleeps the count does not exceed the
      awake waiters and the wake-ups still owed. */
  lemma NoWakeupLost(threads: nat, initial: int, steps: seq<Step>, s: State)
    requires Run(Start(threads, initial), steps, s)
    ensures s.count == initial + s.posted - s.taken
    ensures initial >= 0 ==> s.count >= 0
    ensures Count(s.pc, IsAsleep) > 0 ==> s.count <= Count(s.pc, Awake) + Count(s.pc, Owes)
    ensures Count(s.pc, Owes) <= 1
  {
    StartInv(threads, initial);
    RunKeeps(Start(threads, initial), steps, s);
    if Count(s.pc, Owes) > 1 {
      var t := SomeInside(s.pc, Owes);
      CountUpdate(s.pc, t, Idle, Owes);
      var u := SomeInside(s.pc[t := Idle], Owes);
      assert false;
    }
  }

  /** A thread that can take a step by itself. */
  predicate Moves(s: State, t: nat) {
    t < |s.pc| && (Acts(s, t).Some? || exists u :: 0 <= u < |s.pc| && s.pc[t] == Wake(false) && s.pc[u].Asleep?)
  }

  /** When units are there and a thread sleeps, somebody is on the way: no run ends
      with a sleeper that a post should have let through. */
  lemma SleeperNotStranded(threads: nat, initial: int, steps: seq<Step>, s: State) returns (t: nat)
    requires Run(Start(threads, initial), steps, s)
    requires s.count > 0 && Count(s.pc, IsAsleep) > 0
    ensures Moves(s, t) && !s.pc[t].Idle?
  {
    StartInv(threads, initial);
    RunKeeps(Start(threads, initial), steps, s);
    var sleeper := SomeInside(s.pc, IsAsleep);
    if s.lock.Some? {
      t := s.lock.value;
    } else if Count(s.pc, Awake) > 0 {
      t := SomeInside(s.pc, Awake);
    } else {
      t := SomeInside(s.pc, Owes);
    }
  }

  // What a broadcast posts.

  predicate Posting(pc: Pc) {
    pc.PostAcquire? || pc.Post?
  }

  predicate NoPostStarts(steps: seq<Step>) {
    forall i :: 0 <= i < |steps| ==> !steps[i].StartPost?
  }

  /** Posts made and posts under way: only a new call adds one, a broadcast no more than
      a signal. */
  function Posts(s: State): nat {
    s.posted + Count(s.pc, Posting)
  }

  lemma StepPosts(s: State, step: Step)
    requires step.t < |s.pc| && Next(s, step).Some?
    ensures Posts(Next(s, step).value) == Posts(s) + One(step.StartPost?)
  {
    hide Count;
    var s', t := Next(s, step).value, step.t;
    if step.WakeOne? {
      var middle := s.pc[step.u := Reacquire];
      CountUpdate(s.pc, step.u, Reacquire, Posting);
      CountUpdate(middle, t, s'.pc[t], Posting);
    } else if step.Act? && s.pc[t] == Wake(true) {
      CountSame(s.pc, AllWoken(s.pc), Posting);
      CountUpdate(AllWoken(s.pc), t, s'.pc[t], Posting);
    } else {
      SingleMoves(s, step);
      CountUpdate(s.pc, t, s'.pc[t], Posting);
      SinglePosts(s, step);
      hide Next, Single;
    }
  }

  lemma SinglePosts(s: State, step: Step)
    requires step.t < |s.pc| && Single(s, step) && Next(s, step).Some?
    ensures var s' := Next(s, step).value;
      |s'.pc| == |s.pc| &&
      s'.posted + One(Posting(s'.pc[step.t])) == s.posted + One(Posting(s.pc[step.t])) + One(step.StartPost?)
  {
  }

  lemma {:induction false} RunPosts(s: State, steps: seq<Step>, s': State)
    requires Run(s, steps, s') && NoPostStarts(steps)
    ensures Posts(s') == Posts(s)
    decreases |steps|
  {
    if steps != [] {
      StepPosts(s, steps[0]);
      hide Posts, Next;
      RunPosts(Next(s, steps[0]).value, steps[1..], s');
    }
  }

  /** The threads go from one state to the other, and nobody calls signal or broadcast
      on the way. */
  ghost predicate Leads(s: State, s': State) {
    exists steps :: NoPostStarts(steps) && Run(s, steps, s')
  }

  lemma LeadsSelf(s: State)
    ensures Leads(s, s)
  {
    assert NoPostStarts([]) && Run(s, [], s);
  }

  lemma LeadsStep(s: State, step: Step, s1: State, s2: State)
    requires step.t < |s.pc| && Next(s, step) == Some(s1) && !step.StartPost? && Leads(s1, s2)
    ensures Leads(s, s2)
  {
    var steps :| NoPostStarts(steps) && Run(s1, steps, s2);
    var more := [step] + steps;
    assert more[1..] == steps;
    assert NoPostStarts(more) && Run(s, more, s2);
  }

  /** Every thread is outside or asleep. */
  ghost predicate Resting(s: State) {
    s.lock == None && forall t :: 0 <= t < |s.pc| ==> s.pc[t].Idle? || s.pc[t].Asleep?
  }

  lemma RestingCounts(s: State)
    requires Inv(s) && Resting(s) && s.initial >= 0 && Count(s.pc, IsAsleep) > 0
    ensures s.count == 0 && s.numWaiting == Count(s.pc, IsAsleep) && Posts(s) == s.posted
  {
    CountNone(s.pc, Awake);
    CountNone(s.pc, Owes);
    CountNone(s.pc, Posting);
    SameWaits(s.pc);
  }

  lemma {:induction false} SameWaits(pc: seq<Pc>)
    requires forall t :: 0 <= t < |pc| ==> pc[t].Idle? || pc[t].Asleep?
    ensures Count(pc, Waits) == Count(pc, IsAsleep)
  {
    if pc != [] {
      SameWaits(pc[1..]);
    }
  }

  function Called(s: State, t: nat, all: bool): State
    requires t < |s.pc|
  {
    At(s, t, PostAcquire(all))
  }

  /** A signal or a broadcast to sleepers lets one wait through and no more, whoever it is. */
  lemma OneLetThrough(s: State, t: nat, all: bool, s': State)
    requires Inv(s) && Resting(s) && s.initial >= 0 && Count(s.pc, IsAsleep) > 0
    requires t < |s.pc| && s.pc[t].Idle? && Leads(Called(s, t, all), s')
    ensures s'.taken <= s.taken + 1
  {
    var after, call := Called(s, t, all), StartPost(t, all);
    RestingCounts(s);
    assert Next(s, call) == Some(after);
    StepKeeps(s, call);
    StepPosts(s, call);
    var steps :| NoPostStarts(steps) && Run(after, steps, s');
    RunKeeps(after, steps, s');
    RunPosts(after, steps, s');
  }

  /** One after another, steps of a single thread. */
  lemma Alone(s: State, t: nat, s': State)
    requires t < |s.pc| && Acts(s, t).Some? && Leads(Acts(s, t).value, s')
    ensures Leads(s, s')
  {
    hide Leads;
    assert Next(s, Act(t)) == Acts(s, t);
    LeadsStep(s, Act(t), Acts(s, t).value, s');
  }

  /** What the caller of broadcast leaves behind. */
  function Broadcasted(s: State, t: nat): State
    requires t < |s.pc|
  {
    At(s.(pc := AllWoken(s.pc)), t, Idle).(count := s.count + 1, posted := s.posted + 1, futx := 1, lock := None)
  }

  lemma BroadcastDone(s: State, t: nat, s': State)
    requires t < |s.pc| && s.pc[t].Idle? && s.lock == None && s.numWaiting > 0
    requires Leads(Broadcasted(s, t), s')
    ensures Leads(Called(s, t, true), s')
  {
    hide Leads;
    var s0 := Called(s, t, true);
    var s1 := Acts(s0, t).value;
    var s2 := Acts(s1, t).value;
    var s3 := Acts(s2, t).value;
    var s4 := Acts(s3, t).value;
    assert Acts(s4, t).value.pc == Broadcasted(s, t).pc;
    assert Acts(s4, t) == Some(Broadcasted(s, t));
    Alone(s4, t, s');
    Alone(s3, t, s');
    Alone(s2, t, s');
    Alone(s1, t, s');
    Alone(s0, t, s');
  }

  /** A woken thread that finds a unit takes it and leaves. */
  lemma Takes(s: State, u: nat, s': State)
    requires u < |s.pc| && s.pc[u].Reacquire? && s.lock == None && s.count > 0
    requires Leads(At(s, u, Idle).(count := s.count - 1, taken := s.taken + 1, numWaiting := s.numWaiting - 1), s')
    ensures Leads(s, s')
  {
    hide Leads;
    var s1 := Acts(s, u).value;
    var s2 := Acts(s1, u).value;
    var s3 := Acts(s2, u).value;
    var s4 := Acts(s3, u).value;
    assert Acts(s4, u).value.pc == s.pc[u := Idle];
    assert Acts(s4, u) == Some(At(s, u, Idle).(count := s.count - 1, taken := s.taken + 1,
                                               numWaiting := s.numWaiting - 1));
    Alone(s4, u, s');
    Alone(s3, u, s');
    Alone(s2, u, s');
    Alone(s1, u, s');
    Alone(s, u, s');
  }

  /** One that looks at the count and finds none goes to sleep. */
  lemma Sleeps(s: State, u: nat, s': State)
    requires u < |s.pc| && s.pc[u].Check? && s.lock == Some(u) && s.count <= 0
    requires Leads(At(s, u, Asleep).(futx := 0, numWaiting := s.numWaiting + 1, lock := None), s')
    ensures Leads(s, s')
  {
    hide Leads;
    var s1 := Acts(s, u).value;
    var s2 := Acts(s1, u).value;
    var s3 := Acts(s2, u).value;
    assert Acts(s3, u).value.pc == s.pc[u := Asleep];
    assert Acts(s3, u) == Some(At(s, u, Asleep).(futx := 0, numWaiting := s.numWaiting + 1, lock := None));
    Alone(s3, u, s');
    Alone(s2, u, s');
    Alone(s1, u, s');
    Alone(s, u, s');
  }

  /** All who slept when broadcast was called can get through before the next post exactly
      when it was one thread. */
  lemma BroadcastExactly(threads: nat, initial: nat, steps: seq<Step>, s: State, t: nat)
    requires Run(Start(threads, initial), steps, s) && Resting(s) && Count(s.pc, IsAsleep) > 0
    requires t < |s.pc| && s.pc[t].Idle?
    ensures (exists s' :: Leads(Called(s, t, true), s') && s'.taken == s.taken + Count(s.pc, IsAsleep))
       <==> Count(s.pc, IsAsleep) == 1
  {
    hide Leads, Next, Run;
    StartInv(threads, initial);
    RunKeeps(Start(threads, initial), steps, s);
    RestingCounts(s);
    forall s' | Leads(Called(s, t, true), s')
      ensures s'.taken <= s.taken + 1
    {
      OneLetThrough(s, t, true, s');
    }
    if Count(s.pc, IsAsleep) == 1 {
      var u := SomeInside(s.pc, IsAsleep);
      var woken := Broadcasted(s, t);
      var s' := At(woken, u, Idle).(count := woken.count - 1, taken := woken.taken + 1,
                                    numWaiting := woken.numWaiting - 1);
      LeadsSelf(s');
      Takes(woken, u, s');
      BroadcastDone(s, t, s');
    }
  }

  lemma FallsAsleep(s: State, u: nat, s': State)
    requires u < |s.pc| && s.pc[u].Idle? && s.lock == None && s.count <= 0
    requires Leads(At(s, u, Asleep).(futx := 0, numWaiting := s.numWaiting + 1), s')
    ensures Leads(s, s')
  {
    hide Leads;
    var s1 := At(s, u, Acquire);
    var s2 := Acts(s1, u).value;
    assert At(s2, u, Asleep).pc == s.pc[u := Asleep];
    Sleeps(s2, u, s');
    Alone(s1, u, s');
    assert Next(s, StartWait(u)) == Some(s1);
    LeadsStep(s, StartWait(u), s1, s');
  }

  lemma SleepsAgain(s: State, u: nat, s': State)
    requires u < |s.pc| && s.pc[u].Reacquire? && s.lock == None && s.count <= 0
    requires Leads(At(s, u, Asleep).(futx := 0), s')
    ensures Leads(s, s')
  {
    hide Leads;
    var s1 := Acts(s, u).value;
    var s2 := Acts(s1, u).value;
    assert At(s2, u, Asleep).pc == s.pc[u := Asleep];
    Sleeps(s2, u, s');
    Alone(s1, u, s');
    Alone(s, u, s');
  }

  /** Two sleepers and a broadcast that wakes both: one finds no unit and sleeps on, and
      no thread that is inside can take a step any more. */
  lemma BroadcastStrands(threads: nat) returns (s: State, s': State)
    requires threads >= 3
    ensures Leads(Start(threads, 0), s) && |s.pc| == threads && Resting(s)
    ensures s.pc[0].Idle? && s.pc[1].Asleep? && s.pc[2].Asleep?
    ensures Leads(Called(s, 0, true), s') && |s'.pc| == threads && s'.pc[2].Asleep?
    ensures forall t :: 0 <= t < threads ==> !Moves(s', t)
  {
    hide Leads;
    var s0 := Start(threads, 0);
    var s1 := At(s0, 1, Asleep).(futx := 0, numWaiting := s0.numWaiting + 1);
    s := At(s1, 2, Asleep).(futx := 0, numWaiting := s1.numWaiting + 1);
    LeadsSelf(s);
    FallsAsleep(s1, 2, s);
    FallsAsleep(s0, 1, s);
    var woken := Broadcasted(s, 0);
    var taken := At(woken, 1, Idle).(count := woken.count - 1, taken := woken.taken + 1,
                                     numWaiting := woken.numWaiting - 1);
    s' := At(taken, 2, Asleep).(futx := 0);
    LeadsSelf(s');
    SleepsAgain(taken, 2, s');
    Takes(woken, 1, s');
    BroadcastDone(s, 0, s');
  }
}
