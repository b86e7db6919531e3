/** A barrier for a fixed number of threads, each of which waits at it again and
    again, on a condition variable made of a lock and a futex word. */
module Barrier {
  import opened Options
  import opened Threads

  /** Where a thread is. Between two places lies one step on the shared state. */
  datatype Pc =
    | Outside
    | Spin             // until everyone has left
    | Acquire
    | Arrive
    // the last one to arrive
    | Release
    | BroadcastLock
    | SetOne
    | Wake
    | BroadcastUnlock
    // the others
    | WaitLock
    | SetZero
    | WaitUnlock
    | Unlock
    | FutexWait
    | Asleep
    | Reacquire
    | Leave
    | UnlockLeave

  /** rounds counts how often the last thread arrived, releaser is who it was last;
      entered and returned count each thread's calls. */
  datatype State = State(count: nat, arrived: int, leaving: int, lock: Option<nat>, condLock: Option<nat>, futx: int,
                         pc: seq<Pc>, entered: seq<nat>, returned: seq<nat>, rounds: nat, releaser: nat)

  predicate WellSized(s: State) {
    s.count > 0 && |s.pc| == |s.entered| == |s.returned| == s.count && s.releaser < s.count
  }

  function At(s: State, t: nat, pc: Pc): State
    requires t < |s.pc|
  {
    s.(pc := s.pc[t := pc])
  }

  function Woken(pc: Pc): Pc {
    if pc == Asleep then Reacquire else pc
  }

  /** The step of thread t, None when it has to wait. FUTEX_WAIT returns on a wake
      or when the word does not hold the expected value. */
  function Next(s: State, t: nat): Option<State>
    requires WellSized(s) && t < s.count
  {
    match s.pc[t]
    case Outside => Some(At(s, t, Spin).(entered := s.entered[t := s.entered[t] + 1]))
    case Spin => Some(if s.leaving > 0 then s else At(s, t, Acquire))
    case Acquire => if s.lock == None then Some(At(s, t, Arrive).(lock := Some(t))) else None
    case Arrive =>
      if s.arrived + 1 == s.count then
        Some(At(s, t, Release).(arrived := 0, leaving := s.count - 1, rounds := s.rounds + 1, releaser := t))
      else Some(At(s, t, WaitLock).(arrived := s.arrived + 1))
    case Release => Some(At(s, t, BroadcastLock).(lock := None))
    case BroadcastLock => if s.condLock == None then Some(At(s, t, SetOne).(condLock := Some(t))) else None
    case SetOne => Some(At(s, t, Wake).(futx := 1))
    case Wake => Some(s.(pc := seq(|s.pc|,
                                   u requires 0 <= u < |s.pc| => if u == t then BroadcastUnlock else Woken(s.pc[u]))))
    case BroadcastUnlock => Some(At(s, t, Outside).(condLock := None, returned := s.returned[t := s.returned[t] + 1]))
    case WaitLock => if s.condLock == None then Some(At(s, t, SetZero).(condLock := Some(t))) else None
    case SetZero => Some(At(s, t, WaitUnlock).(futx := 0))
    case WaitUnlock => Some(At(s, t, Unlock).(condLock := None))
    case Unlock => Some(At(s, t, FutexWait).(lock := None))
    case FutexWait => Some(At(s, t, if s.futx == 0 then Asleep else Reacquire))
    case Asleep => None
    case Reacquire => if s.lock == None then Some(At(s, t, Leave).(lock := Some(t))) else None
    case Leave => Some(At(s, t, UnlockLeave).(leaving := s.leaving - 1))
    case UnlockLeave => Some(At(s, t, Outside).(lock := None, returned := s.returned[t := s.returned[t] + 1]))
  }

  predicate HoldsLock(pc: Pc) {
    pc.Arrive? || pc.Release? || pc.WaitLock? || pc.SetZero? || pc.WaitUnlock? || pc.Unlock? || pc.Leave?
    || pc.UnlockLeave?
  }

  predicate HoldsCond(pc: Pc) {
    pc.SetOne? || pc.Wake? || pc.BroadcastUnlock? || pc.SetZero? || pc.WaitUnlock?
  }

  /** Arrived in this round and not let go. */
  predicate Waiting(pc: Pc) {
    pc.WaitLock? || pc.SetZero? || pc.WaitUnlock? || pc.Unlock? || pc.FutexWait? || pc.Asleep?
  }

  /** Waiting, with the futex word set back by itself or a later one. */
  predicate Reset(pc: Pc) {
    pc.WaitUnlock? || pc.Unlock? || pc.FutexWait? || pc.Asleep?
  }

  /** Let go and not yet counted as having left. */
  predicate Draining(pc: Pc) {
    pc.FutexWait? || pc.Asleep? || pc.Reacquire? || pc.Leave?
  }

  predicate OnFutex(pc: Pc) {
    pc.FutexWait? || pc.Asleep?
  }

  predicate BeforeSet(pc: Pc) {
    pc.Release? || pc.BroadcastLock? || pc.SetOne?
  }

  predicate Broadcasting(pc: Pc) {
    BeforeSet(pc) || pc.Wake? || pc.BroadcastUnlock?
  }

  /** Has been let go from its call, or is the one that lets go, and not returned. */
  predicate Behind(pc: Pc, lettingGo: bool) {
    if pc.FutexWait? || pc.Asleep? then lettingGo
    else Broadcasting(pc) || pc.Reacquire? || pc.Leave? || pc.UnlockLeave?
  }

  /** How many of its calls a thread has entered and left, by where it is. */
  predicate Counted(s: State, t: nat)
    requires WellSized(s) && t < s.count
  {
    && s.returned[t] + One(Behind(s.pc[t], s.leaving > 0)) == s.rounds
    && s.entered[t] == s.returned[t] + One(s.pc[t] != Outside)
  }

  ghost predicate Locks(s: State)
    requires WellSized(s)
  {
    && (forall t :: 0 <= t < s.count && HoldsLock(s.pc[t]) ==> s.lock == Some(t))
    && (s.lock.Some? ==> s.lock.value < s.count && HoldsLock(s.pc[s.lock.value]))
    && (forall t :: 0 <= t < s.count && HoldsCond(s.pc[t]) ==> s.condLock == Some(t))
    && (s.condLock.Some? ==> s.condLock.value < s.count && HoldsCond(s.pc[s.condLock.value]))
  }

  /** Nobody is leaving: threads arrive, and those that wait wait for this round; who let
      the last round go may still be about to set the word, which keeps them off it. */
  ghost predicate Gathering(s: State)
    requires WellSized(s)
  {
    && s.leaving == 0 && s.arrived == Count(s.pc, Waiting) && s.arrived < s.count
    && (forall t :: 0 <= t < s.count ==> !s.pc[t].Reacquire? && !s.pc[t].Leave?)
    && (forall t :: 0 <= t < s.count && Reset(s.pc[t]) ==> s.futx == 0)
    && (BeforeSet(s.pc[s.releaser]) ==> s.pc[s.releaser].SetOne? || s.count == 1)
    && (s.pc[s.releaser].SetOne? || s.pc[s.releaser].Wake? ==>
      forall t :: 0 <= t < s.count ==> !s.pc[t].SetZero? && !Reset(s.pc[t]))
  }

  /** The last one has arrived: nobody else can; before the word is set somebody is left
      to wake, or it is about to be set, and then only the wake-up can be outstanding. */
  ghost predicate LettingGo(s: State)
    requires WellSized(s)
  {
    && 0 < s.leaving < s.count && s.leaving == Count(s.pc, Draining) && s.arrived == 0
    && (forall t :: 0 <= t < s.count ==>
      !s.pc[t].Acquire? && !s.pc[t].Arrive? && (Waiting(s.pc[t]) ==> Draining(s.pc[t])))
    && (if BeforeSet(s.pc[s.releaser]) then
          s.futx == 0 && (s.pc[s.releaser].SetOne? || exists t :: 0 <= t < s.count && OnFutex(s.pc[t]))
        else
          s.futx == 1 && (!s.pc[s.releaser].Wake? ==> forall t :: 0 <= t < s.count ==> !s.pc[t].Asleep?))
  }

  ghost predicate Inv(s: State) {
    && WellSized(s)
    && Locks(s)
    && (forall t :: 0 <= t < s.count ==> Counted(s, t))
    && (forall t :: 0 <= t < s.count && Broadcasting(s.pc[t]) ==> t == s.releaser)
    && (Gathering(s) || LettingGo(s))
  }

  function Start(count: nat): State {
    State(count, 0, 0, None, None, 0, seq(count, _ => Outside), seq(count, _ => 0), seq(count, _ => 0), 0, 0)
  }

  lemma StartInv(count: nat)
    requires count > 0
    ensures Inv(Start(count))
  {
    CountNone(Start(count).pc, Waiting);
  }

  lemma CountsAfter(s: State, t: nat, pc: Pc)
    requires WellSized(s) && t < s.count
    ensures Count(s.pc[t := pc], Waiting) + One(Waiting(s.pc[t])) == Count(s.pc, Waiting) + One(Waiting(pc))
    ensures Count(s.pc[t := pc], Draining) + One(Draining(s.pc[t])) == Count(s.pc, Draining) + One(Draining(pc))
  {
    CountUpdate(s.pc, t, pc, Waiting);
    CountUpdate(s.pc, t, pc, Draining);
  }

  predicate Plain(s: State, t: nat)
    requires WellSized(s) && t < s.count
  {
    !s.pc[t].Wake? && !(s.pc[t].Arrive? && s.arrived + 1 == s.count) && !s.pc[t].Leave?
  }

  lemma PlainOthers(s: State, t: nat, u: nat)
    requires WellSized(s) && t < s.count && u < s.count && u != t && Next(s, t).Some? && Plain(s, t)
    ensures var s' := Next(s, t).value;
      && WellSized(s') && s'.count == s.count && s'.leaving == s.leaving && s'.rounds == s.rounds
      && s'.pc[u] == s.pc[u] && s'.entered[u] == s.entered[u] && s'.returned[u] == s.returned[u]
  {
  }

  lemma PlainTurns(s: State, t: nat)
    requires WellSized(s) && t < s.count && Next(s, t).Some? && Plain(s, t)
    ensures WellSized(Next(s, t).value) && Next(s, t).value.count == s.count
    ensures Next(s, t).value.entered[t] == s.entered[t] + One(s.pc[t].Outside?)
    ensures Next(s, t).value.returned[t] == s.returned[t] + One(s.pc[t].BroadcastUnlock? || s.pc[t].UnlockLeave?)
  {
  }

  lemma PlainSelf(s: State, t: nat)
    requires WellSized(s) && t < s.count && Next(s, t).Some? && Plain(s, t) && Counted(s, t)
    requires s.pc[t].Unlock? ==> s.leaving == 0
    requires s.pc[t].FutexWait? && s.leaving <= 0 ==> s.futx == 0
    ensures WellSized(Next(s, t).value) && t < Next(s, t).value.count && Counted(Next(s, t).value, t)
  {
    PlainTurns(s, t);
    PlainEffect(s, t);
    hide Next, LockEffect, HoldsLock, HoldsCond;
  }

  lemma PlainCounted(s: State, t: nat, u: nat)
    requires WellSized(s) && t < s.count && u < s.count && Next(s, t).Some? && Plain(s, t)
    requires Counted(s, t) && Counted(s, u)
    requires s.pc[t].Unlock? ==> s.leaving == 0
    requires s.pc[t].FutexWait? && s.leaving <= 0 ==> s.futx == 0
    ensures WellSized(Next(s, t).value) && u < Next(s, t).value.count && Counted(Next(s, t).value, u)
  {
    hide Next;
    if u == t {
      PlainSelf(s, t);
    } else {
      PlainOthers(s, t, u);
    }
  }

  /** A lock is taken when free, given up by its holder, or not touched. */
  predicate LockEffect(before: bool, after: bool, lock: Option<nat>, lock': Option<nat>, t: nat) {
    if before == after then lock' == lock
    else if after then lock == None && lock' == Some(t)
    else lock' == None
  }

  /** What a plain step does, place by place. */
  predicate Effect(s: State, t: nat, s': State)
    requires WellSized(s) && t < s.count
  {
    && WellSized(s') && s'.count == s.count
    && s' == s.(pc := s.pc[t := s'.pc[t]], lock := s'.lock, condLock := s'.condLock, futx := s'.futx,
                                 arrived := s'.arrived, entered := s'.entered, returned := s'.returned)
    && LockEffect(HoldsLock(s.pc[t]), HoldsLock(s'.pc[t]), s.lock, s'.lock, t)
    && LockEffect(HoldsCond(s.pc[t]), HoldsCond(s'.pc[t]), s.condLock, s'.condLock, t)
    && s'.arrived == s.arrived + One(s.pc[t].Arrive?)
    && s'.futx == (if s.pc[t].SetOne? then 1 else if s.pc[t].SetZero? then 0 else s.futx)
    && Moves(s.pc[t], s'.pc[t], s.futx, s.leaving)
  }

  predicate Moves(pc: Pc, pc': Pc, futx: int, leaving: int) {
    match pc
    case Outside => pc' == Spin
    case Spin => pc' == if leaving > 0 then Spin else Acquire
    case Acquire => pc' == Arrive
    case Arrive => pc' == WaitLock
    case Release => pc' == BroadcastLock
    case BroadcastLock => pc' == SetOne
    case SetOne => pc' == Wake
    case BroadcastUnlock => pc' == Outside
    case WaitLock => pc' == SetZero
    case SetZero => pc' == WaitUnlock
    case WaitUnlock => pc' == Unlock
    case Unlock => pc' == FutexWait
    case FutexWait => pc' == if futx == 0 then Asleep else Reacquire
    case Reacquire => pc' == Leave
    case UnlockLeave => pc' == Outside
    case _ => false
  }

  lemma PlainEffect(s: State, t: nat)
    requires WellSized(s) && t < s.count && Next(s, t).Some? && Plain(s, t)
    ensures Effect(s, t, Next(s, t).value)
  {
    assert s.pc[t := s.pc[t]] == s.pc;
  }

  lemma PlainLocks(s: State, t: nat, s': State)
    requires WellSized(s) && Locks(s) && t < s.count && Effect(s, t, s')
    ensures Locks(s')
  {
    hide Moves, HoldsLock, HoldsCond;
  }

  lemma PlainGathering(s: State, t: nat, s': State)
    requires WellSized(s) && Locks(s) && t < s.count && Effect(s, t, s') && Gathering(s)
    requires s.pc[t].Arrive? ==> s.arrived + 1 < s.count
    requires forall u :: 0 <= u < s.count && Broadcasting(s.pc[u]) ==> u == s.releaser
    ensures Gathering(s')
  {
    PlainArrived(s, t, s');
    PlainGatheringWake(s, t, s');
    hide Count;
    forall u | 0 <= u < s.count
      ensures !s'.pc[u].Reacquire? && !s'.pc[u].Leave?
      ensures Reset(s'.pc[u]) ==> s'.futx == 0
    {
      assert u != t ==> s'.pc[u] == s.pc[u];
    }
  }

  lemma PlainArrived(s: State, t: nat, s': State)
    requires WellSized(s) && t < s.count && Effect(s, t, s')
    requires s.arrived == Count(s.pc, Waiting) && (Reset(s.pc[t]) ==> s.futx == 0)
    ensures s'.arrived == Count(s'.pc, Waiting)
  {
    CountsAfter(s, t, s'.pc[t]);
  }

  lemma PlainGatheringWake(s: State, t: nat, s': State)
    requires WellSized(s) && Locks(s) && t < s.count && Effect(s, t, s') && Gathering(s)
    requires forall u :: 0 <= u < s.count && Broadcasting(s.pc[u]) ==> u == s.releaser
    ensures s'.pc[s.releaser].SetOne? || s'.pc[s.releaser].Wake? ==>
      forall u :: 0 <= u < s.count ==> !s'.pc[u].SetZero? && !Reset(s'.pc[u])
  {
    hide Count;
    assert s.pc[t].BroadcastLock? ==> s.count == 1;
  }

  lemma PlainDrains(s: State, t: nat, s': State)
    requires WellSized(s) && t < s.count && Effect(s, t, s') && LettingGo(s)
    ensures s'.leaving == Count(s'.pc, Draining) && s'.arrived == 0
  {
    CountsAfter(s, t, s'.pc[t]);
  }

  lemma PlainBeforeSet(s: State, t: nat, s': State)
    requires WellSized(s) && t < s.count && Effect(s, t, s') && LettingGo(s)
    ensures BeforeSet(s.pc[s.releaser]) && !s.pc[s.releaser].SetOne? ==>
      exists u :: 0 <= u < s.count && OnFutex(s'.pc[u])
  {
    hide Count, LockEffect;
    if BeforeSet(s.pc[s.releaser]) && !s.pc[s.releaser].SetOne? {
      var u :| 0 <= u < s.count && OnFutex(s.pc[u]);
      assert OnFutex(s'.pc[u]);
    }
  }

  lemma PlainLettingGo(s: State, t: nat, s': State)
    requires WellSized(s) && t < s.count && Effect(s, t, s') && LettingGo(s)
    requires forall u :: 0 <= u < s.count && Broadcasting(s.pc[u]) ==> u == s.releaser
    ensures LettingGo(s')
  {
    PlainDrains(s, t, s');
    PlainBeforeSet(s, t, s');
    hide Count, LockEffect, OnFutex;
  }

  /** A step that is neither the last arrival, the wake-up nor a leave. */
  lemma PlainStepKeeps(s: State, t: nat)
    requires Inv(s) && t < s.count && Next(s, t).Some? && Plain(s, t)
    ensures Inv(Next(s, t).value)
  {
    var s' := Next(s, t).value;
    PlainEffect(s, t);
    forall u | 0 <= u < s.count
      ensures Counted(s', u)
    {
      PlainCounted(s, t, u);
    }
    hide Next;
    PlainLocks(s, t, s');
    if Gathering(s) {
      PlainGathering(s, t, s');
    } else {
      PlainLettingGo(s, t, s');
    }
    hide Counted, Gathering, LettingGo, Locks;
  }

  /** The last thread to arrive lets the others go; they have all come as far as the
      wait on the futex word, which is set back. */
  lemma LastArrivalKeeps(s: State, t: nat)
    requires Inv(s) && t < s.count && s.pc[t].Arrive? && s.arrived + 1 == s.count
    ensures Inv(Next(s, t).value)
  {
    OthersWaitOnFutex(s, t);
    LastArrivalCounted(s, t);
    LastArrivalPhase(s, t);
    hide Counted, Gathering, LettingGo;
  }

  lemma OthersWaitOnFutex(s: State, t: nat)
    requires WellSized(s) && Locks(s) && t < s.count && s.pc[t].Arrive? && Gathering(s) && s.arrived + 1 == s.count
    ensures forall u :: 0 <= u < s.count && u != t ==> s.pc[u].FutexWait? || s.pc[u].Asleep?
  {
    AllButOne(s.pc, t, Waiting);
    forall u | 0 <= u < s.count && u != t
      ensures s.pc[u].FutexWait? || s.pc[u].Asleep?
    {
      assert Waiting(s.pc[u]) && s.lock == Some(t);
    }
  }

  lemma LastArrivalCounted(s: State, t: nat)
    requires WellSized(s) && t < s.count && s.pc[t].Arrive? && s.leaving == 0 && s.arrived + 1 == s.count
    requires forall u :: 0 <= u < s.count ==> Counted(s, u)
    requires forall u :: 0 <= u < s.count && u != t ==> s.pc[u].FutexWait? || s.pc[u].Asleep?
    ensures forall u :: 0 <= u < s.count ==> Counted(Next(s, t).value, u)
  {
    forall u | 0 <= u < s.count
      ensures Counted(Next(s, t).value, u)
    {
      assert Counted(s, u);
    }
  }

  lemma LastArrivalPhase(s: State, t: nat)
    requires WellSized(s) && t < s.count && s.pc[t].Arrive? && Gathering(s) && s.arrived + 1 == s.count
    requires forall u :: 0 <= u < s.count && u != t ==> s.pc[u].FutexWait? || s.pc[u].Asleep?
    ensures if s.count == 1 then Gathering(Next(s, t).value) else LettingGo(Next(s, t).value)
  {
    CountsAfter(s, t, Release);
    ArrivedAllDrain(s, t);
  }

  lemma ArrivedAllDrain(s: State, t: nat)
    requires WellSized(s) && t < s.count && !Draining(s.pc[t]) && !Waiting(s.pc[t])
    requires forall u :: 0 <= u < s.count && u != t ==> s.pc[u].FutexWait? || s.pc[u].Asleep?
    ensures Count(s.pc, Draining) == Count(s.pc, Waiting)
  {
    CountAlike(s.pc, Draining, Waiting);
  }

  lemma WakeLocks(s: State, t: nat)
    requires WellSized(s) && Locks(s) && t < s.count && s.pc[t].Wake?
    ensures Locks(Next(s, t).value)
  {
  }

  /** The wake-up reaches every sleeper. */
  lemma WakeKeeps(s: State, t: nat)
    requires Inv(s) && t < s.count && s.pc[t].Wake?
    ensures Inv(Next(s, t).value)
  {
    var s' := Next(s, t).value;
    assert t == s.releaser;
    forall u | 0 <= u < s.count
      ensures Counted(s', u)
    {
      assert Counted(s, u);
      assert s.pc[u].Asleep? ==> !Gathering(s);
    }
    WakeLocks(s, t);
    WakePhase(s, t);
    hide Counted, Gathering, LettingGo, Locks;
  }

  lemma WakePhase(s: State, t: nat)
    requires WellSized(s) && t < s.count && s.pc[t].Wake? && t == s.releaser
    requires Gathering(s) || LettingGo(s)
    ensures Gathering(s) ==> Gathering(Next(s, t).value)
    ensures LettingGo(s) ==> LettingGo(Next(s, t).value)
  {
    var s' := Next(s, t).value;
    CountSame(s.pc, s'.pc, Draining);
    if Gathering(s) {
      assert s'.pc == s.pc[t := BroadcastUnlock];
      CountsAfter(s, t, BroadcastUnlock);
    }
  }

  lemma LeaveLocks(s: State, t: nat)
    requires WellSized(s) && Locks(s) && t < s.count && s.pc[t].Leave?
    ensures Locks(Next(s, t).value)
  {
  }

  /** One thread leaves; when it is the last, the next round can gather. */
  lemma LeaveKeeps(s: State, t: nat)
    requires Inv(s) && t < s.count && s.pc[t].Leave?
    ensures Inv(Next(s, t).value)
  {
    var s' := Next(s, t).value;
    LeavePhase(s, t);
    LeaveLocks(s, t);
    forall u | 0 <= u < s.count
      ensures Counted(s', u)
    {
      assert Counted(s, u);
    }
    hide Counted, Locks;
  }

  lemma LeavePhase(s: State, t: nat)
    requires WellSized(s) && t < s.count && s.pc[t].Leave? && LettingGo(s)
    ensures s.leaving > 1 ==> LettingGo(Next(s, t).value)
    ensures s.leaving == 1 ==> Gathering(Next(s, t).value)
    ensures s.leaving == 1 ==> forall u :: 0 <= u < s.count && u != t ==> !Draining(s.pc[u])
  {
    var s' := Next(s, t).value;
    CountsAfter(s, t, UnlockLeave);
    if BeforeSet(s.pc[s.releaser]) && !s.pc[s.releaser].SetOne? {
      var u :| 0 <= u < s.count && OnFutex(s.pc[u]);
      if u < t { CountTwo(s.pc, u, t, Draining); } else { CountTwo(s.pc, t, u, Draining); }
      assert OnFutex(s'.pc[u]);
    }
    if s.leaving == 1 {
      forall u | 0 <= u < s.count
        ensures !Draining(s'.pc[u])
        ensures u != t ==> s'.pc[u] == s.pc[u]
      {
        if Draining(s'.pc[u]) {
          CountAtLeast(s'.pc, u, Draining);
        }
      }
      CountNone(s'.pc, Waiting);
    }
  }

  lemma StepKeeps(s: State, t: nat)
    requires Inv(s) && t < s.count && Next(s, t).Some?
    ensures Inv(Next(s, t).value)
  {
    if s.pc[t].Wake? {
      WakeKeeps(s, t);
    } else if s.pc[t].Leave? {
      LeaveKeeps(s, t);
    } else if s.pc[t].Arrive? && s.arrived + 1 == s.count {
      LastArrivalKeeps(s, t);
    } else {
      PlainStepKeeps(s, t);
    }
  }

  /** A step that gets the thread further: not another turn of the spin loop. */
  predicate Progresses(s: State, t: nat)
    requires WellSized(s) && t < s.count
  {
    Next(s, t).Some? && !(s.pc[t].Spin? && s.leaving > 0)
  }

  /** The threads named in schedule take a step each, in this order. */
  ghost predicate Run(s: State, schedule: seq<nat>, s': State)
    decreases |schedule|
  {
    if schedule == [] then s == s'
    else
      && WellSized(s) && schedule[0] < s.count && Next(s, schedule[0]).Some?
      && Run(Next(s, schedule[0]).value, schedule[1..], s')
  }

  lemma {:induction false} RunKeeps(s: State, schedule: seq<nat>, s': State)
    requires Inv(s) && Run(s, schedule, s')
    ensures Inv(s')
    decreases |schedule|
  {
    if schedule != [] {
      StepKeeps(s, schedule[0]);
      hide Inv, Next;
      RunKeeps(Next(s, schedule[0]).value, schedule[1..], s');
    }
  }

  /** No thread returns from its k-th wait before all have entered theirs, and no
      two threads are more than one round apart. */
  lemma Safe(count: nat, schedule: seq<nat>, s: State)
    requires count > 0 && Run(Start(count), schedule, s)
    ensures WellSized(s)
    ensures forall t, u :: 0 <= t < s.count && 0 <= u < s.count ==> s.returned[t] <= s.entered[u]
    ensures forall t, u :: 0 <= t < s.count && 0 <= u < s.count ==> s.returned[t] <= s.returned[u] + 1
    ensures 0 <= s.leaving < s.count && 0 <= s.arrived < s.count
  {
    StartInv(count);
    RunKeeps(Start(count), schedule, s);
    forall t, u | 0 <= t < s.count && 0 <= u < s.count
      ensures s.returned[t] <= s.entered[u] && s.returned[t] <= s.returned[u] + 1
    {
      assert Counted(s, t) && Counted(s, u);
    }
  }

  // No reachable state is stuck.

  /** Whoever holds the inner lock can go on. */
  lemma CondHolderMoves(s: State)
    requires Inv(s) && s.condLock.Some?
    ensures s.condLock.value < s.count && Progresses(s, s.condLock.value)
  {
  }

  /** Whoever holds the outer lock can go on, or waits for the inner lock only. */
  lemma LockHolderMoves(s: State) returns (t: nat)
    requires Inv(s) && s.lock.Some?
    ensures t < s.count && Progresses(s, t)
  {
    t := s.lock.value;
    if s.pc[t].WaitLock? && s.condLock.Some? {
      CondHolderMoves(s);
      t := s.condLock.value;
    }
  }

  lemma SomeoneMoves(s: State) returns (t: nat)
    requires Inv(s)
    ensures t < s.count && Progresses(s, t)
  {
    if s.lock.Some? {
      t := LockHolderMoves(s);
    } else if s.condLock.Some? {
      CondHolderMoves(s);
      t := s.condLock.value;
    } else if Gathering(s) {
      t := SomeOutside(s.pc, Waiting);
    } else if BeforeSet(s.pc[s.releaser]) || s.pc[s.releaser].Wake? {
      t := s.releaser;
    } else {
      t := SomeInside(s.pc, Draining);
    }
  }

  /** In every state of every run some thread can take a step that is no mere turn of
      the spin loop. */
  lemma NeverStuck(count: nat, schedule: seq<nat>, s: State) returns (t: nat)
    requires count > 0 && Run(Start(count), schedule, s)
    ensures WellSized(s) && t < s.count && Progresses(s, t)
  {
    StartInv(count);
    RunKeeps(Start(count), schedule, s);
    t := SomeoneMoves(s);
  }

  // Runs get somewhere.

  /** How far a thread is through one call. */
  function Rank(pc: Pc): nat {
    match pc
    case Outside => 0
    case Spin => 1
    case Acquire => 2
    case Arrive => 3
    case Release => 4
    case BroadcastLock => 5
    case SetOne => 6
    case Wake => 7
    case BroadcastUnlock => 8
    case WaitLock => 4
    case SetZero => 5
    case WaitUnlock => 6
    case Unlock => 7
    case FutexWait => 8
    case Asleep => 9
    case Reacquire => 10
    case Leave => 11
    case UnlockLeave => 12
  }

  function Work(pc: seq<Pc>, returned: seq<nat>): nat
    requires |pc| == |returned|
  {
    if pc == [] then 0 else 13 * returned[0] + Rank(pc[0]) + Work(pc[1..], returned[1..])
  }

  lemma {:induction false} WorkUpdate(pc: seq<Pc>, returned: seq<nat>, t: nat, x: Pc, n: nat)
    requires |pc| == |returned| && t < |pc|
    ensures Work(pc[t := x], returned[t := n]) + 13 * returned[t] + Rank(pc[t]) == Work(pc, returned) + 13 * n + Rank(x)
  {
    if t == 0 {
      assert pc[t := x][1..] == pc[1..] && returned[t := n][1..] == returned[1..];
    } else {
      assert pc[t := x][1..] == pc[1..][t - 1 := x] && returned[t := n][1..] == returned[1..][t - 1 := n];
      WorkUpdate(pc[1..], returned[1..], t - 1, x, n);
    }
  }

  lemma {:induction false} WorkAtMost(pc: seq<Pc>, returned: seq<nat>, k: nat)
    requires |pc| == |returned| && forall t :: 0 <= t < |pc| ==> returned[t] <= k
    ensures Work(pc, returned) <= |pc| * (13 * k + 12)
  {
    if pc != [] {
      WorkAtMost(pc[1..], returned[1..], k);
      assert |pc| * (13 * k + 12) == (|pc| - 1) * (13 * k + 12) + (13 * k + 12);
    }
  }

  lemma {:induction false} WorkGrows(pc: seq<Pc>, pc': seq<Pc>, returned: seq<nat>)
    requires |pc| == |pc'| == |returned| && forall t :: 0 <= t < |pc| ==> Rank(pc[t]) <= Rank(pc'[t])
    ensures Work(pc, returned) <= Work(pc', returned)
    ensures (exists t :: 0 <= t < |pc| && Rank(pc[t]) < Rank(pc'[t])) ==> Work(pc, returned) < Work(pc', returned)
  {
    if pc != [] {
      WorkGrows(pc[1..], pc'[1..], returned[1..]);
      if t :| 0 <= t < |pc| && Rank(pc[t]) < Rank(pc'[t]) {
        assert t > 0 ==> Rank(pc[1..][t - 1]) < Rank(pc'[1..][t - 1]);
      }
    }
  }

  /** A step other than the wake-up changes one thread, and takes it further. */
  lemma OneStepWorks(s: State, t: nat)
    requires WellSized(s) && t < s.count && Next(s, t).Some? && !s.pc[t].Wake?
    ensures
      var s' := Next(s, t).value;
      && WellSized(s')
      && s'.count == s.count
      && s'.pc == s.pc[t := s'.pc[t]] && s'.returned == s.returned[t := s'.returned[t]]
      && 13 * s.returned[t] + Rank(s.pc[t]) + One(Progresses(s, t)) <= 13 * s'.returned[t] + Rank(s'.pc[t])
  {
    assert s.pc[t := s.pc[t]] == s.pc && s.returned[t := s.returned[t]] == s.returned;
  }

  lemma StepWorks(s: State, t: nat)
    requires WellSized(s) && t < s.count && Next(s, t).Some?
    ensures WellSized(Next(s, t).value) && Next(s, t).value.count == s.count
    ensures Work(s.pc, s.returned) + One(Progresses(s, t)) <= Work(Next(s, t).value.pc, Next(s, t).value.returned)
  {
    var s' := Next(s, t).value;
    if s.pc[t].Wake? {
      WakeWorks(s, t);
    } else {
      OneStepWorks(s, t);
      hide Next, Rank, Progresses;
      WorkUpdate(s.pc, s.returned, t, s'.pc[t], s'.returned[t]);
    }
  }

  lemma WakeWorks(s: State, t: nat)
    requires WellSized(s) && t < s.count && s.pc[t].Wake?
    ensures Work(s.pc, s.returned) < Work(Next(s, t).value.pc, s.returned)
    ensures Next(s, t).value.returned == s.returned && WellSized(Next(s, t).value)
  {
    var s' := Next(s, t).value;
    assert Rank(s.pc[t]) < Rank(s'.pc[t]);
    WorkGrows(s.pc, s'.pc, s.returned);
  }

  /** The steps of a run that are no mere turns of the spin loop. */
  ghost function ProgressSteps(s: State, schedule: seq<nat>, s': State): nat
    requires Run(s, schedule, s')
    decreases |schedule|
  {
    if schedule == [] then 0
    else One(Progresses(s, schedule[0])) + ProgressSteps(Next(s, schedule[0]).value, schedule[1..], s')
  }

  lemma {:induction false} RunWorks(s: State, schedule: seq<nat>, s': State)
    requires WellSized(s) && Run(s, schedule, s')
    ensures WellSized(s') && s'.count == s.count
    ensures Work(s.pc, s.returned) + ProgressSteps(s, schedule, s') <= Work(s'.pc, s'.returned)
    decreases |schedule|
  {
    if schedule != [] {
      StepWorks(s, schedule[0]);
      RunWorks(Next(s, schedule[0]).value, schedule[1..], s');
    }
  }

  /** However the threads are scheduled: after enough steps outside the spin loop
      every thread has returned from its wait k times. */
  lemma EveryoneReturns(count: nat, schedule: seq<nat>, s: State, k: nat)
    requires count > 0 && Run(Start(count), schedule, s)
    requires ProgressSteps(Start(count), schedule, s) > count * (13 * k + 12)
    ensures WellSized(s) && forall t :: 0 <= t < s.count ==> s.returned[t] >= k
  {
    RunWorks(Start(count), schedule, s);
    Safe(count, schedule, s);
    if t :| 0 <= t < s.count && s.returned[t] < k {
      WorkAtMost(s.pc, s.returned, k);
    }
  }
}
