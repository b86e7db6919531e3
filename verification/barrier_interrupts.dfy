/** The barrier when waits on its futex word are interrupted: a signal makes FUTEX_WAIT
    return, and the loop that is to start it again does not. */
module BarrierInterrupts {
  import opened Options
  import opened Threads
  import opened Barrier

  /** A step of a thread, or the interruption of its wait: it goes on as if woken. */
  datatype Step = Go(t: nat) | Interrupt(t: nat)

  function Interrupted(s: State, t: nat): State
    requires t < |s.pc|
  {
    At(s, t, Reacquire)
  }

  function Takes(s: State, step: Step): Option<State>
    requires WellSized(s) && step.t < s.count
  {
    match step
    case Go(t) => Next(s, t)
    case Interrupt(t) => if s.pc[t].Asleep? then Some(Interrupted(s, t)) else None
  }

  ghost predicate InterruptedRun(s: State, steps: seq<Step>, s': State)
    decreases |steps|
  {
    if steps == [] then s == s'
    else
      && WellSized(s) && steps[0].t < s.count && Takes(s, steps[0]).Some?
      && InterruptedRun(Takes(s, steps[0]).value, steps[1..], s')
  }

  /** Nobody has returned more often than anybody has entered. */
  predicate SafeState(s: State) {
    WellSized(s) && forall t, u :: 0 <= t < s.count && 0 <= u < s.count ==> s.returned[t] <= s.entered[u]
  }

  predicate OthersOnFutex(s: State, t: nat)
    requires WellSized(s)
  {
    exists u :: 0 <= u < s.count && u != t && OnFutex(s.pc[u])
  }

  /** The last thread of the round is about to arrive. */
  predicate LastArriving(s: State)
    requires WellSized(s)
  {
    s.arrived + 1 == s.count && exists u :: 0 <= u < s.count && s.pc[u].Arrive?
  }

  /** An interruption that does no harm: while threads are let go, when the word is just
      being set or the wake-up is next, or another thread is still to be woken; otherwise
      only when the last thread is about to arrive, and another is still to be woken. */
  predicate Harmless(s: State, t: nat)
    requires WellSized(s)
  {
    if s.leaving > 0 then s.pc[s.releaser].SetOne? || s.pc[s.releaser].Wake? || OthersOnFutex(s, t)
    else LastArriving(s) && OthersOnFutex(s, t)
  }

  /** Every interruption comes when it is harmless. */
  ghost predicate HarmlessRun(s: State, steps: seq<Step>, s': State)
    decreases |steps|
  {
    if steps == [] then s == s'
    else
      && WellSized(s) && steps[0].t < s.count && Takes(s, steps[0]).Some?
      && (steps[0].Interrupt? ==> Harmless(s, steps[0].t))
      && HarmlessRun(Takes(s, steps[0]).value, steps[1..], s')
  }

  // Harmless interruptions.

  /** Those interrupted put back to sleep. */
  function Undone(pc: seq<Pc>): (r: seq<Pc>)
    ensures |r| == |pc|
    ensures forall i :: 0 <= i < |pc| ==> r[i] == if pc[i].Reacquire? then Asleep else pc[i]
  {
    seq(|pc|, i requires 0 <= i < |pc| => if pc[i].Reacquire? then Asleep else pc[i])
  }

  ghost predicate SomeOnFutex(s: State)
    requires WellSized(s)
  {
    exists u :: 0 <= u < s.count && OnFutex(s.pc[u])
  }

  /** The last thread is about to arrive, and some of those that wait for it have been
      interrupted. */
  ghost predicate Closing(s: State) {
    WellSized(s) && s.leaving == 0 && LastArriving(s) && SomeOnFutex(s) && Inv(s.(pc := Undone(s.pc)))
  }

  ghost predicate Kept(s: State) {
    Inv(s) || Closing(s)
  }

  lemma InvSized(s: State)
    requires Inv(s)
    ensures WellSized(s)
    ensures s.leaving >= 0 && (if s.leaving > 0 then LettingGo(s) else Gathering(s))
  {
  }

  /** Of the threads to be woken some were interrupted. */
  ghost predicate SomeInterrupted(s: State, s': State) {
    && |s'.pc| == |s.pc| && s' == s.(pc := s'.pc)
    && forall i :: 0 <= i < |s.pc| ==> s'.pc[i] == s.pc[i] || (s.pc[i].Asleep? && s'.pc[i].Reacquire?)
  }

  lemma LateLocks(s: State, s': State)
    requires WellSized(s) && Locks(s) && SomeInterrupted(s, s')
    ensures Locks(s')
  {
  }

  lemma LatePhase(s: State, s': State)
    requires WellSized(s) && LettingGo(s) && SomeInterrupted(s, s')
    requires s.pc[s.releaser].SetOne? || s.pc[s.releaser].Wake? || SomeOnFutex(s')
    ensures LettingGo(s')
  {
    CountSame(s.pc, s'.pc, Draining);
    hide Count;
  }

  /** While threads are let go, interruptions do no harm as long as somebody is left to
      wake, or the word is being set. */
  lemma LateKeeps(s: State, s': State)
    requires Inv(s) && s.leaving > 0 && SomeInterrupted(s, s')
    requires s.pc[s.releaser].SetOne? || s.pc[s.releaser].Wake? || SomeOnFutex(s')
    ensures Inv(s')
  {
    LateLocks(s, s');
    LatePhase(s, s');
    hide Locks, LettingGo, Gathering, SomeOnFutex;
    forall u | 0 <= u < s.count
      ensures Counted(s', u)
    {
      assert Counted(s, u);
    }
  }

  lemma ClosingShape(s: State) returns (u: nat)
    requires Closing(s)
    ensures u < s.count && s.pc[u].Arrive? && s.lock == Some(u) && s.condLock == None && s.futx == 0 && s.count >= 2
    ensures forall v :: 0 <= v < s.count && v != u ==> s.pc[v].FutexWait? || s.pc[v].Asleep? || s.pc[v].Reacquire?
  {
    var b := s.(pc := Undone(s.pc));
    u :| 0 <= u < s.count && s.pc[u].Arrive?;
    OthersWaitOnFutex(b, u);
    var v :| 0 <= v < s.count && OnFutex(s.pc[v]);
    assert OnFutex(b.pc[v]);
    hide Inv;
    forall w | 0 <= w < s.count && w != u
      ensures s.pc[w].FutexWait? || s.pc[w].Asleep? || s.pc[w].Reacquire?
    {
      assert b.pc[w].FutexWait? || b.pc[w].Asleep?;
    }
  }

  /** The last thread arrives. */
  lemma ClosingArrives(s: State, u: nat)
    requires Closing(s) && u < s.count && s.pc[u].Arrive?
    ensures Inv(Next(s, u).value)
  {
    var b := s.(pc := Undone(s.pc));
    var s', b' := Next(s, u).value, Next(b, u).value;
    StepKeeps(b, u);
    var v := ClosingShape(s);
    hide Inv, LettingGo, Gathering;
    assert SomeInterrupted(b', s');
    var w :| 0 <= w < s.count && OnFutex(s.pc[w]);
    assert OnFutex(s'.pc[w]);
    LateKeeps(b', s');
  }

  lemma ClosingKeeps(s: State, t: nat)
    requires Closing(s) && t < s.count && Next(s, t).Some?
    ensures Kept(Next(s, t).value)
  {
    var u := ClosingShape(s);
    if t == u {
      ClosingArrives(s, u);
    } else {
      var b := s.(pc := Undone(s.pc));
      var s', b' := Next(s, t).value, Next(b, t).value;
      StepKeeps(b, t);
      hide Inv;
      assert s'.pc == s.pc[t := Asleep];
      assert Undone(s'.pc) == b'.pc;
      assert s'.pc[u].Arrive? && OnFutex(s'.pc[t]);
      assert Closing(s');
    }
  }

  lemma InterruptKeeps(s: State, t: nat)
    requires Kept(s) && WellSized(s) && t < s.count && s.pc[t].Asleep? && Harmless(s, t)
    ensures Kept(Interrupted(s, t))
  {
    hide Inv, OthersOnFutex, SomeOnFutex;
    var s' := Interrupted(s, t);
    if s.leaving > 0 {
      if !(s.pc[s.releaser].SetOne? || s.pc[s.releaser].Wake?) {
        OthersStay(s, t);
      }
      LateKeeps(s, s');
    } else {
      OthersStay(s, t);
      var u :| 0 <= u < s.count && s.pc[u].Arrive?;
      assert s'.pc[u].Arrive?;
      if Inv(s) {
        InvSized(s);
        assert Undone(s'.pc) == s.pc;
        assert s'.(pc := s.pc) == s;
      } else {
        assert Undone(s'.pc) == Undone(s.pc);
      }
      assert Closing(s');
    }
  }

  lemma OthersStay(s: State, t: nat)
    requires WellSized(s) && t < s.count && OthersOnFutex(s, t)
    ensures SomeOnFutex(Interrupted(s, t))
  {
    var u :| 0 <= u < s.count && u != t && OnFutex(s.pc[u]);
    assert OnFutex(Interrupted(s, t).pc[u]);
  }

  lemma NextCount(s: State, t: nat)
    requires WellSized(s) && t < s.count && Next(s, t).Some?
    ensures Next(s, t).value.count == s.count
  {
  }

  lemma TakesKeeps(s: State, step: Step)
    requires Kept(s) && WellSized(s) && step.t < s.count && Takes(s, step).Some?
    requires step.Interrupt? ==> Harmless(s, step.t)
    ensures Kept(Takes(s, step).value) && Takes(s, step).value.count == s.count
  {
    hide Inv, Next, Harmless, Closing;
    if step.Interrupt? {
      InterruptKeeps(s, step.t);
    } else {
      NextCount(s, step.t);
      if Inv(s) {
        StepKeeps(s, step.t);
      } else {
        ClosingKeeps(s, step.t);
      }
    }
  }

  lemma {:induction false} HarmlessKeeps(s: State, steps: seq<Step>, s': State)
    requires Kept(s) && HarmlessRun(s, steps, s')
    ensures Kept(s') && s'.count == s.count
    decreases |steps|
  {
    if steps != [] {
      TakesKeeps(s, steps[0]);
      hide Kept, Takes, Harmless;
      HarmlessKeeps(Takes(s, steps[0]).value, steps[1..], s');
    }
  }

  lemma {:induction false} PlainKeeps(s: State, schedule: seq<nat>, s': State)
    requires Kept(s) && Run(s, schedule, s')
    ensures Kept(s')
    decreases |schedule|
  {
    if schedule != [] {
      TakesKeeps(s, Go(schedule[0]));
      hide Kept, Next;
      PlainKeeps(Next(s, schedule[0]).value, schedule[1..], s');
    }
  }

  lemma KeptSafe(s: State)
    requires Kept(s)
    ensures SafeState(s)
    ensures forall u, v :: 0 <= u < s.count && 0 <= v < s.count ==> s.returned[u] <= s.returned[v] + 1
  {
    if Inv(s) {
      CountedSafe(s);
    } else {
      CountedSafe(s.(pc := Undone(s.pc)));
    }
  }

  lemma CountedSafe(s: State)
    requires Inv(s)
    ensures SafeState(s)
    ensures forall u, v :: 0 <= u < s.count && 0 <= v < s.count ==> s.returned[u] <= s.returned[v] + 1
  {
    hide Inv;
    InvSized(s);
    forall u, v | 0 <= u < s.count && 0 <= v < s.count
      ensures s.returned[u] <= s.entered[v] && s.returned[u] <= s.returned[v] + 1
    {
      InvCounted(s, u);
      InvCounted(s, v);
    }
  }

  /** Interrupted when it is harmless, the barrier is as safe as without, and some thread
      can always go on. */
  lemma HarmlessSafe(count: nat, steps: seq<Step>, s: State) returns (t: nat)
    requires count > 0 && HarmlessRun(Start(count), steps, s)
    ensures SafeState(s)
    ensures forall u, v :: 0 <= u < s.count && 0 <= v < s.count ==> s.returned[u] <= s.returned[v] + 1
    ensures t < s.count && Progresses(s, t)
  {
    StartInv(count);
    HarmlessKeeps(Start(count), steps, s);
    KeptSafe(s);
    if Inv(s) {
      t := SomeoneMoves(s);
    } else {
      t := ClosingShape(s);
    }
  }

  // Harmful interruptions.

  /** Some run without any further interruption ends with a thread returned too early. */
  ghost predicate Breaks(s: State) {
    exists schedule, s' :: Run(s, schedule, s') && !SafeState(s')
  }

  lemma BrokenNow(s: State)
    requires !SafeState(s)
    ensures Breaks(s)
  {
    assert Run(s, [], s);
  }

  lemma Before(s: State, t: nat)
    requires WellSized(s) && t < s.count && Next(s, t).Some? && Breaks(Next(s, t).value)
    ensures Breaks(s)
  {
    var schedule, s' :| Run(Next(s, t).value, schedule, s') && !SafeState(s');
    var more := [t] + schedule;
    assert more[1..] == schedule;
    assert Run(s, more, s');
  }

  function Entered(s: State, t: nat): seq<nat>
    requires t < |s.entered|
  {
    s.entered[t := s.entered[t] + 1]
  }

  function Returned(s: State, t: nat): seq<nat>
    requires t < |s.returned|
  {
    s.returned[t := s.returned[t] + 1]
  }

  /** Thread t comes to the outer lock's inside. */
  lemma Comes(s: State, t: nat)
    requires WellSized(s) && t < s.count && s.pc[t].Outside? && s.lock == None && s.leaving <= 0
    requires Breaks(s.(pc := s.pc[t := Arrive], entered := Entered(s, t), lock := Some(t)))
    ensures Breaks(s)
  {
    hide Breaks;
    var s1 := Next(s, t).value;
    var s2 := Next(s1, t).value;
    assert Next(s2, t).value.pc == s.pc[t := Arrive];
    assert Next(s2, t) == Some(s.(pc := s.pc[t := Arrive], entered := Entered(s, t), lock := Some(t)));
    Before(s2, t);
    Before(s1, t);
    Before(s, t);
  }

  /** Not the last to arrive, it goes to the futex. */
  lemma GoesToFutex(s: State, t: nat)
    requires WellSized(s) && t < s.count && s.pc[t].Arrive? && s.lock == Some(t) && s.condLock == None
    requires s.arrived + 1 != s.count
    requires Breaks(s.(pc := s.pc[t := FutexWait], arrived := s.arrived + 1, futx := 0, lock := None))
    ensures Breaks(s)
  {
    hide Breaks;
    var s1 := Next(s, t).value;
    var s2 := Next(s1, t).value;
    var s3 := Next(s2, t).value;
    var s4 := Next(s3, t).value;
    assert Next(s4, t).value.pc == s.pc[t := FutexWait];
    assert Next(s4, t) == Some(s.(pc := s.pc[t := FutexWait], arrived := s.arrived + 1, futx := 0, lock := None));
    Before(s4, t);
    Before(s3, t);
    Before(s2, t);
    Before(s1, t);
    Before(s, t);
  }

  /** Woken or interrupted, it returns. */
  lemma Returns(s: State, t: nat)
    requires WellSized(s) && t < s.count && s.pc[t].Reacquire? && s.lock == None
    requires Breaks(s.(pc := s.pc[t := Outside], leaving := s.leaving - 1, returned := Returned(s, t)))
    ensures Breaks(s)
  {
    hide Breaks;
    var s1 := Next(s, t).value;
    var s2 := Next(s1, t).value;
    assert Next(s2, t).value.pc == s.pc[t := Outside];
    assert Next(s2, t) == Some(s.(pc := s.pc[t := Outside], leaving := s.leaving - 1, returned := Returned(s, t)));
    Before(s2, t);
    Before(s1, t);
    Before(s, t);
  }

  /** The last to arrive lets the others go and returns. */
  lemma LetsGo(s: State, t: nat, u: nat)
    requires WellSized(s) && t < s.count && u < s.count && s.pc[t].Arrive? && s.lock == Some(t) && s.condLock == None
    requires s.arrived + 1 == s.count && s.returned[t] + 1 > s.entered[u]
    ensures Breaks(s)
  {
    hide Breaks;
    var s1 := Next(s, t).value;
    var s2 := Next(s1, t).value;
    var s3 := Next(s2, t).value;
    var s4 := Next(s3, t).value;
    var s5 := Next(s4, t).value;
    var s6 := Next(s5, t).value;
    assert s6.returned[t] > s6.entered[u];
    BrokenNow(s6);
    Before(s5, t);
    Before(s4, t);
    Before(s3, t);
    Before(s2, t);
    Before(s1, t);
    Before(s, t);
  }

  // An interruption before the last one has arrived: the thread counts twice.

  /** In this state thread t sleeps, and the round is not about to be closed. */
  ghost predicate Early(s: State, t: nat) {
    Inv(s) && s.leaving == 0 && t < s.count && s.pc[t].Asleep? && !LastArriving(s)
  }

  /** The thread that is not counted yet has not entered often enough. */
  lemma TwiceBreaks(s: State, t: nat)
    requires Early(s, t) && s.arrived + 1 == s.count && s.lock == None && s.condLock == None
    ensures Breaks(Interrupted(s, t))
  {
    InvSized(s);
    var u := SomeOutside(s.pc, Waiting);
    assert Counted(s, t) && Counted(s, u);
    hide Inv, Gathering, LettingGo, Breaks;
    var s0 := Interrupted(s, t);
    var s1 := s0.(pc := s0.pc[t := Outside], leaving := s0.leaving - 1, returned := Returned(s0, t));
    var s2 := s1.(pc := s1.pc[t := Arrive], entered := Entered(s1, t), lock := Some(t));
    LetsGo(s2, t, u);
    Comes(s1, t);
    Returns(s0, t);
  }

  /** A step of another thread goes as if t still slept. */
  lemma EarlyStep(s: State, t: nat, v: nat)
    requires Early(s, t) && v < s.count && v != t && Progresses(s, v)
    requires s.pc[v].Acquire? ==> s.arrived + 1 < s.count
    requires !(s.pc[v].Arrive? && s.arrived + 1 == s.count)
    ensures Early(Next(s, v).value, t) && Next(Interrupted(s, t), v) == Some(Interrupted(Next(s, v).value, t))
    ensures Next(s, v).value.count == s.count && Next(s, v).value.rounds == s.rounds
  {
    hide Inv, Gathering, LettingGo, Locks;
    InvSized(s);
    InvLocks(s);
    StepKeeps(s, v);
    EarlyNoWake(s, t, v);
    EarlyLast(s, t, v);
    EarlyApart(s, t, v);
  }

  lemma InvLocks(s: State)
    requires Inv(s)
    ensures WellSized(s) && Locks(s)
  {
  }

  /** The steps of v do not depend on where t waits. */
  lemma EarlyApart(s: State, t: nat, v: nat)
    requires WellSized(s) && t < s.count && v < s.count && v != t && Next(s, v).Some? && s.pc[t].Asleep?
    requires !s.pc[v].Wake?
    ensures var s' := Next(s, v).value;
      && s'.count == s.count && |s'.pc| == s.count && s'.pc[t].Asleep?
      && Next(Interrupted(s, t), v) == Some(Interrupted(s', t))
  {
    var s' := Next(s, v).value;
    assert s.pc[v := s.pc[v]] == s.pc;
    assert s'.pc == s.pc[v := s'.pc[v]];
    assert s.pc[t := Reacquire][v := s'.pc[v]] == s.pc[v := s'.pc[v]][t := Reacquire];
  }

  lemma EarlyNoWake(s: State, t: nat, v: nat)
    requires Early(s, t) && v < s.count
    ensures !s.pc[v].Wake? && !s.pc[v].SetOne? && !s.pc[v].Leave? && !s.pc[v].Reacquire?
    ensures !s.pc[v].Release? && !s.pc[v].BroadcastLock?
  {
    InvSized(s);
    assert Reset(s.pc[t]);
    if s.count == 1 {
      CountAtLeast(s.pc, t, Waiting);
    }
  }

  lemma EarlyLast(s: State, t: nat, v: nat)
    requires WellSized(s) && v < s.count && Next(s, v).Some? && !LastArriving(s)
    requires !s.pc[v].Wake? && !s.pc[v].Leave? && !(s.pc[v].Arrive? && s.arrived + 1 == s.count)
    requires s.pc[v].Acquire? ==> s.arrived + 1 < s.count
    requires Locks(s)
    ensures WellSized(Next(s, v).value) && !LastArriving(Next(s, v).value)
    ensures Next(s, v).value.leaving == s.leaving && Next(s, v).value.rounds == s.rounds
  {
    hide Locks;
    var s' := Next(s, v).value;
    EarlyOthers(s, v);
    EarlyArrivals(s, v);
    hide Next;
  }

  lemma EarlyOthers(s: State, v: nat)
    requires WellSized(s) && v < s.count && Next(s, v).Some? && !s.pc[v].Wake?
    ensures WellSized(Next(s, v).value) && Next(s, v).value.count == s.count
    ensures forall u :: 0 <= u < s.count && u != v ==> Next(s, v).value.pc[u] == s.pc[u]
  {
  }

  lemma EarlyArrivals(s: State, v: nat)
    requires WellSized(s) && v < s.count && Next(s, v).Some?
    requires !s.pc[v].Leave? && !(s.pc[v].Arrive? && s.arrived + 1 == s.count)
    requires Locks(s)
    ensures var s' := Next(s, v).value;
      && s'.leaving == s.leaving && s'.rounds == s.rounds
      && (s'.pc[v].Arrive? ==> s.pc[v].Acquire? && s'.arrived == s.arrived)
      && (s'.arrived != s.arrived ==> forall u :: 0 <= u < s.count ==> u == v || !s.pc[u].Arrive?)
  {
    hide HoldsCond;
  }

  ghost function WorkLeft(s: State): int
    requires WellSized(s)
  {
    s.count * (13 * s.rounds + 12) - Work(s.pc, s.returned)
  }

  lemma WorkLeftBound(s: State)
    requires Inv(s)
    ensures WorkLeft(s) >= 0
  {
    forall t | 0 <= t < s.count
      ensures s.returned[t] <= s.rounds
    {
      assert Counted(s, t);
    }
    WorkAtMost(s.pc, s.returned, s.rounds);
  }

  /** A thread that takes the round further without closing it. */
  lemma EarlyChoice(s: State, t: nat) returns (v: nat)
    requires Early(s, t) && !(s.arrived + 1 == s.count && s.lock == None && s.condLock == None)
    ensures v < s.count && v != t && Progresses(s, v)
    ensures s.pc[v].Acquire? ==> s.arrived + 1 < s.count
    ensures !(s.pc[v].Arrive? && s.arrived + 1 == s.count)
  {
    InvSized(s);
    if s.condLock.Some? {
      v := s.condLock.value;
      EarlyNoWake(s, t, v);
    } else if s.lock.Some? {
      v := s.lock.value;
      EarlyNoWake(s, t, v);
    } else {
      v := SomeOutside(s.pc, Waiting);
      EarlyNoWake(s, t, v);
    }
  }

  /** The others are let come as far as they can, and then the thread arrives again as the
      last one. */
  lemma {:induction false} EarlyBreaks(s: State, t: nat)
    requires Early(s, t)
    ensures Breaks(Interrupted(s, t))
    decreases WorkLeft(s)
  {
    hide Breaks, Work;
    if s.arrived + 1 == s.count && s.lock == None && s.condLock == None {
      TwiceBreaks(s, t);
    } else {
      var v := EarlyChoice(s, t);
      var s' := Next(s, v).value;
      EarlyStep(s, t, v);
      StepWorks(s, v);
      WorkLeftBound(s');
      hide Early, Inv, Next, Progresses;
      EarlyBreaks(s', t);
      Before(Interrupted(s, t), v);
    }
  }

  // An interruption that leaves nobody to wake: the wake-up meets the next round.

  /** Everybody is let go, nobody waits, and the word is still to be set. */
  ghost predicate Late(s: State, t: nat) {
    && WellSized(s) && Locks(s) && t < s.count && t != s.releaser
    && (s.pc[s.releaser].Release? || s.pc[s.releaser].BroadcastLock?) && s.condLock == None
    && s.arrived == 0 && s.leaving == Count(s.pc, Draining)
    && (forall u :: 0 <= u < s.count ==> !Waiting(s.pc[u]) && !s.pc[u].Acquire? && !s.pc[u].Arrive?)
    && (forall u :: 0 <= u < s.count && Broadcasting(s.pc[u]) ==> u == s.releaser)
    && (s.pc[t].Reacquire? || s.pc[t].Leave? || s.pc[t].UnlockLeave? || s.pc[t].Outside?)
    && s.returned[t] + One(!s.pc[t].Outside?) == s.rounds == s.entered[s.releaser]
  }

  predicate Letting(pc: Pc) {
    pc.Release? || pc.UnlockLeave? || pc.Leave? || pc.Reacquire?
  }

  predicate BeforeUnlock(pc: Pc) {
    pc.Leave? || pc.Reacquire?
  }

  predicate BeforeLeave(pc: Pc) {
    pc.Reacquire?
  }

  ghost function ToGo(s: State): nat {
    Count(s.pc, Letting) + Count(s.pc, BeforeUnlock) + Count(s.pc, BeforeLeave)
  }

  lemma LateStep(s: State, t: nat, v: nat)
    requires Late(s, t) && v < s.count && Letting(s.pc[v]) && Next(s, v).Some?
    ensures Late(Next(s, v).value, t) && ToGo(Next(s, v).value) < ToGo(s)
  {
    hide Next, Count, Locks, ToGo;
    var s' := Next(s, v).value;
    LateMove(s, v);
    LateCounts(s, v, s');
    LateStepLocks(s, v);
  }

  /** What a step of those let go changes. */
  lemma LateMove(s: State, v: nat)
    requires WellSized(s) && v < s.count && Letting(s.pc[v]) && Next(s, v).Some?
    ensures var s' := Next(s, v).value;
      && WellSized(s') && s'.pc == s.pc[v := s'.pc[v]]
      && s' == s.(pc := s'.pc, lock := s'.lock, leaving := s'.leaving, returned := s'.returned)
      && s'.leaving == s.leaving - One(s.pc[v].Leave?)
      && s'.returned == s.returned[v := s.returned[v] + One(s.pc[v].UnlockLeave?)]
      && s'.pc[v] == match s.pc[v]
                     case Release => BroadcastLock
                     case Reacquire => Leave
                     case Leave => UnlockLeave
                     case _ => Outside
  {
    assert s.returned[v := s.returned[v]] == s.returned;
  }

  lemma LateCounts(s: State, v: nat, s': State)
    requires v < |s.pc| == |s'.pc| && Letting(s.pc[v]) && s'.pc == s.pc[v := s'.pc[v]]
    requires s'.pc[v] == match s.pc[v]
                         case Release => BroadcastLock
                         case Reacquire => Leave
                         case Leave => UnlockLeave
                         case _ => Outside
    ensures Count(s'.pc, Draining) + One(s.pc[v].Leave?) == Count(s.pc, Draining) && ToGo(s') < ToGo(s)
  {
    CountUpdate(s.pc, v, s'.pc[v], Draining);
    CountUpdate(s.pc, v, s'.pc[v], Letting);
    CountUpdate(s.pc, v, s'.pc[v], BeforeUnlock);
    CountUpdate(s.pc, v, s'.pc[v], BeforeLeave);
    hide Count;
  }

  lemma LateStepLocks(s: State, v: nat)
    requires WellSized(s) && Locks(s) && v < s.count && Letting(s.pc[v]) && Next(s, v).Some?
    ensures WellSized(Next(s, v).value) && Locks(Next(s, v).value)
  {
  }

  /** All have left; the thread comes back, and finds the wake-up of the round before. */
  lemma StaleWake(s: State, t: nat)
    requires Late(s, t) && Count(s.pc, Letting) == 0
    ensures Breaks(s)
  {
    var r := s.releaser;
    assert forall u :: 0 <= u < s.count ==> !Letting(s.pc[u]) by {
      forall u | 0 <= u < s.count
        ensures !Letting(s.pc[u])
      {
        if Letting(s.pc[u]) {
          CountAtLeast(s.pc, u, Letting);
        }
      }
    }
    CountNone(s.pc, Draining);
    assert s.lock == None && s.leaving == 0;
    hide Breaks, Count, Locks;
    var s1 := s.(pc := s.pc[t := Arrive], entered := Entered(s, t), lock := Some(t));
    var s2 := s1.(pc := s1.pc[t := FutexWait], arrived := s1.arrived + 1, futx := 0, lock := None);
    var s3 := Next(s2, r).value;
    var s4 := Next(s3, r).value;
    var s5 := Next(s4, t).value;
    assert s5.pc[t].Reacquire? && s5.lock == None;
    var s6 := s5.(pc := s5.pc[t := Outside], leaving := s5.leaving - 1, returned := Returned(s5, t));
    assert s6.returned[t] > s6.entered[r];
    BrokenNow(s6);
    Returns(s5, t);
    Before(s4, t);
    Before(s3, r);
    Before(s2, r);
    GoesToFutex(s1, t);
    Comes(s, t);
  }

  lemma LateChoice(s: State, t: nat) returns (v: nat)
    requires Late(s, t) && Count(s.pc, Letting) > 0
    ensures v < s.count && Letting(s.pc[v]) && Next(s, v).Some?
  {
    if s.lock.Some? {
      v := s.lock.value;
    } else {
      v := SomeInside(s.pc, Letting);
    }
  }

  lemma {:induction false} LateBreaks(s: State, t: nat)
    requires Late(s, t)
    ensures Breaks(s)
    decreases ToGo(s)
  {
    hide Breaks, Next;
    if Count(s.pc, Letting) == 0 {
      StaleWake(s, t);
    } else {
      var v := LateChoice(s, t);
      LateStep(s, t, v);
      LateBreaks(Next(s, v).value, t);
      Before(s, v);
    }
  }

  /** The only one still to be woken is interrupted while threads are let go. */
  lemma LastSleeper(s: State, t: nat)
    requires Inv(s) && s.leaving > 0 && t < s.count && s.pc[t].Asleep? && !Harmless(s, t)
    ensures Late(Interrupted(s, t), t)
  {
    hide Inv, Gathering, LettingGo, Locks, Count;
    InvSized(s);
    var s' := Interrupted(s, t);
    InvCounted(s, t);
    InvCounted(s, s.releaser);
    InvLocks(s);
    CountSame(s.pc, s'.pc, Draining);
    LateLocks(s, s');
    LastSleeperFacts(s, t);
    LastSleeperLocks(s, t);
  }

  lemma InvCounted(s: State, t: nat)
    requires Inv(s) && t < s.count
    ensures WellSized(s) && Counted(s, t)
    ensures forall u :: 0 <= u < s.count && Broadcasting(s.pc[u]) ==> u == s.releaser
  {
  }

  lemma LastSleeperFacts(s: State, t: nat)
    requires WellSized(s) && LettingGo(s) && t < s.count && s.pc[t].Asleep? && !Harmless(s, t)
    ensures s.pc[s.releaser].Release? || s.pc[s.releaser].BroadcastLock?
    ensures s.arrived == 0 && s.leaving == Count(s.pc, Draining)
    ensures forall u :: 0 <= u < s.count ==> !s.pc[u].Acquire? && !s.pc[u].Arrive? && (u != t ==> !Waiting(s.pc[u]))
  {
    hide Count;
  }

  lemma LastSleeperLocks(s: State, t: nat)
    requires WellSized(s) && Locks(s) && t < s.count
    requires s.pc[s.releaser].Release? || s.pc[s.releaser].BroadcastLock?
    requires forall u :: 0 <= u < s.count && Broadcasting(s.pc[u]) ==> u == s.releaser
    requires forall u :: 0 <= u < s.count && u != t ==> !Waiting(s.pc[u])
    requires s.pc[t].Asleep?
    ensures s.condLock == None
  {
  }

  /** The only one still to be woken is interrupted just before the last one arrives. */
  lemma LastBeforeArrival(s: State, t: nat)
    requires Closing(s) && t < s.count && s.pc[t].Asleep? && !OthersOnFutex(s, t)
    ensures Breaks(Interrupted(s, t))
  {
    var u := ClosingShape(s);
    var s0 := Interrupted(s, t);
    var s1 := Next(s0, u).value;
    ClosingArrival(s, t, u);
    hide Breaks, Late, Inv;
    LateBreaks(s1, t);
    Before(s0, u);
  }

  lemma ClosingArrival(s: State, t: nat, u: nat)
    requires Closing(s) && t < s.count && s.pc[t].Asleep? && !OthersOnFutex(s, t)
    requires u < s.count && s.pc[u].Arrive? && s.lock == Some(u) && s.condLock == None && t != u
    requires forall v :: 0 <= v < s.count && v != u ==> s.pc[v].FutexWait? || s.pc[v].Asleep? || s.pc[v].Reacquire?
    ensures Late(Next(Interrupted(s, t), u).value, t)
  {
    hide Inv, LettingGo, Gathering, Locks, Count;
    var b := s.(pc := Undone(s.pc));
    InvCounted(b, t);
    InvCounted(b, u);
    var s0 := Interrupted(s, t);
    var s1 := Next(s0, u).value;
    assert s1.pc == s0.pc[u := Release];
    forall v | 0 <= v < s.count && v != u
      ensures s1.pc[v].Reacquire?
    {
      assert v != t ==> !OnFutex(s.pc[v]);
    }
    CountAllBut(s1.pc, u, Draining);
    ArrivalLocks(s1, u);
    assert s1.returned == b.returned && s1.entered == b.entered;
  }

  lemma ArrivalLocks(s: State, u: nat)
    requires WellSized(s) && u < s.count && s.pc[u].Release? && s.lock == Some(u) && s.condLock == None
    requires forall v :: 0 <= v < s.count && v != u ==> s.pc[v].Reacquire?
    ensures Locks(s)
  {
  }

  /** An interruption that is not harmless can go wrong without another one. */
  lemma HarmfulBreaks(s: State, t: nat)
    requires Kept(s) && WellSized(s) && t < s.count && s.pc[t].Asleep? && !Harmless(s, t)
    ensures Breaks(Interrupted(s, t))
  {
    hide Breaks;
    if s.leaving > 0 {
      LastSleeper(s, t);
      LateBreaks(Interrupted(s, t), t);
    } else if Inv(s) && !LastArriving(s) {
      InvSized(s);
      EarlyBreaks(s, t);
    } else {
      if Inv(s) {
        InvSized(s);
        assert Undone(s.pc) == s.pc;
        assert OnFutex(s.pc[t]);
        assert Closing(s);
      }
      LastBeforeArrival(s, t);
    }
  }

  /** No run without any further interruption lets a thread return too early. */
  ghost predicate StaysSafe(s: State) {
    forall schedule, s' :: Run(s, schedule, s') ==> SafeState(s')
  }

  lemma BreaksOrStays(s: State)
    ensures Breaks(s) <==> !StaysSafe(s)
  {
  }

  lemma KeptStays(s: State)
    requires Kept(s)
    ensures StaysSafe(s)
  {
    hide Kept, SafeState;
    forall schedule, s' | Run(s, schedule, s')
      ensures SafeState(s')
    {
      PlainKeeps(s, schedule, s');
      KeptSafe(s');
    }
  }

  /** In every state that harmless interruptions leave reachable: interrupting a sleeper
      keeps all runs without another interruption safe exactly when it is harmless. */
  lemma HarmlessExactly(count: nat, steps: seq<Step>, s: State, t: nat)
    requires count > 0 && HarmlessRun(Start(count), steps, s)
    requires WellSized(s) && t < s.count && s.pc[t].Asleep?
    ensures StaysSafe(Interrupted(s, t)) <==> Harmless(s, t)
  {
    hide Kept, Harmless, StaysSafe, Breaks;
    StartKept(count);
    HarmlessKeeps(Start(count), steps, s);
    if Harmless(s, t) {
      InterruptKeeps(s, t);
      KeptStays(Interrupted(s, t));
    } else {
      HarmfulBreaks(s, t);
      BreaksOrStays(Interrupted(s, t));
    }
  }

  lemma StartKept(count: nat)
    requires count > 0
    ensures Kept(Start(count))
  {
    StartInv(count);
  }

  // Interrupted at any time.

  /** A thread that waits alone is never asleep. */
  lemma AloneAwake(s: State)
    requires Inv(s) && s.count == 1
    ensures !s.pc[0].Asleep?
  {
    if s.pc[0].Asleep? {
      CountAtLeast(s.pc, 0, Waiting);
    }
  }

  lemma {:induction false} AloneSafe(s: State, steps: seq<Step>, s': State)
    requires Inv(s) && s.count == 1 && InterruptedRun(s, steps, s')
    ensures Inv(s')
    decreases |steps|
  {
    if steps != [] {
      AloneAwake(s);
      StepKeeps(s, steps[0].t);
      NextCount(s, steps[0].t);
      hide Inv, Next;
      AloneSafe(Takes(s, steps[0]).value, steps[1..], s');
    }
  }

  /** The first thread steps on, with an expectation of where it comes. */
  lemma Step0(s: State, pc: Pc) returns (s': State)
    requires WellSized(s) && Next(s, 0).Some? && Next(s, 0).value.pc == s.pc[0 := pc]
    requires !s.pc[0].Outside? && !s.pc[0].UnlockLeave? && !s.pc[0].BroadcastUnlock? && !s.pc[0].Wake?
    ensures Takes(s, Go(0)) == Some(s') && s' == Next(s, 0).value && s'.pc[0] == pc
    ensures WellSized(s') && s'.count == s.count && s'.entered == s.entered && s'.returned == s.returned
  {
    s' := Next(s, 0).value;
  }

  /** The first thread arrives at a barrier for several and falls asleep. */
  lemma FallsAsleep(count: nat) returns (steps: seq<Step>, last: State)
    requires count >= 2
    ensures InterruptedRun(Start(count), steps, last)
    ensures WellSized(last) && last.count == count && last.pc[0].Asleep? && last.lock == None
    ensures last.returned[0] == 0 && last.entered[1] == 0
  {
    hide InterruptedRun;
    var s := Start(count);
    var a := Takes(s, Go(0)).value;
    var b := Step0(a, Acquire);
    var c := Step0(b, Arrive);
    var d := Step0(c, WaitLock);
    var e := Step0(d, SetZero);
    var f := Step0(e, WaitUnlock);
    var g := Step0(f, Unlock);
    var h := Step0(g, FutexWait);
    last := Step0(h, Asleep);
    hide Next;
    Done(last);
    steps := Preceded(h, Go(0), last, [], last);
    steps := Preceded(g, Go(0), h, steps, last);
    steps := Preceded(f, Go(0), g, steps, last);
    steps := Preceded(e, Go(0), f, steps, last);
    steps := Preceded(d, Go(0), e, steps, last);
    steps := Preceded(c, Go(0), d, steps, last);
    steps := Preceded(b, Go(0), c, steps, last);
    steps := Preceded(a, Go(0), b, steps, last);
    steps := Preceded(s, Go(0), a, steps, last);
  }

  lemma Done(s: State)
    ensures InterruptedRun(s, [], s)
  {
  }

  lemma Preceded(s: State, step: Step, s1: State, steps: seq<Step>, last: State) returns (more: seq<Step>)
    requires WellSized(s) && step.t < s.count && Takes(s, step) == Some(s1) && InterruptedRun(s1, steps, last)
    ensures InterruptedRun(s, more, last)
  {
    more := [step] + steps;
    assert more[1..] == steps;
  }

  /** Interrupted then, it is through although nobody else has come. */
  lemma GoesThrough(s: State) returns (steps: seq<Step>, last: State)
    requires WellSized(s) && s.count >= 2 && s.pc[0].Asleep? && s.lock == None && s.returned[0] == 0
    requires s.entered[1] == 0
    ensures InterruptedRun(s, steps, last)
    ensures WellSized(last) && last.count == s.count && last.returned[0] == 1 && last.entered[1] == 0
  {
    hide InterruptedRun;
    var a := Takes(s, Interrupt(0)).value;
    var b := Step0(a, Leave);
    var c := Step0(b, UnlockLeave);
    last := Takes(c, Go(0)).value;
    Done(last);
    steps := Preceded(c, Go(0), last, [], last);
    steps := Preceded(b, Go(0), c, steps, last);
    steps := Preceded(a, Go(0), b, steps, last);
    steps := Preceded(s, Interrupt(0), a, steps, last);
  }

  lemma {:induction false} Runs(s: State, steps: seq<Step>, s1: State, more: seq<Step>, s2: State)
    requires InterruptedRun(s, steps, s1) && InterruptedRun(s1, more, s2)
    ensures InterruptedRun(s, steps + more, s2)
    decreases |steps|
  {
    if steps == [] {
      assert steps + more == more;
    } else {
      assert (steps + more)[1..] == steps[1..] + more;
      Runs(Takes(s, steps[0]).value, steps[1..], s1, more, s2);
    }
  }

  /** For any number of threads but one, one interrupted wait lets a thread through that
      has waited for nobody. */
  lemma InterruptBreaks(count: nat) returns (steps: seq<Step>, s: State)
    requires count >= 2
    ensures InterruptedRun(Start(count), steps, s)
    ensures WellSized(s) && s.count == count && s.returned[0] == 1 && s.entered[1] == 0
  {
    hide InterruptedRun;
    var first, asleep := FallsAsleep(count);
    var more, through := GoesThrough(asleep);
    s := through;
    Runs(Start(count), first, asleep, more, s);
    steps := first + more;
  }

  /** With waits interrupted at any time, no thread returns too early in any run exactly
      when the barrier is for a single thread. */
  lemma InterruptedSafeExactly(count: nat)
    requires count > 0
    ensures (forall steps, s :: InterruptedRun(Start(count), steps, s) ==> SafeState(s)) <==> count == 1
  {
    if count == 1 {
      forall steps, s | InterruptedRun(Start(count), steps, s)
        ensures SafeState(s)
      {
        StartInv(count);
        AloneSafe(Start(count), steps, s);
        forall t, u | 0 <= t < s.count && 0 <= u < s.count
          ensures s.returned[t] <= s.entered[u]
        {
          assert Counted(s, t) && Counted(s, u);
        }
      }
    } else {
      var steps, s := InterruptBreaks(count);
      assert !SafeState(s) by {
        assert s.returned[0] > s.entered[1];
      }
    }
  }
}
