/** One producer and one consumer on a ring buffer: push_wait and pop_wait, each
    with the condition variable it sleeps on. */
module MtCircularQueue {
  import opened Options
  import opened Threads
  import opened CircularQueue

  /** Where a thread is in push_wait or pop_wait. */
  datatype Pc =
    | Idle
    | Acquire
    | Check          // is there room, is there an item
    | WaitLock
    | SetZero
    | WaitUnlock
    | Release
    | FutexWait
    | Asleep
    | Reacquire
    | Transfer       // push or pop
    | SignalLock
    | SetOne
    | Wake
    | SignalUnlock
    | Unlock

  datatype Who = Producer | Consumer

  /** One side with the condition variable it waits on: the other side signals it. */
  datatype Side = Side(pc: Pc, futx: int, condLock: Option<Who>)

  /** item is what the producer is about to push; pushed and popped are the histories. */
  datatype State<T> = State(ring: Ring<T>, lock: Option<Who>, producer: Side, consumer: Side, item: T,
                            pushed: seq<T>, popped: seq<T>)

  datatype Step<T> = StartPush(item: T) | StartPop | Act(who: Who) | Spurious(who: Who)

  /** What a step does to the acting side, the other side and the queue's lock. */
  datatype Effect = Effect(me: Side, other: Side, lock: Option<Who>)

  /** The step of one side; blocked is the condition its loop waits out, edge whether
      a transfer now has to be signalled. FUTEX_WAIT compares and falls asleep at once. */
  function Acts(who: Who, me: Side, other: Side, lock: Option<Who>, blocked: bool, edge: bool): Option<Effect> {
    match me.pc
    case Idle => None
    case Acquire => if lock == None then Some(Effect(me.(pc := Check), other, Some(who))) else None
    case Check => Some(Effect(me.(pc := if blocked then WaitLock else Transfer), other, lock))
    case WaitLock =>
      if me.condLock == None then Some(Effect(me.(pc := SetZero, condLock := Some(who)), other, lock)) else None
    case SetZero => Some(Effect(me.(pc := WaitUnlock, futx := 0), other, lock))
    case WaitUnlock => Some(Effect(me.(pc := Release, condLock := None), other, lock))
    case Release => Some(Effect(me.(pc := FutexWait), other, None))
    case FutexWait => Some(Effect(me.(pc := if me.futx == 0 then Asleep else Reacquire), other, lock))
    case Asleep => None
    case Reacquire => if lock == None then Some(Effect(me.(pc := Check), other, Some(who))) else None
    case Transfer => Some(Effect(me.(pc := if edge then SignalLock else Unlock), other, lock))
    case SignalLock =>
      if other.condLock == None then Some(Effect(me.(pc := SetOne), other.(condLock := Some(who)), lock)) else None
    case SetOne => Some(Effect(me.(pc := Wake), other.(futx := 1), lock))
    case Wake =>
      Some(Effect(me.(pc := SignalUnlock), other.(pc := if other.pc.Asleep? then Reacquire else other.pc), lock))
    case SignalUnlock => Some(Effect(me.(pc := Unlock), other.(condLock := None), lock))
    case Unlock => Some(Effect(me.(pc := Idle), other, None))
  }

  ghost function Next<T>(s: State<T>, step: Step<T>): Option<State<T>>
    requires s.ring.Valid()
  {
    match step
    case StartPush(item) =>
      if s.producer.pc.Idle? then Some(s.(producer := s.producer.(pc := Acquire), item := item)) else None
    case StartPop =>
      if s.consumer.pc.Idle? then Some(s.(consumer := s.consumer.(pc := Acquire))) else None
    case Spurious(Producer) =>
      if s.producer.pc.Asleep? then Some(s.(producer := s.producer.(pc := Reacquire))) else None
    case Spurious(Consumer) =>
      if s.consumer.pc.Asleep? then Some(s.(consumer := s.consumer.(pc := Reacquire))) else None
    case Act(Producer) =>
      (match Acts(Producer, s.producer, s.consumer, s.lock, s.ring.Full(), s.ring.Empty())
       case None => None
       case Some(e) =>
         var s' := s.(producer := e.me, consumer := e.other, lock := e.lock);
         Some(if s.producer.pc.Transfer? then s'.(ring := s.ring.Push(s.item), pushed := s.pushed + [s.item]) else s'))
    case Act(Consumer) =>
      match Acts(Consumer, s.consumer, s.producer, s.lock, s.ring.Empty(), s.ring.Full())
      case None => None
      case Some(e) =>
        var s' := s.(consumer := e.me, producer := e.other, lock := e.lock);
        Some(if s.consumer.pc.Transfer?
             then s'.(ring := s.ring.Pop(), popped := s.popped + [s.ring.cells[s.ring.last]]) else s')
  }

  predicate HoldsLock(pc: Pc) {
    !(pc.Idle? || pc.Acquire? || pc.FutexWait? || pc.Asleep? || pc.Reacquire?)
  }

  /** Checked that it has to wait, and still holds the lock. */
  predicate GoingToWait(pc: Pc) {
    pc.WaitLock? || pc.SetZero? || pc.WaitUnlock? || pc.Release?
  }

  /** Owes the other side a signal; the futex word still has to be set. */
  predicate BeforeSet(pc: Pc) {
    pc.SignalLock? || pc.SetOne?
  }

  /** Owes the other side a signal. */
  predicate Owes(pc: Pc) {
    BeforeSet(pc) || pc.Wake?
  }

  predicate LockFits(who: Who, pc: Pc, lock: Option<Who>) {
    HoldsLock(pc) <==> lock == Some(who)
  }

  /** The lock of the condition variable that who waits on. */
  predicate CondLockFits(who: Who, me: Pc, other: Pc, condLock: Option<Who>) {
    var whose := if who.Producer? then Consumer else Producer;
    condLock == if me.SetZero? || me.WaitUnlock? then Some(who)
                else if other.SetOne? || other.Wake? || other.SignalUnlock? then Some(whose)
                else None
  }

  /** A side that waits has reason to, or a signal for it is on the way: it sleeps
      only on the condition or with a wake-up owed, and on the verge of sleeping it
      may instead find the futex word set. */
  predicate WaitsRightly(me: Side, other: Pc, blocked: bool) {
    && (GoingToWait(me.pc) ==> blocked)
    && (me.pc.FutexWait? ==> blocked || BeforeSet(other) || me.futx != 0)
    && (me.pc.Asleep? ==> blocked || Owes(other))
    && (me.pc.Transfer? ==> !blocked)
  }

  ghost predicate Inv<T>(s: State<T>) {
    && s.ring.Valid()
    && LockFits(Producer, s.producer.pc, s.lock) && LockFits(Consumer, s.consumer.pc, s.lock)
    && CondLockFits(Producer, s.producer.pc, s.consumer.pc, s.producer.condLock)
    && CondLockFits(Consumer, s.consumer.pc, s.producer.pc, s.consumer.condLock)
    && WaitsRightly(s.producer, s.consumer.pc, s.ring.Full())
    && WaitsRightly(s.consumer, s.producer.pc, s.ring.Empty())
    && s.pushed == s.popped + s.ring.Contents()
  }

  /** One side's step keeps both sides' waiting in order, given what it does to the
      conditions: a transfer may end the other side's wait and never its own. */
  lemma ActKeeps(who: Who, me: Side, other: Side, lock: Option<Who>, blocked: bool, edge: bool,
                 blocked': bool, edge': bool, e: Effect)
    requires Acts(who, me, other, lock, blocked, edge) == Some(e)
    requires me.pc.Transfer? || (blocked' == blocked && edge' == edge)
    requires me.pc.Transfer? ==> !edge'
    requires var whose := if who.Producer? then Consumer else Producer;
      && LockFits(who, me.pc, lock) && LockFits(whose, other.pc, lock)
      && CondLockFits(who, me.pc, other.pc, me.condLock) && CondLockFits(whose, other.pc, me.pc, other.condLock)
    requires WaitsRightly(me, other.pc, blocked) && WaitsRightly(other, me.pc, edge)
    ensures var whose := if who.Producer? then Consumer else Producer;
      && LockFits(who, e.me.pc, e.lock) && LockFits(whose, e.other.pc, e.lock)
      && CondLockFits(who, e.me.pc, e.other.pc, e.me.condLock)
      && CondLockFits(whose, e.other.pc, e.me.pc, e.other.condLock)
    ensures WaitsRightly(e.me, e.other.pc, blocked') && WaitsRightly(e.other, e.me.pc, edge')
  {
  }

  lemma PushFifo<T>(ring: Ring<T>, x: T, popped: seq<T>)
    requires ring.Valid() && !ring.Full()
    ensures var after := ring.Push(x);
      after.Valid() && !after.Empty() && popped + after.Contents() == popped + ring.Contents() + [x]
  {
    ring.PushAppends(x);
    ring.Push(x).FullAndEmpty();
  }

  lemma PopFifo<T>(ring: Ring<T>, popped: seq<T>)
    requires ring.Valid() && !ring.Empty()
    ensures var after := ring.Pop();
      after.Valid() && !after.Full() && popped + [ring.cells[ring.last]] + after.Contents() == popped + ring.Contents()
  {
    ring.PopRemovesFirst();
    ring.FullAndEmpty();
    ring.Pop().FullAndEmpty();
  }

  lemma ProducerKeeps<T>(s: State<T>)
    requires Inv(s) && Next(s, Act(Producer)).Some?
    ensures Inv(Next(s, Act(Producer)).value)
  {
    var e := Acts(Producer, s.producer, s.consumer, s.lock, s.ring.Full(), s.ring.Empty()).value;
    var s' := Next(s, Act(Producer)).value;
    if s.producer.pc.Transfer? {
      PushFifo(s.ring, s.item, s.popped);
    }
    ActKeeps(Producer, s.producer, s.consumer, s.lock,
             s.ring.Full(), s.ring.Empty(), s'.ring.Full(), s'.ring.Empty(), e);
    hide LockFits, CondLockFits, WaitsRightly, Acts;
  }

  lemma ConsumerKeeps<T>(s: State<T>)
    requires Inv(s) && Next(s, Act(Consumer)).Some?
    ensures Inv(Next(s, Act(Consumer)).value)
  {
    var e := Acts(Consumer, s.consumer, s.producer, s.lock, s.ring.Empty(), s.ring.Full()).value;
    var s' := Next(s, Act(Consumer)).value;
    if s.consumer.pc.Transfer? {
      PopFifo(s.ring, s.popped);
    }
    ActKeeps(Consumer, s.consumer, s.producer, s.lock,
             s.ring.Empty(), s.ring.Full(), s'.ring.Empty(), s'.ring.Full(), e);
    hide LockFits, CondLockFits, WaitsRightly, Acts;
  }

  lemma StepKeeps<T>(s: State<T>, step: Step<T>)
    requires Inv(s) && Next(s, step).Some?
    ensures Inv(Next(s, step).value)
  {
    match step
    case Act(Producer) => ProducerKeeps(s);
    case Act(Consumer) => ConsumerKeeps(s);
    case StartPush(_) =>
    case StartPop =>
    case Spurious(_) =>
  }

  function Start<T>(capacity: nat, filler: T): State<T> {
    State(Ring(0, 0, seq(capacity + 1, _ => filler)), None, Side(Idle, 0, None), Side(Idle, 0, None), filler, [], [])
  }

  ghost predicate Run<T>(s: State<T>, steps: seq<Step<T>>, s': State<T>)
    decreases |steps|
  {
    if steps == [] then s == s'
    else s.ring.Valid() && Next(s, steps[0]).Some? && Run(Next(s, steps[0]).value, steps[1..], s')
  }

  lemma NextKeepsSize<T>(s: State<T>, step: Step<T>)
    requires s.ring.Valid() && Next(s, step).Some?
    ensures |Next(s, step).value.ring.cells| == |s.ring.cells|
  {
  }

  lemma {:induction false} RunKeeps<T>(s: State<T>, steps: seq<Step<T>>, s': State<T>)
    requires Inv(s) && Run(s, steps, s')
    ensures Inv(s') && |s'.ring.cells| == |s.ring.cells|
    decreases |steps|
  {
    if steps != [] {
      StepKeeps(s, steps[0]);
      NextKeepsSize(s, steps[0]);
      hide Next, LockFits, CondLockFits, WaitsRightly;
      RunKeeps(Next(s, steps[0]).value, steps[1..], s');
    }
  }

  /** In every run: items leave in the order they came, none lost or twice; never more
      than capacity are inside; a sleeper with no signal owed to it has reason to sleep. */
  lemma Fifo<T>(capacity: nat, filler: T, steps: seq<Step<T>>, s: State<T>)
    requires capacity < TWO_32 - 1 && Run(Start(capacity, filler), steps, s)
    ensures s.ring.Valid() && s.pushed == s.popped + s.ring.Contents()
    ensures |s.pushed| - |s.popped| <= capacity
    ensures s.consumer.pc.Asleep? && !Owes(s.producer.pc) ==> s.popped == s.pushed
    ensures s.producer.pc.Asleep? && !Owes(s.consumer.pc) ==> |s.pushed| - |s.popped| == capacity
  {
    StartInv(capacity, filler);
    RunKeeps(Start(capacity, filler), steps, s);
    s.ring.FullAndEmpty();
  }

  lemma StartInv<T>(capacity: nat, filler: T)
    requires capacity < TWO_32 - 1
    ensures Inv(Start(capacity, filler))
  {
  }

  predicate BothAsleep<T>(s: State<T>) {
    s.producer.pc.Asleep? && s.consumer.pc.Asleep?
  }

  /** A side that neither is idle nor sleeps can go on unless the other has the lock. */
  lemma CanAct(who: Who, me: Side, other: Side, lock: Option<Who>, blocked: bool, edge: bool)
    requires var whose := if who.Producer? then Consumer else Producer;
      && LockFits(who, me.pc, lock) && LockFits(whose, other.pc, lock)
      && CondLockFits(who, me.pc, other.pc, me.condLock) && CondLockFits(whose, other.pc, me.pc, other.condLock)
    requires !me.pc.Idle? && !me.pc.Asleep? && !HoldsLock(other.pc)
    ensures Acts(who, me, other, lock, blocked, edge).Some?
  {
    assert lock.Some? ==> lock.value == who || lock.value == if who.Producer? then Consumer else Producer;
  }

  /** With room for one item or more the two sides never both sleep, and somebody can
      go on unless both are idle, or one is and the other rightly sleeps. */
  lemma NeverBothAsleep<T>(capacity: nat, filler: T, steps: seq<Step<T>>, s: State<T>)
    requires 0 < capacity < TWO_32 - 1 && Run(Start(capacity, filler), steps, s)
    ensures !BothAsleep(s) && s.ring.Valid()
    ensures
      || Next(s, Act(Producer)).Some? || Next(s, Act(Consumer)).Some?
      || (s.producer.pc.Idle? && s.consumer.pc.Idle?)
      || (s.producer.pc.Idle? && s.consumer.pc.Asleep? && s.popped == s.pushed)
      || (s.consumer.pc.Idle? && s.producer.pc.Asleep? && |s.pushed| - |s.popped| == capacity)
  {
    StartInv(capacity, filler);
    RunKeeps(Start(capacity, filler), steps, s);
    s.ring.FullAndEmpty();
    var p, c := s.producer, s.consumer;
    if !p.pc.Idle? && !p.pc.Asleep? && !HoldsLock(c.pc) {
      CanAct(Producer, p, c, s.lock, s.ring.Full(), s.ring.Empty());
    } else if !c.pc.Idle? && !c.pc.Asleep? && !HoldsLock(p.pc) {
      CanAct(Consumer, c, p, s.lock, s.ring.Empty(), s.ring.Full());
    }
    hide Acts, CondLockFits;
  }

  ghost predicate CanBothSleep(capacity: nat) {
    exists steps: seq<Step<int>>, s: State<int> :: Run(Start(capacity, 0), steps, s) && BothAsleep(s)
  }

  /** Steps to go until a side that finds itself blocked is asleep. */
  function ToSleep(pc: Pc): nat {
    match pc
    case Acquire => 7
    case Check => 6
    case WaitLock => 5
    case SetZero => 4
    case WaitUnlock => 3
    case Release => 2
    case FutexWait => 1
    case _ => 0
  }

  /** On the way to sleep in a queue without room, the other side out of the way. */
  predicate Sleepy(who: Who, me: Side, other: Side, lock: Option<Who>) {
    && ToSleep(me.pc) > 0 && (other.pc.Idle? || other.pc.Asleep?) && me.futx == 0
    && lock == (if HoldsLock(me.pc) then Some(who) else None)
    && me.condLock == (if me.pc.SetZero? || me.pc.WaitUnlock? then Some(who) else None)
  }

  lemma {:induction false} ProducerSleeps(s: State<int>) returns (steps: seq<Step<int>>)
    requires |s.ring.cells| == 1 && s.ring.Valid() && Sleepy(Producer, s.producer, s.consumer, s.lock)
    ensures Run(s, steps, s.(producer := Side(Asleep, 0, None), lock := None))
    decreases ToSleep(s.producer.pc)
  {
    var s1 := Next(s, Act(Producer)).value;
    OneStep(s, Act(Producer), s1);
    var asleep := s.(producer := Side(Asleep, 0, None), lock := None);
    steps := [Act(Producer)];
    if !s.producer.pc.FutexWait? {
      var more := ProducerSleeps(s1);
      RunTwice(s, steps, s1, more, asleep);
      steps := steps + more;
    }
  }

  lemma {:induction false} ConsumerSleeps(s: State<int>) returns (steps: seq<Step<int>>)
    requires |s.ring.cells| == 1 && s.ring.Valid() && Sleepy(Consumer, s.consumer, s.producer, s.lock)
    ensures Run(s, steps, s.(consumer := Side(Asleep, 0, None), lock := None))
    decreases ToSleep(s.consumer.pc)
  {
    var s1 := Next(s, Act(Consumer)).value;
    OneStep(s, Act(Consumer), s1);
    var asleep := s.(consumer := Side(Asleep, 0, None), lock := None);
    steps := [Act(Consumer)];
    if !s.consumer.pc.FutexWait? {
      var more := ConsumerSleeps(s1);
      RunTwice(s, steps, s1, more, asleep);
      steps := steps + more;
    }
  }

  /** A queue without room is full and empty at once, and then both sleep for good. */
  lemma BothSleepExactly(capacity: nat)
    requires capacity < TWO_32 - 1
    ensures CanBothSleep(capacity) <==> capacity == 0
  {
    if capacity == 0 {
      var s0 := Start(0, 0);
      var s1 := s0.(producer := Side(Asleep, 0, None));
      var s2 := s1.(consumer := Side(Asleep, 0, None));
      var started := s0.(producer := Side(Acquire, 0, None));
      OneStep(s0, StartPush(0), started);
      var steps := ProducerSleeps(started);
      RunTwice(s0, [StartPush(0)], started, steps, s1);
      var started2 := s1.(consumer := Side(Acquire, 0, None));
      OneStep(s1, StartPop, started2);
      var steps2 := ConsumerSleeps(started2);
      RunTwice(s1, [StartPop], started2, steps2, s2);
      RunTwice(s0, [StartPush(0)] + steps, s1, [StartPop] + steps2, s2);
      assert BothAsleep(s2);
    } else if CanBothSleep(capacity) {
      var steps: seq<Step<int>>, s: State<int> :| Run(Start(capacity, 0), steps, s) && BothAsleep(s);
      NeverBothAsleep(capacity, 0, steps, s);
    }
  }

  lemma {:induction false} RunTwice<T>(s: State<T>, a: seq<Step<T>>, s1: State<T>, b: seq<Step<T>>, s2: State<T>)
    requires Run(s, a, s1) && Run(s1, b, s2)
    ensures Run(s, a + b, s2)
    decreases |a|
  {
    hide Next;
    if a == [] {
      assert a + b == b;
    } else {
      assert (a + b)[1..] == a[1..] + b;
      RunTwice(Next(s, a[0]).value, a[1..], s1, b, s2);
    }
  }

  lemma OneStep<T>(s: State<T>, step: Step<T>, s': State<T>)
    requires s.ring.Valid() && Next(s, step) == Some(s')
    ensures Run(s, [step], s')
  {
    assert [step][1..] == [];
    assert Run(s', [], s');
  }
}
