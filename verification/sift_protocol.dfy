/** All runs of a writer and a reader joined by two byte streams. Each step is one
    end acting alone: sending a record, or taking one that has arrived. */
module SiftProtocol {
  import opened SiftFormat
  import opened SiftWriterSpec
  import opened SiftReaderSpec
  import opened SiftRoundTrip
  import opened SiftTheorems
  import opened SiftSession

  /** The traced program with its memory of type M: perform is what its access
      handler does. */
  datatype Env<!M> = Env(cfg: Config, junk: u64 -> byte, perform: (M, Access) -> (M, seq<byte>))

  datatype WriterEnd = Running | Waiting(req: Req) | Closed | WriterFailed

  datatype ReaderEnd = Reading | Handling(req: Req) | Awaiting(req: Req, access: Access) | Finished | ReaderFailed

  /** made and told are the events of the writer's calls and of the reader's
      callbacks; asked and heard the requests on either side; answered and returned
      the answers; performed and observed the memory accesses with their outcome. */
  datatype Session<!M> = Session(ws: WriterState, rs: ReaderState, toReader: seq<byte>, toWriter: seq<byte>,
                                 writer: WriterEnd, reader: ReaderEnd, mem: M,
                                 made: seq<Event>, told: seq<Event>, asked: seq<Req>, heard: seq<Req>,
                                 answered: seq<(Req, seq<byte>)>, returned: seq<(Req, seq<byte>)>,
                                 performed: seq<(Access, seq<byte>)>, observed: seq<(Access, seq<byte>)>)

  datatype Step = Make(call: Call) | Ask(req: Req) | Close | WriterTakes | ReaderReads | Want(access: Access)
                | Reply(answer: seq<byte>) | ReaderTakes

  datatype Moved<!M> = To(s: Session<M>) | NotEnabled

  function Fit(bytes: seq<byte>, n: nat): (r: seq<byte>)
    ensures |r| == n
  {
    if |bytes| >= n then bytes[..n] else bytes + seq<byte>(n - |bytes|, _ => 0)
  }

  /** The outcome of an access; the buffer of a read has the size asked for. */
  function Perform<M>(env: Env<M>, m: M, a: Access): (M, seq<byte>) {
    var (m', bytes) := env.perform(m, a);
    (m', if a.write then [] else Fit(bytes, a.size))
  }

  function Next<M>(env: Env<M>, s: Session<M>, step: Step): Moved<M>
    requires PagesOk(s.rs.pages)
    requires step.Make? ==> Callable(env.cfg, step.call)
  {
    match step
    case Make(c) =>
      if s.writer.Running? then
        To(s.(toReader := s.toReader + Bytes(env.cfg, s.ws, c), ws := After(env.cfg, s.ws, c),
              made := s.made + [EventOf(env.cfg, c)]))
      else NotEnabled
    case Ask(req) =>
      if s.writer.Running? then
        To(s.(toReader := s.toReader + RequestBytes(req), writer := Waiting(req), asked := s.asked + [req]))
      else NotEnabled
    case Close =>
      if s.writer.Running? then To(s.(toReader := s.toReader + OtherHeader(REC_END, 0), writer := Closed))
      else NotEnabled
    case WriterTakes => WriterMove(env, s)
    case ReaderReads => ReaderMove(env, s)
    case Want(a) =>
      if s.reader.Handling? && MayAccess(s.reader.req) then
        To(s.(toWriter := s.toWriter + AccessBytes(a), reader := Awaiting(s.reader.req, a)))
      else NotEnabled
    case Reply(answer) =>
      if s.reader.Handling? && |answer| == AnswerLength(s.reader.req) then
        To(s.(toWriter := s.toWriter + ResponseBytes(s.reader.req, answer), reader := Reading,
              answered := s.answered + [(s.reader.req, answer)]))
      else NotEnabled
    case ReaderTakes =>
      if !s.reader.Awaiting? then NotEnabled
      else match ReceiveReply(s.reader.access, s.toReader)
        case Blocked => NotEnabled
        case Wrong => To(s.(reader := ReaderFailed))
        case Arrived(data, rest) =>
          To(s.(toReader := rest, reader := Handling(s.reader.req), observed := s.observed + [(s.reader.access, data)]))
  }

  function WriterMove<M>(env: Env<M>, s: Session<M>): Moved<M> {
    if !s.writer.Waiting? then NotEnabled
    else match ReceiveIncoming(s.writer.req, s.toWriter)
      case Blocked => NotEnabled
      case Wrong => To(s.(writer := WriterFailed))
      case Arrived(Answer(bytes), rest) =>
        To(s.(toWriter := rest, writer := Running, returned := s.returned + [(s.writer.req, bytes)]))
      case Arrived(Serve(a), rest) =>
        var (m, result) := Perform(env, s.mem, a);
        To(s.(toWriter := rest, toReader := s.toReader + ReplyBytes(a, result), mem := m,
              performed := s.performed + [(a, result)]))
  }

  function ReaderMove<M>(env: Env<M>, s: Session<M>): Moved<M>
    requires PagesOk(s.rs.pages)
  {
    if !s.reader.Reading? then NotEnabled
    else match Read(s.rs, env.junk, s.toReader)
      case OutOfInput => NotEnabled
      case Aborted => To(s.(reader := ReaderFailed))
      case Return(rs, events, rest) => To(s.(rs := rs, told := s.told + events, toReader := rest))
      case AtEnd(events, rest) => To(s.(told := s.told + events, toReader := rest, reader := Finished))
      case AtRequest(rs, events, kind, size, rest) =>
        match ReceiveRequest(kind, size, rest)
        case Blocked => NotEnabled
        case Wrong => To(s.(reader := ReaderFailed))
        case Arrived(req, rest') =>
          To(s.(rs := rs, told := s.told + events, toReader := rest', reader := Handling(req),
                heard := s.heard + [req]))
  }

  // The calls whose bytes the reader has not read yet.

  function PendingBytes(cfg: Config, ws: WriterState, calls: seq<Call>): seq<byte>
    requires Possible(cfg, calls)
    decreases |calls|
  {
    if calls == [] then [] else Bytes(cfg, ws, calls[0]) + PendingBytes(cfg, After(cfg, ws, calls[0]), calls[1..])
  }

  function AfterAll(cfg: Config, ws: WriterState, calls: seq<Call>): WriterState
    requires Possible(cfg, calls)
    decreases |calls|
  {
    if calls == [] then ws else AfterAll(cfg, After(cfg, ws, calls[0]), calls[1..])
  }

  predicate FixedLengths(len: u64 -> nat, calls: seq<Call>) {
    forall c :: c in calls && c.Execute? ==> c.inst.size == len(c.inst.addr)
  }

  /** Pending calls are such as a caller may make, one after the other. */
  ghost predicate Sound(cfg: Config, len: u64 -> nat, ws: WriterState, calls: seq<Call>) {
    Possible(cfg, calls) && FixedLengths(len, calls) && EachFaithful(cfg, ws, calls)
  }

  lemma {:induction false} OneMore(cfg: Config, len: u64 -> nat, ws: WriterState, calls: seq<Call>, c: Call)
    requires Sound(cfg, len, ws, calls) && Possible(cfg, [c]) && FixedLengths(len, [c])
    requires Faithful(cfg, AfterAll(cfg, ws, calls), c)
    ensures Sound(cfg, len, ws, calls + [c])
    ensures PendingBytes(cfg, ws, calls + [c]) == PendingBytes(cfg, ws, calls) + Bytes(cfg, AfterAll(cfg, ws, calls), c)
    ensures AfterAll(cfg, ws, calls + [c]) == After(cfg, AfterAll(cfg, ws, calls), c)
    ensures Events(cfg, calls + [c]) == Events(cfg, calls) + [EventOf(cfg, c)]
    decreases |calls|
  {
    hide Faithful, Bytes, After, EventOf, Callable;
    assert c in [c];
    if calls == [] {
      assert [] + [c] == [c];
      assert [c][1..] == [] && [c][0] == c;
      assert EachFaithful(cfg, After(cfg, ws, c), []);
    } else {
      OneMore(cfg, len, After(cfg, ws, calls[0]), calls[1..], c);
      assert (calls + [c])[1..] == calls[1..] + [c];
    }
  }

  /** A faithful call that is no instruction is told and read past. */
  lemma QuietCall(cfg: Config, ws: WriterState, rs: ReaderState, junk: u64 -> byte, c: Call, rest: seq<byte>)
    requires PagesOk(rs.pages) && !c.Execute? && Possible(cfg, [c]) && Faithful(cfg, ws, c)
    ensures Read(rs, junk, Bytes(cfg, ws, c) + rest) == Prefixed([EventOf(cfg, c)], Read(rs, junk, rest))
    ensures After(cfg, ws, c) == ws
  {
    hide Read, AnnounceRecord;
    assert c in [c];
    match c
    case Output(fd, data) => OutputBack(rs, junk, fd, data, rest);
    case RoutineChange(eip, esp, event) => ChangeBack(rs, junk, eip, esp, event, rest);
    case RoutineAnnounce(_, name, imgname, _, _, _, filename) =>
      AnnounceBack(rs, junk, c, rest);
      SentWhole(name);
      SentWhole(imgname);
      SentWhole(filename);
  }

  predicate AllQuiet(calls: seq<Call>) {
    forall c :: c in calls ==> !c.Execute?
  }

  /** Reading on: past quiet calls to whatever follows, or up to the first
      instruction, k calls being used up. */
  lemma {:induction false} ReadPending(cfg: Config, len: u64 -> nat, ws: WriterState, rs: ReaderState,
                                       junk: u64 -> byte, calls: seq<Call>, tail: seq<byte>)
    returns (k: nat, ws': WriterState, rs': ReaderState)
    requires Agreed(cfg, len, ws, rs) && PagesOk(rs.pages) && Sound(cfg, len, ws, calls)
    ensures k <= |calls| && Agreed(cfg, len, ws', rs') && PagesOk(rs'.pages) && Sound(cfg, len, ws', calls[k..])
    ensures AfterAll(cfg, ws', calls[k..]) == AfterAll(cfg, ws, calls)
    ensures Events(cfg, calls) == Events(cfg, calls[..k]) + Events(cfg, calls[k..])
    ensures AllQuiet(calls) ==> k == |calls| && rs' == rs && ws' == ws
    ensures AllQuiet(calls) ==>
      Read(rs, junk, PendingBytes(cfg, ws, calls) + tail) == Prefixed(Events(cfg, calls), Read(rs, junk, tail))
    ensures !AllQuiet(calls) ==>
      Read(rs, junk, PendingBytes(cfg, ws, calls) + tail)
        == Return(rs', Events(cfg, calls[..k]), PendingBytes(cfg, ws', calls[k..]) + tail)
    decreases |calls|
  {
    hide Agreed, Read, Bytes, Faithful, EventOf, After;
    if calls == [] {
      k, ws', rs' := 0, ws, rs;
      assert [] + tail == tail;
      PrefixedNothing(Read(rs, junk, tail));
      assert calls[..0] == [] && calls[0..] == [];
    } else {
      var c, more := calls[0], calls[1..];
      assert c in calls;
      var rest := PendingBytes(cfg, After(cfg, ws, c), more) + tail;
      assert PendingBytes(cfg, ws, calls) + tail == Bytes(cfg, ws, c) + rest;
      assert Events(cfg, calls) == [EventOf(cfg, c)] + Events(cfg, more);
      if c.Execute? {
        ReadExecute(cfg, len, ws, rs, junk, c, rest);
        k, ws' := 1, After(cfg, ws, c);
        rs' := Read(rs, junk, Bytes(cfg, ws, c) + rest).rs;
        assert calls[..1] == [c] && Events(cfg, [c]) == [EventOf(cfg, c)];
      } else {
        assert Possible(cfg, [c]);
        QuietCall(cfg, ws, rs, junk, c, rest);
        var j;
        j, ws', rs' := ReadPending(cfg, len, ws, rs, junk, more, tail);
        k := j + 1;
        assert more[j..] == calls[k..];
        assert calls[..k] == [c] + more[..j];
        assert Events(cfg, calls[..k]) == [EventOf(cfg, c)] + Events(cfg, more[..j]) by {
          assert calls[..k][1..] == more[..j];
        }
        assert AllQuiet(calls) <==> AllQuiet(more);
        if AllQuiet(more) {
          PrefixedTwice([EventOf(cfg, c)], Events(cfg, more), Read(rs, junk, tail));
        }
      }
    }
  }

  lemma ReadExecute(cfg: Config, len: u64 -> nat, ws: WriterState, rs: ReaderState, junk: u64 -> byte, c: Call,
                    rest: seq<byte>)
    requires Agreed(cfg, len, ws, rs) && PagesOk(rs.pages) && c.Execute? && Callable(cfg, c) && Faithful(cfg, ws, c)
    requires c.inst.size == len(c.inst.addr)
    ensures
      var o := Read(rs, junk, Bytes(cfg, ws, c) + rest);
      o.Return? && o.events == [EventOf(cfg, c)] && o.rest == rest
      && PagesOk(o.rs.pages) && Agreed(cfg, len, After(cfg, ws, c), o.rs)
  {
    hide Agreed, Read;
    var rs' := ExecuteBack(cfg, len, ws, rs, junk, c.inst, rest);
    AgreedPages(cfg, len, After(cfg, ws, c), rs');
  }

  // The invariant of all runs.

  /** The accesses performed, from the memory the run started with, and the memory
      they lead to. */
  function Replay<M>(env: Env<M>, m: M, accesses: seq<Access>): (M, seq<(Access, seq<byte>)>) {
    if accesses == [] then (m, [])
    else
      var last := |accesses| - 1;
      var (m1, log) := Replay(env, m, accesses[..last]);
      var (m2, result) := Perform(env, m1, accesses[last]);
      (m2, log + [(accesses[last], result)])
  }

  function AccessesOf(log: seq<(Access, seq<byte>)>): seq<Access> {
    seq(|log|, i requires 0 <= i < |log| => log[i].0)
  }

  ghost predicate Quiescent<M>(s: Session<M>) {
    s.heard == s.asked && s.returned == s.answered && s.observed == s.performed
  }

  /** What is in the two streams, and how far the histories have come, by what the
      two ends are doing; bytes is what the pending calls wrote. */
  ghost predicate Phase<M>(s: Session<M>, bytes: seq<byte>) {
    match s.writer
    case WriterFailed => false
    case Running =>
      s.reader == Reading && s.toReader == bytes && s.toWriter == [] && Quiescent(s)
    case Closed =>
      s.toWriter == [] && Quiescent(s)
      && ((s.reader == Reading && s.toReader == bytes + OtherHeader(REC_END, 0))
          || (s.reader == Finished && s.toReader == bytes == []))
    case Waiting(req) =>
      && RequestOk(req)
      && match s.reader
         case ReaderFailed => false
         case Finished => false
         case Reading =>
           if s.toWriter == [] then
             s.toReader == bytes + RequestBytes(req)
             && s.asked == s.heard + [req] && s.returned == s.answered && s.observed == s.performed
           else
             s.toReader == bytes == [] && s.heard == s.asked && s.observed == s.performed && Answered(s, req)
         case Handling(r) => r == req && s.toReader == bytes == [] && s.toWriter == [] && Quiescent(s)
         case Awaiting(r, a) =>
           && r == req && bytes == [] && MayAccess(req) && AccessOk(a) && s.heard == s.asked && s.returned == s.answered
           && if s.toReader == [] then s.toWriter == AccessBytes(a) && s.observed == s.performed
              else s.toWriter == [] && Performed(s, a)
  }

  ghost predicate Answered<M>(s: Session<M>, req: Req) {
    && |s.answered| == |s.returned| + 1
    && var (r, answer) := s.answered[|s.returned|];
       r == req && |answer| == AnswerLength(req) && s.toWriter == ResponseBytes(req, answer)
       && s.answered == s.returned + [(req, answer)]
  }

  ghost predicate Performed<M>(s: Session<M>, a: Access) {
    && |s.performed| == |s.observed| + 1
    && var (access, result) := s.performed[|s.observed|];
       access == a && |result| == (if a.write then 0 else a.size) && s.toReader == ReplyBytes(a, result)
       && s.performed == s.observed + [(a, result)]
  }

  /** The reader stands where the writer was in state ws; pending was written since. */
  ghost predicate Stands<M>(env: Env<M>, len: u64 -> nat, s: Session<M>, ws: WriterState, pending: seq<Call>) {
    && PagesOk(s.rs.pages)
    && Agreed(env.cfg, len, ws, s.rs) && Sound(env.cfg, len, ws, pending)
    && s.ws == AfterAll(env.cfg, ws, pending)
    && s.made == s.told + Events(env.cfg, pending)
    && Phase(s, PendingBytes(env.cfg, ws, pending))
  }

  ghost predicate Inv<M>(env: Env<M>, len: u64 -> nat, m0: M, s: Session<M>) {
    && PagesOk(s.rs.pages)
    && (exists ws, pending :: Stands(env, len, s, ws, pending))
    && Replay(env, m0, AccessesOf(s.performed)) == (s.mem, s.performed)
  }

  /** The steps callers and handlers may choose. */
  ghost predicate Allowed<M>(env: Env<M>, len: u64 -> nat, s: Session<M>, step: Step) {
    match step
    case Make(c) => Possible(env.cfg, [c]) && FixedLengths(len, [c]) && Faithful(env.cfg, s.ws, c)
    case Ask(req) => RequestOk(req)
    case Want(a) => AccessOk(a)
    case _ => true
  }

  function Start<M>(m0: M): Session<M> {
    Session(INITIAL, FRESH, [], [], Running, Reading, m0, [], [], [], [], [], [], [], [])
  }

  lemma StartInv<M>(env: Env<M>, len: u64 -> nat, m0: M)
    ensures Inv(env, len, m0, Start(m0))
  {
    StartAgreed(env.cfg, len);
    assert Stands(env, len, Start(m0), INITIAL, []);
    assert AccessesOf([]) == [];
  }

  lemma MakeKeeps<M>(env: Env<M>, len: u64 -> nat, s: Session<M>, c: Call, ws: WriterState, pending: seq<Call>)
    requires Stands(env, len, s, ws, pending) && Allowed(env, len, s, Make(c)) && s.writer.Running?
    requires Callable(env.cfg, c)
    ensures Stands(env, len, Next(env, s, Make(c)).s, ws, pending + [c])
  {
    hide Agreed, Bytes, After, EventOf, Sound, AfterAll, PendingBytes, Faithful, Possible, FixedLengths;
    OneMore(env.cfg, len, ws, pending, c);
  }

  lemma AskKeeps<M>(env: Env<M>, len: u64 -> nat, s: Session<M>, step: Step, ws: WriterState, pending: seq<Call>)
    requires Stands(env, len, s, ws, pending) && Allowed(env, len, s, step) && s.writer.Running?
    requires step.Ask? || step.Close?
    ensures Stands(env, len, Next(env, s, step).s, ws, pending)
  {
    hide Agreed, Sound, AfterAll, PendingBytes, Payload;
  }

  lemma HandlerKeeps<M>(env: Env<M>, len: u64 -> nat, s: Session<M>, step: Step, ws: WriterState, pending: seq<Call>)
    requires Stands(env, len, s, ws, pending) && Allowed(env, len, s, step) && (step.Want? || step.Reply?)
    requires Next(env, s, step).To?
    ensures Stands(env, len, Next(env, s, step).s, ws, pending)
  {
    hide Agreed, Sound, AfterAll, PendingBytes, LE;
    if step.Reply? {
      assert ResponseBytes(s.reader.req, step.answer)[0] == 0;
    }
  }

  lemma ReaderTakesKeeps<M>(env: Env<M>, len: u64 -> nat, s: Session<M>, ws: WriterState, pending: seq<Call>)
    requires Stands(env, len, s, ws, pending) && Next(env, s, ReaderTakes).To?
    ensures Stands(env, len, Next(env, s, ReaderTakes).s, ws, pending)
  {
    hide Agreed, Sound, AfterAll, PendingBytes, LE, ReceiveReply;
    var a := s.reader.access;
    if s.toReader == [] {
      NothingArrives(a);
    } else {
      var result := s.performed[|s.observed|].1;
      assert s.toReader == ReplyBytes(a, result) + [];
      ReplyArrives(a, result, []);
    }
  }

  lemma NothingArrives(a: Access)
    ensures ReceiveReply(a, []).Blocked?
  {
  }

  lemma WriterTakesKeeps<M>(env: Env<M>, len: u64 -> nat, s: Session<M>, ws: WriterState, pending: seq<Call>)
    requires Stands(env, len, s, ws, pending) && Next(env, s, WriterTakes).To?
    ensures Stands(env, len, Next(env, s, WriterTakes).s, ws, pending)
    ensures var s' := Next(env, s, WriterTakes).s;
      (s'.performed == s.performed && s'.mem == s.mem)
      || exists a :: Performs(env, s, s', a)
  {
    hide Agreed, Sound, AfterAll, PendingBytes, LE, ReceiveIncoming;
    var req := s.writer.req;
    if s.toWriter == [] {
      assert ReceiveIncoming(req, []).Blocked? by {
        NothingIncoming(req);
      }
    } else if s.reader.Awaiting? {
      var a := s.reader.access;
      assert s.toWriter == AccessBytes(a) + [];
      AccessArrives(req, a, []);
      var s' := Next(env, s, WriterTakes).s;
      assert ReplyBytes(a, Perform(env, s.mem, a).1)[0] == 0;
      assert Performs(env, s, s', a);
    } else {
      var answer := s.answered[|s.returned|].1;
      assert s.toWriter == ResponseBytes(req, answer) + [];
      AnswerArrives(req, answer, []);
    }
  }

  ghost predicate Performs<M>(env: Env<M>, s: Session<M>, s': Session<M>, a: Access) {
    var (m, result) := Perform(env, s.mem, a);
    s'.mem == m && s'.performed == s.performed + [(a, result)]
  }

  lemma NothingIncoming(req: Req)
    ensures ReceiveIncoming(req, []).Blocked?
  {
  }

  lemma ReplayMore<M>(env: Env<M>, m0: M, s: Session<M>, s': Session<M>, a: Access)
    requires Replay(env, m0, AccessesOf(s.performed)) == (s.mem, s.performed) && Performs(env, s, s', a)
    ensures Replay(env, m0, AccessesOf(s'.performed)) == (s'.mem, s'.performed)
  {
    var more := AccessesOf(s'.performed);
    assert more[..|more| - 1] == AccessesOf(s.performed);
  }

  lemma PayloadFits(req: Req)
    requires RequestOk(req)
    ensures |Payload(req)| < TWO_32
  {
  }

  lemma RequestRead(rs: ReaderState, junk: u64 -> byte, req: Req)
    requires PagesOk(rs.pages) && RequestOk(req)
    ensures Read(rs, junk, RequestBytes(req)) == AtRequest(rs, [], RequestKind(req), |Payload(req)|, Payload(req))
  {
    hide Read, Payload;
    PayloadFits(req);
    ReadRecord(rs, junk, RequestKind(req), |Payload(req)|, Payload(req));
  }

  lemma EndRead(rs: ReaderState, junk: u64 -> byte)
    requires PagesOk(rs.pages)
    ensures Read(rs, junk, OtherHeader(REC_END, 0)) == AtEnd([], [])
  {
    ReadRecord(rs, junk, REC_END, 0, []);
    assert OtherHeader(REC_END, 0) + [] == OtherHeader(REC_END, 0);
  }

  /** Reading with pending calls and then tail in the stream: up to an instruction,
      the ends keep standing as they did. */
  lemma ReadsInstruction<M>(env: Env<M>, len: u64 -> nat, s: Session<M>, ws: WriterState, pending: seq<Call>,
                            tail: seq<byte>)
    returns (ws': WriterState, pending': seq<Call>)
    requires Stands(env, len, s, ws, pending) && s.reader.Reading? && s.toWriter == [] && !AllQuiet(pending)
    requires s.toReader == PendingBytes(env.cfg, ws, pending) + tail
    requires s.writer.Waiting? ==> tail == RequestBytes(s.writer.req)
    requires s.writer.Closed? ==> tail == OtherHeader(REC_END, 0)
    requires s.writer.Running? ==> tail == []
    ensures ReaderMove(env, s).To? && Stands(env, len, ReaderMove(env, s).s, ws', pending')
  {
    hide Agreed, Read, PendingBytes, AfterAll, EachFaithful, Possible, Payload, LE;
    var k, rs';
    k, ws', rs' := ReadPending(env.cfg, len, ws, s.rs, env.junk, pending, tail);
    pending' := pending[k..];
    assert s.told + (Events(env.cfg, pending[..k]) + Events(env.cfg, pending'))
        == s.told + Events(env.cfg, pending[..k]) + Events(env.cfg, pending');
    if s.writer.Running? {
      assert PendingBytes(env.cfg, ws', pending') + [] == PendingBytes(env.cfg, ws', pending');
    }
  }

  lemma NoneStands<M>(env: Env<M>, len: u64 -> nat, s: Session<M>, ws: WriterState)
    requires PagesOk(s.rs.pages) && Agreed(env.cfg, len, ws, s.rs) && s.ws == ws && s.made == s.told && Phase(s, [])
    ensures Stands(env, len, s, ws, [])
  {
    assert s.told + [] == s.told;
  }

  lemma ReaderReadsKeeps<M>(env: Env<M>, len: u64 -> nat, s: Session<M>, ws: WriterState, pending: seq<Call>)
    returns (ws': WriterState, pending': seq<Call>)
    requires Stands(env, len, s, ws, pending) && Next(env, s, ReaderReads).To?
    ensures Stands(env, len, Next(env, s, ReaderReads).s, ws', pending')
  {
    hide Agreed, Read, PendingBytes, AfterAll, EachFaithful, Possible, Payload, LE, ReceiveRequest;
    var bytes := PendingBytes(env.cfg, ws, pending);
    EmptyRead(s.rs, env.junk);
    var tail := match s.writer
      case Waiting(req) => RequestBytes(req)
      case Closed => OtherHeader(REC_END, 0)
      case _ => [];
    assert bytes + [] == bytes;
    assert s.toReader == bytes + tail;
    if !AllQuiet(pending) {
      ws', pending' := ReadsInstruction(env, len, s, ws, pending, tail);
    } else {
      var k, rs';
      k, ws', rs' := ReadPending(env.cfg, len, ws, s.rs, env.junk, pending, tail);
      pending' := [];
      assert pending[k..] == [];
      assert Events(env.cfg, pending) + [] == Events(env.cfg, pending);
      AfterNone(env.cfg, ws);
      if s.writer.Waiting? {
        RequestRead(s.rs, env.junk, s.writer.req);
        RequestArrives(s.writer.req, []);
        assert Payload(s.writer.req) + [] == Payload(s.writer.req);
        NoneStands(env, len, Next(env, s, ReaderReads).s, ws);
      } else if s.writer.Closed? {
        EndRead(s.rs, env.junk);
        NoneStands(env, len, Next(env, s, ReaderReads).s, ws);
      }
    }
  }

  lemma AfterNone(cfg: Config, ws: WriterState)
    ensures AfterAll(cfg, ws, []) == ws && PendingBytes(cfg, ws, []) == []
  {
  }

  lemma EmptyRead(rs: ReaderState, junk: u64 -> byte)
    requires PagesOk(rs.pages)
    ensures Read(rs, junk, []) == OutOfInput
  {
  }

  /** No allowed step breaks the invariant. */
  lemma StepKeeps<M>(env: Env<M>, len: u64 -> nat, m0: M, s: Session<M>, step: Step)
    requires Inv(env, len, m0, s) && Allowed(env, len, s, step)
    requires step.Make? ==> Callable(env.cfg, step.call)
    requires Next(env, s, step).To?
    ensures Inv(env, len, m0, Next(env, s, step).s)
  {
    hide Stands, Replay, Allowed, Performs;
    var ws, pending :| Stands(env, len, s, ws, pending);
    var s' := Next(env, s, step).s;
    match step
    case Make(c) => MakeKeeps(env, len, s, c, ws, pending); StandsPages(env, len, s', ws, pending + [c]);
    case Ask(_) => AskKeeps(env, len, s, step, ws, pending); StandsPages(env, len, s', ws, pending);
    case Close => AskKeeps(env, len, s, step, ws, pending); StandsPages(env, len, s', ws, pending);
    case Want(_) => HandlerKeeps(env, len, s, step, ws, pending); StandsPages(env, len, s', ws, pending);
    case Reply(_) => HandlerKeeps(env, len, s, step, ws, pending); StandsPages(env, len, s', ws, pending);
    case ReaderTakes => ReaderTakesKeeps(env, len, s, ws, pending); StandsPages(env, len, s', ws, pending);
    case ReaderReads =>
      var ws', pending' := ReaderReadsKeeps(env, len, s, ws, pending);
      StandsPages(env, len, s', ws', pending');
    case WriterTakes =>
      WriterTakesKeeps(env, len, s, ws, pending);
      StandsPages(env, len, s', ws, pending);
      if s'.performed != s.performed || s'.mem != s.mem {
        var a :| Performs(env, s, s', a);
        ReplayMore(env, m0, s, s', a);
      }
  }

  lemma StandsPages<M>(env: Env<M>, len: u64 -> nat, s: Session<M>, ws: WriterState, pending: seq<Call>)
    requires Stands(env, len, s, ws, pending)
    ensures PagesOk(s.rs.pages)
  {
  }

  /** s leads to s' by these steps, each allowed and enabled when it is taken. */
  ghost predicate Run<M>(env: Env<M>, len: u64 -> nat, s: Session<M>, steps: seq<Step>, s': Session<M>)
    decreases |steps|
  {
    if steps == [] then s == s'
    else
      && PagesOk(s.rs.pages)
      && (steps[0].Make? ==> Callable(env.cfg, steps[0].call))
      && Allowed(env, len, s, steps[0])
      && Next(env, s, steps[0]).To?
      && Run(env, len, Next(env, s, steps[0]).s, steps[1..], s')
  }

  lemma {:induction false} RunKeeps<M>(env: Env<M>, len: u64 -> nat, m0: M, s: Session<M>, steps: seq<Step>,
                                       s': Session<M>)
    requires Inv(env, len, m0, s) && Run(env, len, s, steps, s')
    ensures Inv(env, len, m0, s')
    decreases |steps|
  {
    hide Inv, Next, Allowed;
    if steps != [] {
      StepKeeps(env, len, m0, s, steps[0]);
      RunKeeps(env, len, m0, Next(env, s, steps[0]).s, steps[1..], s');
    }
  }

  /** Some step of the reader or of the waiting writer can be taken now. */
  ghost predicate CanMove<M>(env: Env<M>, s: Session<M>)
    requires PagesOk(s.rs.pages)
  {
    Next(env, s, WriterTakes).To? || Next(env, s, ReaderReads).To? || Next(env, s, ReaderTakes).To?
    || s.reader.Handling?
  }

  lemma WaitingMoves<M>(env: Env<M>, len: u64 -> nat, s: Session<M>, ws: WriterState, pending: seq<Call>)
    requires Stands(env, len, s, ws, pending) && s.writer.Waiting?
    ensures CanMove(env, s)
  {
    hide Agreed, Read, PendingBytes, AfterAll, EachFaithful, Possible, Payload, LE, ReceiveRequest, ReceiveIncoming;
    hide ReceiveReply;
    var req := s.writer.req;
    if s.reader.Awaiting? {
      var a := s.reader.access;
      if s.toReader == [] {
        assert s.toWriter == AccessBytes(a) + [];
        AccessArrives(req, a, []);
      } else {
        var result := s.performed[|s.observed|].1;
        assert s.toReader == ReplyBytes(a, result) + [];
        ReplyArrives(a, result, []);
      }
    } else if s.reader.Reading? && s.toWriter == [] {
      if AllQuiet(pending) {
        var k, ws', rs' := ReadPending(env.cfg, len, ws, s.rs, env.junk, pending, RequestBytes(req));
        RequestRead(s.rs, env.junk, req);
        RequestArrives(req, []);
        assert Payload(req) + [] == Payload(req);
      } else {
        var ws', pending' := ReadsInstruction(env, len, s, ws, pending, RequestBytes(req));
      }
    } else if s.reader.Reading? {
      var answer := s.answered[|s.returned|].1;
      assert s.toWriter == ResponseBytes(req, answer) + [];
      AnswerArrives(req, answer, []);
    }
  }

  /** In every state a run can reach: neither end has failed an assertion; what the
      reader told, heard and observed is, in order, what the writer made, asked and
      performed, and what the writer got back is what the handlers answered; accesses
      act on the program's memory one after the other; and while the writer waits,
      somebody can go on. With no request open, both streams are used up but for
      records of the writer not read yet. */
  lemma SessionSafe<M>(env: Env<M>, len: u64 -> nat, m0: M, steps: seq<Step>, s: Session<M>)
    requires Run(env, len, Start(m0), steps, s)
    ensures !s.writer.WriterFailed? && !s.reader.ReaderFailed?
    ensures s.told <= s.made && s.heard <= s.asked && s.observed <= s.performed && s.returned <= s.answered
    ensures Replay(env, m0, AccessesOf(s.performed)) == (s.mem, s.performed)
    ensures s.writer.Waiting? ==> PagesOk(s.rs.pages) && CanMove(env, s)
    ensures s.reader.Handling? ==> s.toReader == [] && s.toWriter == [] && s.told == s.made && s.heard == s.asked
    ensures s.reader.Finished? ==>
      s.toReader == [] && s.told == s.made && s.heard == s.asked && s.returned == s.answered
  {
    hide Run, Next, Agreed, EachFaithful, AfterAll, PendingBytes, LE, CanMove, Replay, Possible;
    StartInv(env, len, m0);
    RunKeeps(env, len, m0, Start(m0), steps, s);
    var ws, pending :| Stands(env, len, s, ws, pending);
    if s.writer.Waiting? {
      WaitingMoves(env, len, s, ws, pending);
    }
    NothingPending(env.cfg, ws, pending);
  }

  /** Every call writes something. */
  lemma NothingPending(cfg: Config, ws: WriterState, pending: seq<Call>)
    requires Possible(cfg, pending)
    ensures pending != [] ==> PendingBytes(cfg, ws, pending) != []
  {
    hide LE, U64s, Code, StringField, PageRecords, MappingRecords, CodeRecords;
    if pending != [] {
      var c := pending[0];
      assert c in pending;
      assert |Bytes(cfg, ws, c)| > 0 by {
        if c.Execute? {
          assert |InstructionRecord(ws, c.inst)| > 0;
        }
      }
    }
  }

  // A request does not wait for ever.

  /** A step by which an end takes what has arrived: nobody's choice. */
  predicate Delivers(step: Step) {
    step.WriterTakes? || step.ReaderReads? || step.ReaderTakes?
  }

  /** How many such steps the choice of a program or of a handler gives rise to, itself
      counted. */
  function Causes(step: Step): nat {
    if Delivers(step) then 0 else if step.Want? then 3 else 2
  }

  function CausesAll(steps: seq<Step>): nat {
    if steps == [] then 0 else Causes(steps[0]) + CausesAll(steps[1..])
  }

  /** What is left of the record under way, besides the calls not read yet. */
  function UnderWay<M>(s: Session<M>): nat {
    if s.writer.Waiting? && s.reader.Awaiting? && s.toReader == [] then 2
    else if s.reader.Awaiting? || (s.reader.Reading? && !s.writer.Running?) then 1
    else 0
  }

  function Left<M>(s: Session<M>): int {
    |s.made| - |s.told| + UnderWay(s)
  }

  lemma {:induction false} ReadTells(rs: ReaderState, junk: u64 -> byte, input: seq<byte>)
    requires PagesOk(rs.pages)
    ensures Read(rs, junk, input).Return? ==> Read(rs, junk, input).events != []
    decreases |input|
  {
    hide ReadOther, TakeFields, TakeU64s, GetStatic, AfterStatic;
    if input != [] && input[0] == 0 {
      var header := TakeHeader(input);
      if header.Got? {
        var r := ReadOther(rs, junk, header.value, header.rest);
        if r.More? {
          assert PagesOk(r.rs.pages) && |r.rest| < |input|;
          ReadTells(r.rs, junk, r.rest);
        }
      }
    }
  }

  /** Each step brings the end of what is left nearer by one, but for what it causes. */
  lemma StepLeft<M>(env: Env<M>, s: Session<M>, step: Step, bytes: seq<byte>, bytes': seq<byte>)
    requires PagesOk(s.rs.pages) && (step.Make? ==> Callable(env.cfg, step.call))
    requires Next(env, s, step).To? && Phase(s, bytes) && Phase(Next(env, s, step).s, bytes')
    ensures Left(Next(env, s, step).s) + 1 <= Left(s) + Causes(step)
  {
    hide Next, Phase, Left, Causes;
    if step.ReaderReads? {
      ReadLeft(env, s, bytes, bytes');
    } else if step.WriterTakes? {
      WriterLeft(env, s, bytes, bytes');
    } else if step.ReaderTakes? {
      ReaderLeft(env, s, bytes, bytes');
    } else {
      ChoiceLeft(env, s, step, bytes);
    }
  }

  lemma ReadLeft<M>(env: Env<M>, s: Session<M>, bytes: seq<byte>, bytes': seq<byte>)
    requires PagesOk(s.rs.pages)
    requires Next(env, s, ReaderReads).To? && Phase(s, bytes) && Phase(Next(env, s, ReaderReads).s, bytes')
    ensures Left(Next(env, s, ReaderReads).s) + 1 <= Left(s) + Causes(ReaderReads)
  {
    hide LE, Read, ReceiveRequest, Payload;
    ReadTells(s.rs, env.junk, s.toReader);
  }

  lemma WriterLeft<M>(env: Env<M>, s: Session<M>, bytes: seq<byte>, bytes': seq<byte>)
    requires PagesOk(s.rs.pages)
    requires Next(env, s, WriterTakes).To? && Phase(s, bytes) && Phase(Next(env, s, WriterTakes).s, bytes')
    ensures Left(Next(env, s, WriterTakes).s) + 1 <= Left(s) + Causes(WriterTakes)
  {
    hide LE, ReceiveIncoming, Payload;
    NothingIncoming(s.writer.req);
  }

  lemma ReaderLeft<M>(env: Env<M>, s: Session<M>, bytes: seq<byte>, bytes': seq<byte>)
    requires PagesOk(s.rs.pages)
    requires Next(env, s, ReaderTakes).To? && Phase(s, bytes) && Phase(Next(env, s, ReaderTakes).s, bytes')
    ensures Left(Next(env, s, ReaderTakes).s) + 1 <= Left(s) + Causes(ReaderTakes)
  {
    hide LE, ReceiveReply, Payload;
    NothingArrives(s.reader.access);
  }

  lemma ChoiceLeft<M>(env: Env<M>, s: Session<M>, step: Step, bytes: seq<byte>)
    requires PagesOk(s.rs.pages) && (step.Make? ==> Callable(env.cfg, step.call)) && !Delivers(step)
    requires Next(env, s, step).To? && Phase(s, bytes)
    ensures Left(Next(env, s, step).s) + 1 <= Left(s) + Causes(step)
  {
    hide LE, Bytes, After, Payload;
  }

  lemma {:induction false} RunLeft<M>(env: Env<M>, len: u64 -> nat, m0: M, s: Session<M>, steps: seq<Step>,
                                      s': Session<M>)
    requires Inv(env, len, m0, s) && Run(env, len, s, steps, s')
    ensures |steps| + Left(s') <= Left(s) + CausesAll(steps)
    decreases |steps|
  {
    hide Stands, Next, Allowed, Left, Causes;
    if steps != [] {
      var s1 := Next(env, s, steps[0]).s;
      StepKeeps(env, len, m0, s, steps[0]);
      InvStepLeft(env, len, m0, s, steps[0]);
      RunLeft(env, len, m0, s1, steps[1..], s');
    }
  }

  lemma InvPhase<M>(env: Env<M>, len: u64 -> nat, m0: M, s: Session<M>) returns (bytes: seq<byte>)
    requires Inv(env, len, m0, s)
    ensures PagesOk(s.rs.pages) && Phase(s, bytes)
  {
    var ws, pending :| Stands(env, len, s, ws, pending);
    bytes := PendingBytes(env.cfg, ws, pending);
  }

  lemma InvStepLeft<M>(env: Env<M>, len: u64 -> nat, m0: M, s: Session<M>, step: Step)
    requires Inv(env, len, m0, s) && (step.Make? ==> Callable(env.cfg, step.call))
    requires Next(env, s, step).To? && Inv(env, len, m0, Next(env, s, step).s)
    ensures Left(Next(env, s, step).s) + 1 <= Left(s) + Causes(step)
  {
    hide Inv, Next, Left, Causes, Phase;
    var bytes := InvPhase(env, len, m0, s);
    var bytes' := InvPhase(env, len, m0, Next(env, s, step).s);
    StepLeft(env, s, step, bytes, bytes');
  }

  lemma LeftBounds<M>(env: Env<M>, len: u64 -> nat, m0: M, s: Session<M>)
    requires Inv(env, len, m0, s)
    ensures 0 <= Left(s) <= |s.made| - |s.told| + 2
  {
    var ws, pending :| Stands(env, len, s, ws, pending);
    assert |s.made| == |s.told| + |Events(env.cfg, pending)|;
  }

  /** In every run, from any state on: the steps that merely take what has arrived are
      bounded by the calls not read yet and by what is chosen meanwhile; so between two
      choices there are at most the calls not read yet, and two. */
  lemma DeliveryBounded<M>(env: Env<M>, len: u64 -> nat, m0: M, steps: seq<Step>, s: Session<M>, more: seq<Step>,
                           s': Session<M>)
    requires Run(env, len, Start(m0), steps, s) && Run(env, len, s, more, s')
    ensures |more| <= |s.made| - |s.told| + 2 + CausesAll(more)
    ensures (forall i :: 0 <= i < |more| ==> Delivers(more[i])) ==> |more| <= |s.made| - |s.told| + 2
  {
    hide Run, Inv, Left;
    StartInv(env, len, m0);
    RunKeeps(env, len, m0, Start(m0), steps, s);
    RunLeft(env, len, m0, s, more, s');
    RunKeeps(env, len, m0, s, more, s');
    LeftBounds(env, len, m0, s);
    LeftBounds(env, len, m0, s');
    if forall i :: 0 <= i < |more| ==> Delivers(more[i]) {
      CausesNothing(more);
    }
  }

  lemma {:induction false} CausesNothing(steps: seq<Step>)
    requires forall i :: 0 <= i < |steps| ==> Delivers(steps[i])
    ensures CausesAll(steps) == 0
    decreases |steps|
  {
    if steps != [] {
      CausesNothing(steps[1..]);
    }
  }

  /** A waiting writer is answered: once nothing that has arrived is left to take, a handler
      runs; and when it has replied, the one step possible gives the writer the answer. */
  lemma RequestServed<M>(env: Env<M>, len: u64 -> nat, m0: M, steps: seq<Step>, s: Session<M>)
    requires Run(env, len, Start(m0), steps, s) && s.writer.Waiting?
    ensures PagesOk(s.rs.pages)
    ensures (forall step :: Delivers(step) ==> !Next(env, s, step).To?) ==> s.reader == Handling(s.writer.req)
    ensures forall answer {:trigger Reply(answer)} :: Next(env, s, Reply(answer)).To? ==>
      var s1 := Next(env, s, Reply(answer)).s;
      PagesOk(s1.rs.pages)
      && !Next(env, s1, ReaderReads).To? && !Next(env, s1, ReaderTakes).To? && Next(env, s1, WriterTakes).To?
      && var s2 := Next(env, s1, WriterTakes).s;
         s2.writer == Running && s2.returned == s.returned + [(s.writer.req, answer)]
  {
    StartInv(env, len, m0);
    RunKeeps(env, len, m0, Start(m0), steps, s);
    var ws, pending :| Stands(env, len, s, ws, pending);
    WaitingMoves(env, len, s, ws, pending);
    ServedPhase(env, s, PendingBytes(env.cfg, ws, pending));
  }

  lemma ServedPhase<M>(env: Env<M>, s: Session<M>, bytes: seq<byte>)
    requires PagesOk(s.rs.pages) && s.writer.Waiting? && Phase(s, bytes) && CanMove(env, s)
    ensures (forall step :: Delivers(step) ==> !Next(env, s, step).To?) ==> s.reader == Handling(s.writer.req)
    ensures forall answer {:trigger Reply(answer)} :: Next(env, s, Reply(answer)).To? ==>
      var s1 := Next(env, s, Reply(answer)).s;
      PagesOk(s1.rs.pages)
      && !Next(env, s1, ReaderReads).To? && !Next(env, s1, ReaderTakes).To? && Next(env, s1, WriterTakes).To?
      && var s2 := Next(env, s1, WriterTakes).s;
         s2.writer == Running && s2.returned == s.returned + [(s.writer.req, answer)]
  {
    hide LE, ReceiveIncoming, ReceiveReply, ReceiveRequest;
    assert Delivers(WriterTakes) && Delivers(ReaderReads) && Delivers(ReaderTakes);
    forall answer | Next(env, s, Reply(answer)).To?
      ensures
        var s1 := Next(env, s, Reply(answer)).s;
        PagesOk(s1.rs.pages)
        && !Next(env, s1, ReaderReads).To? && !Next(env, s1, ReaderTakes).To? && Next(env, s1, WriterTakes).To?
        && var s2 := Next(env, s1, WriterTakes).s;
           s2.writer == Running && s2.returned == s.returned + [(s.writer.req, answer)]
    {
      var req := s.writer.req;
      assert ResponseBytes(req, answer) == ResponseBytes(req, answer) + [];
      assert [] + ResponseBytes(req, answer) == ResponseBytes(req, answer);
      AnswerArrives(req, answer, []);
      assert Read(s.rs, env.junk, []) == OutOfInput;
    }
  }
}
