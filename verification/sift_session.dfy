/** The two ends of a trace as one system: besides the calls of the codec the
    writer makes requests and waits; while the reader's handler works on one it may
    reach back into the writer's memory over the same two streams. */
module SiftSession {
  import opened SiftFormat
  import opened SiftWriterSpec
  import opened SiftReaderSpec
  import opened SiftRoundTrip
  import opened SiftTheorems

  type u16 = x: int | 0 <= x < 65536

  datatype Req =
    | Syscall(number: u16, data: seq<byte>)
    | NewThread
    | Join(thread: u32)
    | Sync
    | Magic(a: u64, b: u64, c: u64)
    | Emu(kind: u16, args: seq<byte>)

  /** Sizes of the unions of emulation arguments and results. */
  const EMU_ARGS: nat := 8
  const EMU_REPLY: nat := 24

  function RequestKind(r: Req): byte {
    match r
    case Syscall(_, _) => REC_SYSCALL_REQUEST
    case NewThread => REC_NEW_THREAD
    case Join(_) => REC_JOIN
    case Sync => REC_SYNC
    case Magic(_, _, _) => REC_MAGIC
    case Emu(_, _) => REC_EMU
  }

  function ResponseKind(r: Req): byte {
    match r
    case Syscall(_, _) => REC_SYSCALL_RESPONSE
    case NewThread => REC_NEW_THREAD_RESPONSE
    case Join(_) => REC_JOIN_RESPONSE
    case Sync => REC_SYNC_RESPONSE
    case Magic(_, _, _) => REC_MAGIC_RESPONSE
    case Emu(_, _) => REC_EMU_RESPONSE
  }

  /** An answer is the raw payload of a response, of this length. */
  function AnswerLength(r: Req): nat {
    match r
    case Syscall(_, _) => 8
    case NewThread => 4
    case Join(_) => 4
    case Sync => 0
    case Magic(_, _, _) => 8
    case Emu(_, _) => 1 + EMU_REPLY
  }

  /** The reader asserts that a system call has data; arguments of an emulation
      request fill their union. */
  predicate RequestOk(r: Req) {
    match r
    case Syscall(_, data) => 0 < |data| < TWO_32 - 2
    case Emu(_, args) => |args| == EMU_ARGS
    case _ => true
  }

  /** Handlers of these requests may access the writer's memory. */
  predicate MayAccess(r: Req) {
    r.Syscall? || r.Magic? || r.Emu?
  }

  function Payload(r: Req): seq<byte> {
    match r
    case Syscall(number, data) => LE(number, 2) + data
    case NewThread => []
    case Join(thread) => LE(thread, 4)
    case Sync => []
    case Magic(a, b, c) => LE(a, 8) + (LE(b, 8) + LE(c, 8))
    case Emu(kind, args) => LE(kind, 2) + args
  }

  function RequestBytes(r: Req): seq<byte> {
    OtherHeader(RequestKind(r), |Payload(r)|) + Payload(r)
  }

  function ResponseBytes(r: Req, answer: seq<byte>): seq<byte> {
    OtherHeader(ResponseKind(r), |answer|) + answer
  }

  /** A memory access asked for by a handler: data is what a write stores. */
  datatype Access = Access(write: bool, lock: u32, addr: u64, size: u32, data: seq<byte>)

  predicate AccessOk(a: Access) {
    0 < a.size < TWO_32 - 20 && |a.data| == if a.write then a.size else 0
  }

  function OpType(a: Access): u32 {
    if a.write then 2 else 1
  }

  function AccessBytes(a: Access): seq<byte> {
    OtherHeader(REC_MEMORY_REQUEST, 20 + |a.data|)
    + (LE(a.addr, 8) + (LE(a.size, 4) + (LE(a.lock, 4) + (LE(OpType(a), 4) + a.data))))
  }

  function ReplyBytes(a: Access, result: seq<byte>): seq<byte> {
    OtherHeader(REC_MEMORY_RESPONSE, 12 + |result|) + (LE(a.addr, 8) + (LE(OpType(a), 4) + result))
  }

  // Each end's view of what arrives.

  /** What receiving gives: a value and the bytes left, a failed assertion, or too
      little to go on yet. */
  datatype Received<T> = Arrived(value: T, rest: seq<byte>) | Wrong | Blocked

  /** The request behind a header the reader has just taken. */
  function ReceiveRequest(kind: byte, size: u32, input: seq<byte>): Received<Req>
    requires IsRequest(kind)
  {
    if kind == REC_SYSCALL_REQUEST then
      if size <= 2 then Wrong
      else match TakeField(input, 2)
        case Short => Blocked
        case Got(n, r1) =>
          (Widths();
           match TakeBytes(r1, size - 2)
           case Short => Blocked
           case Got(data, r2) => Arrived(Syscall(n, data), r2))
    else if kind == REC_NEW_THREAD then
      if size == 0 then Arrived(NewThread, input) else Wrong
    else if kind == REC_JOIN then
      if size != 4 then Wrong
      else match TakeU32(input)
        case Short => Blocked
        case Got(thread, r1) => Arrived(Join(thread), r1)
    else if kind == REC_SYNC then
      if size == 0 then Arrived(Sync, input) else Wrong
    else if kind == REC_MAGIC then
      if size != 24 then Wrong
      else match TakeU64s(input, 3)
        case Short => Blocked
        case Got(xs, r1) => Arrived(Magic(xs[0], xs[1], xs[2]), r1)
    else
      if size > 2 + EMU_ARGS then Wrong
      else match TakeField(input, 2)
        case Short => Blocked
        case Got(n, r1) =>
          (Widths();
           // A size under 2 makes the count of argument bytes wrap around.
           match TakeBytes(r1, if size < 2 then TWO_64 + size - 2 else size - 2)
           case Short => Blocked
           case Got(args, r2) => Arrived(Emu(n, args), r2))
  }

  /** What a waiting writer finds: the answer, or an access to perform. */
  datatype Incoming = Answer(bytes: seq<byte>) | Serve(access: Access)

  function ReceiveAccess(size: u32, input: seq<byte>): Received<Incoming> {
    if size < 20 then Wrong
    else match TakeU64(input)
      case Short => Blocked
      case Got(addr, r1) =>
        match TakeU32(r1)
        case Short => Blocked
        case Got(n, r2) =>
          match TakeU32(r2)
          case Short => Blocked
          case Got(lock, r3) =>
            match TakeU32(r3)
            case Short => Blocked
            case Got(op, r4) =>
              if op == 1 then
                if size - 20 == 0 && n > 0 then Arrived(Serve(Access(false, lock, addr, n, [])), r4) else Wrong
              else if op == 2 then
                if size - 20 > 0 && size - 20 == n then
                  match TakeBytes(r4, n)
                  case Short => Blocked
                  case Got(data, r5) => Arrived(Serve(Access(true, lock, addr, n, data)), r5)
                else Wrong
              else Wrong
  }

  /** A record of some third kind is an error, except that a writer waiting for a
      system call ignores its header. */
  function ReceiveIncoming(r: Req, input: seq<byte>): Received<Incoming>
    decreases |input|
  {
    match TakeHeader(input)
    case Short => Blocked
    case Got(h, rest) =>
      if input[0] != 0 then Wrong
      else if h.kind == ResponseKind(r) then
        if (if r.Emu? then 1 <= h.size <= AnswerLength(r) else h.size == AnswerLength(r)) then
          match TakeBytes(rest, h.size)
          case Short => Blocked
          case Got(bytes, rest') => Arrived(Answer(bytes), rest')
        else Wrong
      else if h.kind == REC_MEMORY_REQUEST && MayAccess(r) then ReceiveAccess(h.size, rest)
      else if r.Syscall? then ReceiveIncoming(r, rest)
      else Wrong
  }

  /** What the reader finds when it waits for the outcome of an access. */
  function ReceiveReply(a: Access, input: seq<byte>): Received<seq<byte>> {
    match TakeHeader(input)
    case Short => Blocked
    case Got(h, r1) =>
      if h.kind != REC_MEMORY_RESPONSE then Wrong
      else match TakeU64(r1)
        case Short => Blocked
        case Got(addr, r2) =>
          match TakeU32(r2)
          case Short => Blocked
          case Got(_, r3) =>
            if addr != a.addr || h.size < 12 || h.size - 12 != (if a.write then 0 else a.size) then Wrong
            else match TakeBytes(r3, h.size - 12)
              case Short => Blocked
              case Got(data, r4) => Arrived(data, r4)
  }

  // Every record arrives as it was sent, and nothing beyond it is touched.

  lemma RequestArrives(r: Req, rest: seq<byte>)
    requires RequestOk(r)
    ensures ReceiveRequest(RequestKind(r), |Payload(r)|, Payload(r) + rest) == Arrived(r, rest)
  {
    hide LE, TakeField, TakeU32, TakeU64;
    Widths();
    match r
    case Syscall(number, data) =>
      assert Payload(r) + rest == LE(number, 2) + (data + rest);
      TakeFieldBack(number, 2, data + rest);
      TakeBytesBack(data, rest);
    case NewThread =>
    case Join(thread) => TakeU32Back(thread, rest);
    case Sync =>
    case Magic(a, b, c) => MagicArrives(a, b, c, rest);
    case Emu(kind, args) =>
      assert Payload(r) + rest == LE(kind, 2) + (args + rest);
      TakeFieldBack(kind, 2, args + rest);
      TakeBytesBack(args, rest);
  }

  lemma MagicArrives(a: u64, b: u64, c: u64, rest: seq<byte>)
    ensures TakeU64s(Payload(Magic(a, b, c)) + rest, 3) == Got([a, b, c], rest)
  {
    hide LE, TakeU64;
    assert [a, b, c][1..] == [b, c] && [b, c][1..] == [c] && [c][1..] == [];
    assert U64s([c]) == LE(c, 8);
    assert U64s([b, c]) == LE(b, 8) + LE(c, 8);
    assert U64s([a, b, c]) == Payload(Magic(a, b, c));
    TakeU64sBack([a, b, c], rest);
  }

  lemma AnswerArrives(r: Req, answer: seq<byte>, rest: seq<byte>)
    requires |answer| == AnswerLength(r)
    ensures ReceiveIncoming(r, ResponseBytes(r, answer) + rest) == Arrived(Answer(answer), rest)
  {
    hide LE, ReceiveAccess;
    assert ResponseBytes(r, answer) + rest == OtherHeader(ResponseKind(r), |answer|) + (answer + rest);
    TakeHeaderBack(ResponseKind(r), |answer|, answer + rest);
    TakeBytesBack(answer, rest);
  }

  lemma AccessFields(a: Access, rest: seq<byte>)
    requires AccessOk(a)
    ensures ReceiveAccess(20 + |a.data|,
                          LE(a.addr, 8) + (LE(a.size, 4) + (LE(a.lock, 4) + (LE(OpType(a), 4) + (a.data + rest)))))
         == Arrived(Serve(a), rest)
  {
    hide LE, TakeU32, TakeU64;
    var r4 := a.data + rest;
    var r3 := LE(OpType(a), 4) + r4;
    var r2 := LE(a.lock, 4) + r3;
    var r1 := LE(a.size, 4) + r2;
    TakeU64Back(a.addr, r1);
    TakeU32Back(a.size, r2);
    TakeU32Back(a.lock, r3);
    TakeU32Back(OpType(a), r4);
    TakeBytesBack(a.data, rest);
    if !a.write {
      assert r4 == rest;
    }
  }

  lemma AccessArrives(r: Req, a: Access, rest: seq<byte>)
    requires AccessOk(a) && MayAccess(r)
    ensures ReceiveIncoming(r, AccessBytes(a) + rest) == Arrived(Serve(a), rest)
  {
    hide LE, ReceiveAccess;
    var body := LE(a.addr, 8) + (LE(a.size, 4) + (LE(a.lock, 4) + (LE(OpType(a), 4) + (a.data + rest))));
    assert AccessBytes(a) + rest == OtherHeader(REC_MEMORY_REQUEST, 20 + |a.data|) + body;
    TakeHeaderBack(REC_MEMORY_REQUEST, 20 + |a.data|, body);
    AccessFields(a, rest);
  }

  lemma ReplyArrives(a: Access, result: seq<byte>, rest: seq<byte>)
    requires AccessOk(a) && |result| == if a.write then 0 else a.size
    ensures ReceiveReply(a, ReplyBytes(a, result) + rest) == Arrived(result, rest)
  {
    hide LE, TakeU32, TakeU64, TakeHeader;
    var r2 := LE(OpType(a), 4) + (result + rest);
    var r1 := LE(a.addr, 8) + r2;
    assert ReplyBytes(a, result) + rest == OtherHeader(REC_MEMORY_RESPONSE, 12 + |result|) + r1;
    TakeHeaderBack(REC_MEMORY_RESPONSE, 12 + |result|, r1);
    TakeU64Back(a.addr, r2);
    TakeU32Back(OpType(a), result + rest);
    TakeBytesBack(result, rest);
  }
}
