/** What the trace reader makes of the bytes it finds, as a function of the state
    it keeps between instructions. */
module SiftReaderSpec {
  import opened Numbers
  import opened Options
  import opened SiftFormat
  import opened SiftWriterSpec

  datatype StaticInstruction = StaticInstruction(addr: u64, size: nat, data: seq<byte>)

  /** The static part of an instruction with its dynamic addresses and flags. */
  datatype Dynamic = Dynamic(sinst: StaticInstruction, addresses: seq<u64>, isBranch: bool, taken: bool,
                             isPredicate: bool, executed: bool)

  /** What the reader hands to its callbacks, and the instructions it returns. */
  datatype Event =
    | Executed(inst: Dynamic)
    | Printed(fd: byte, data: seq<byte>)
    | Changed(eip: u64, esp: u64, event: byte)
    | Announced(eip: u64, name: seq<byte>, imgname: seq<byte>, offset: u64, line: u32, column: u32, filename: seq<byte>)

  type Pages = map<u64, seq<byte>>

  ghost predicate PagesOk(pages: Pages) {
    forall p :: p in pages ==> |pages[p]| == PAGE
  }

  /** Static instructions are kept by address; nextOf gives for the address of one
      the address of its probable successor. */
  datatype ReaderState = ReaderState(last: u64, pages: Pages, physical: map<u64, u64>,
                                     scache: map<u64, StaticInstruction>, nextOf: map<u64, u64>, lastInst: Option<u64>)

  const FRESH: ReaderState := ReaderState(0, map[], map[], map[], map[], None)

  /** A page that was allocated and not yet filled; junk says what it holds. */
  function NewPage(junk: u64 -> byte, base: u64): (p: seq<byte>)
    ensures |p| == PAGE
  {
    seq<byte>(PAGE, i requires 0 <= i < PAGE => junk(Plus(base, i)))
  }

  function PageAt(pages: Pages, junk: u64 -> byte, base: u64): (p: seq<byte>)
    requires PagesOk(pages)
    ensures |p| == PAGE
  {
    if base in pages then pages[base] else NewPage(junk, base)
  }

  /** Bytes of code that start at any address, spread over the pages they fall on. */
  function Store(pages: Pages, junk: u64 -> byte, a: u64, bytes: seq<byte>): (r: Pages)
    requires PagesOk(pages)
    ensures PagesOk(r)
    decreases |bytes|
  {
    if bytes == [] then pages
    else
      var base, offset := PageOf(a), a % PAGE;
      var n := Min(|bytes|, PAGE - offset);
      var page := PageAt(pages, junk, base);
      Store(pages[base := page[..offset] + bytes[..n] + page[offset + n..]], junk, Plus(base, PAGE), bytes[n..])
  }

  /** The code bytes of an instruction, or None when a page is missing. */
  function Fetch(pages: Pages, a: u64, size: nat): (r: Option<seq<byte>>)
    requires PagesOk(pages)
    ensures r.Some? ==> |r.value| == size
    decreases size
  {
    if size == 0 then Some([])
    else
      var base, offset := PageOf(a), a % PAGE;
      if base !in pages then None
      else
        var n := Min(size, PAGE - offset);
        match Fetch(pages, Plus(base, PAGE), size - n)
        case None => None
        case Some(more) => Some(pages[base][offset..offset + n] + more)
  }

  datatype Lookup = Found(sinst: StaticInstruction) | Missing | WrongSize

  /** Through the successor of the instruction read last, through the cache, or by
      decoding. Only the way through the cache compares sizes. */
  function GetStatic(rs: ReaderState, a: u64, size: nat): Lookup
    requires PagesOk(rs.pages)
  {
    if rs.lastInst.Some? && rs.lastInst.value in rs.nextOf && rs.nextOf[rs.lastInst.value] == a && a in rs.scache then
      Found(rs.scache[a])
    else if a in rs.scache then
      if rs.scache[a].size == size then Found(rs.scache[a]) else WrongSize
    else match Fetch(rs.pages, a, size)
      case None => Missing
      case Some(data) => Found(StaticInstruction(a, size, data))
  }

  function AfterStatic(rs: ReaderState, sinst: StaticInstruction): ReaderState {
    rs.(scache := if sinst.addr in rs.scache then rs.scache else rs.scache[sinst.addr := sinst],
        nextOf := if rs.lastInst.Some? && rs.lastInst.value !in rs.nextOf
                  then rs.nextOf[rs.lastInst.value := sinst.addr] else rs.nextOf,
        lastInst := Some(sinst.addr))
  }

  /** One record that is not an instruction: the reader goes on, or Read comes back. */
  datatype Other =
    | More(rs: ReaderState, events: seq<Event>, rest: seq<byte>)
    | Ended(rest: seq<byte>)
    | Request(kind: byte, size: u32, rest: seq<byte>)
    | Failed
    | Truncated

  predicate IsRequest(kind: byte) {
    kind in {REC_SYSCALL_REQUEST, REC_NEW_THREAD, REC_JOIN, REC_SYNC, REC_MAGIC, REC_EMU}
  }

  function ReadPage(rs: ReaderState, input: seq<byte>): (r: Parsed<ReaderState>)
    requires PagesOk(rs.pages)
    ensures r.Got? ==> PagesOk(r.value.pages) && |r.rest| <= |input|
  {
    var (a, r1) :- TakeU64(input);
    var (bytes, r2) :- TakeBytes(r1, PAGE);
    Got(rs.(pages := rs.pages[a := bytes]), r2)
  }

  function ReadVariable(rs: ReaderState, junk: u64 -> byte, size: u32, input: seq<byte>): (r: Parsed<ReaderState>)
    requires PagesOk(rs.pages)
    ensures r.Got? ==> PagesOk(r.value.pages) && |r.rest| <= |input|
  {
    var (a, r1) :- TakeU64(input);
    // A size field under 8 makes the count of bytes left wrap around.
    var (bytes, r2) :- TakeBytes(r1, if size < 8 then TWO_64 + size - 8 else size - 8);
    Got(rs.(pages := Store(rs.pages, junk, a, bytes)), r2)
  }

  function ReadMapping(rs: ReaderState, input: seq<byte>): (r: Parsed<ReaderState>)
    ensures r.Got? ==> r.value.pages == rs.pages && |r.rest| <= |input|
  {
    var (vp, r1) :- TakeU64(input);
    var (pp, r2) :- TakeU64(r1);
    Got(rs.(physical := rs.physical[vp := pp]), r2)
  }

  function ReadOutput(size: nat, input: seq<byte>): (r: Parsed<Event>)
    requires size > 1
    ensures r.Got? ==> |r.rest| <= |input|
  {
    var (fd, r1) :- TakeBytes(input, 1);
    var (data, r2) :- TakeBytes(r1, size - 1);
    Got(Printed(fd[0], data), r2)
  }

  function ReadChange(input: seq<byte>): (r: Parsed<Event>)
    ensures r.Got? ==> |r.rest| <= |input|
  {
    var (eip, r1) :- TakeU64(input);
    var (esp, r2) :- TakeU64(r1);
    var (event, r3) :- TakeBytes(r2, 1);
    Got(Changed(eip, esp, event[0]), r3)
  }

  function ReadString(input: seq<byte>): (r: Parsed<seq<byte>>)
    ensures r.Got? ==> |r.rest| <= |input|
  {
    var (n, r1) :- TakeField(input, 2);
    TakeBytes(r1, n)
  }

  function ReadAnnounce(input: seq<byte>): (r: Parsed<Event>)
    ensures r.Got? ==> |r.rest| <= |input|
  {
    var (eip, r1) :- TakeU64(input);
    var (name, r2) :- ReadString(r1);
    var (imgname, r3) :- ReadString(r2);
    var (offset, r4) :- TakeU64(r3);
    var (line, r5) :- TakeU32(r4);
    var (column, r6) :- TakeU32(r5);
    var (filename, r7) :- ReadString(r6);
    Got(Announced(eip, name, imgname, offset, line, column, filename), r7)
  }

  function Silent(p: Parsed<ReaderState>): Other {
    match p
    case Got(rs, rest) => More(rs, [], rest)
    case Short => Truncated
  }

  function Tell(rs: ReaderState, p: Parsed<Event>): Other {
    match p
    case Got(e, rest) => More(rs, [e], rest)
    case Short => Truncated
  }

  function ReadOther(rs: ReaderState, junk: u64 -> byte, h: Header, input: seq<byte>): (r: Other)
    requires PagesOk(rs.pages)
    ensures r.More? ==> PagesOk(r.rs.pages) && |r.rest| <= |input|
    ensures r.Request? ==> IsRequest(r.kind)
  {
    if h.kind == REC_END then
      if h.size == 0 then Ended(input) else Failed
    else if h.kind == REC_ICACHE then
      if h.size == 8 + PAGE then Silent(ReadPage(rs, input)) else Failed
    else if h.kind == REC_ICACHE_VARIABLE then Silent(ReadVariable(rs, junk, h.size, input))
    else if h.kind == REC_LOGICAL2PHYSICAL then
      if h.size == 16 then Silent(ReadMapping(rs, input)) else Failed
    else if h.kind == REC_OUTPUT then
      if h.size > 1 then Tell(rs, ReadOutput(h.size, input)) else Failed
    else if h.kind == REC_ROUTINE_CHANGE then
      if h.size == 17 then Tell(rs, ReadChange(input)) else Failed
    else if h.kind == REC_ROUTINE_ANNOUNCE then Tell(rs, ReadAnnounce(input))
    else if IsRequest(h.kind) then Request(h.kind, h.size, input)
    else match TakeBytes(input, h.size)
      case Got(_, rest) => More(rs, [], rest)
      case Short => Truncated
  }

  /** The fields of an instruction record, its address worked out. */
  datatype Fields = Fields(addr: u64, size: nat, flags: Flags)

  function TakeFields(rs: ReaderState, input: seq<byte>): (r: Parsed<Fields>)
    requires input != [] && input[0] != 0
    ensures r.Got? ==> 0 < r.value.size < 16 && r.value.flags.addresses < 4
  {
    if input[0] % 16 != 0 then
      Got(Fields(rs.last, input[0] % 16, SimpleFlags(input[0])), input[1..])
    else if |input| < 2 then Short
    else
      var (a, rest) :- TakeU64(input[2..]);
      Got(Fields(a, input[0] / 16, ExtFlags(input[1])), rest)
  }

  /** What one call of Read comes to: the events told on the way, and how it returns. */
  datatype Outcome =
    | Return(rs: ReaderState, events: seq<Event>, rest: seq<byte>)
    | AtEnd(events: seq<Event>, rest: seq<byte>)
    | AtRequest(rs: ReaderState, events: seq<Event>, kind: byte, size: u32, rest: seq<byte>)
    | Aborted
    | OutOfInput

  function Prefixed(events: seq<Event>, o: Outcome): Outcome {
    match o
    case Return(rs, more, rest) => Return(rs, events + more, rest)
    case AtEnd(more, rest) => AtEnd(events + more, rest)
    case AtRequest(rs, more, kind, size, rest) => AtRequest(rs, events + more, kind, size, rest)
    case Aborted => Aborted
    case OutOfInput => OutOfInput
  }

  lemma PrefixedTwice(e1: seq<Event>, e2: seq<Event>, o: Outcome)
    ensures Prefixed(e1, Prefixed(e2, o)) == Prefixed(e1 + e2, o)
  {
    if o.Return? || o.AtEnd? || o.AtRequest? {
      assert e1 + (e2 + o.events) == e1 + e2 + o.events;
    }
  }

  lemma PrefixedNothing(o: Outcome)
    ensures Prefixed([], o) == o
  {
    if o.Return? || o.AtEnd? || o.AtRequest? {
      assert [] + o.events == o.events;
    }
  }

  /** An instruction record. More than two addresses overrun the reader's buffer;
      the writer never sends them. */
  function ReadInstruction(rs: ReaderState, input: seq<byte>): Outcome
    requires PagesOk(rs.pages) && input != [] && input[0] != 0
  {
    match TakeFields(rs, input)
    case Short => OutOfInput
    case Got(f, r1) =>
      match TakeU64s(r1, f.flags.addresses)
      case Short => OutOfInput
      case Got(addresses, r2) =>
        match GetStatic(rs, f.addr, f.size)
        case Missing => Aborted
        case WrongSize => Aborted
        case Found(sinst) =>
          Return(AfterStatic(rs.(last := Plus(f.addr, f.size)), sinst),
                 [Executed(Dynamic(sinst, addresses, f.flags.isBranch, f.flags.taken, f.flags.isPredicate,
                                   f.flags.executed))],
                 r2)
  }

  function Read(rs: ReaderState, junk: u64 -> byte, input: seq<byte>): (o: Outcome)
    requires PagesOk(rs.pages)
    ensures o.Return? ==> PagesOk(o.rs.pages) && |o.rest| < |input|
    ensures o.AtRequest? ==> PagesOk(o.rs.pages) && IsRequest(o.kind)
    decreases |input|
  {
    if input == [] then OutOfInput
    else if input[0] != 0 then ReadInstruction(rs, input)
    else match TakeHeader(input)
      case Short => OutOfInput
      case Got(h, r1) =>
        match ReadOther(rs, junk, h, r1)
        case More(rs', events, rest) => Prefixed(events, Read(rs', junk, rest))
        case Ended(rest) => AtEnd([], rest)
        case Request(kind, size, rest) => AtRequest(rs, [], kind, size, rest)
        case Failed => Aborted
        case Truncated => OutOfInput
  }

  /** The events of a whole trace, in order. */
  datatype Trace = Complete(events: seq<Event>) | Broken

  function ReadAll(rs: ReaderState, junk: u64 -> byte, input: seq<byte>): Trace
    requires PagesOk(rs.pages)
    decreases |input|
  {
    match Read(rs, junk, input)
    case Return(rs', events, rest) =>
      (match ReadAll(rs', junk, rest)
       case Complete(more) => Complete(events + more)
       case Broken => Broken)
    case AtEnd(events, _) => Complete(events)
    case _ => Broken
  }
}
