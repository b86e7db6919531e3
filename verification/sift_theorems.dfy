/** The trace codec as a whole: when one call survives the trip, and that a whole
    run of calls comes back as it was made. */
module SiftTheorems {
  import opened Options
  import opened SiftFormat
  import opened SiftWriterSpec
  import opened SiftReaderSpec
  import opened SiftRoundTrip

  /** InSync, and in variable mode code was sent for every cached instruction. */
  ghost predicate Agreed(cfg: Config, len: u64 -> nat, ws: WriterState, rs: ReaderState) {
    && InSync(cfg, len, ws, rs)
    && (cfg.variable ==> rs.scache.Keys <= ws.sent)
  }

  lemma StartAgreed(cfg: Config, len: u64 -> nat)
    ensures Agreed(cfg, len, INITIAL, FRESH)
  {
    assert AllPages(cfg, {}) == map[];
    assert AllMapped(cfg, {}) == map[];
  }

  lemma PageKnown(cfg: Config, sent: set<u64>, x: u64)
    requires PageOf(x) in sent
    ensures Known(cfg, AllPages(cfg, sent), x)
  {
    assert Plus(PageOf(x), x % PAGE) == x;
  }

  lemma PagesKnown(cfg: Config, sent: set<u64>, inst: Instruction)
    requires 0 < inst.size < 16 && inst.addr + inst.size <= TOP_PAGE
    requires PagesFrom(PageOf(inst.addr), LastPage(inst)) <= sent
    ensures KnownRange(cfg, AllPages(cfg, sent), inst.addr, inst.size)
  {
    hide Known, AllPages, Plus, PageOf;
    forall i | 0 <= i < inst.size
      ensures Known(cfg, AllPages(cfg, sent), Plus(inst.addr, i))
    {
      ByteOnPage(inst, i);
      PageKnown(cfg, sent, Plus(inst.addr, i));
    }
  }

  lemma ByteOnPage(inst: Instruction, i: nat)
    requires 0 < inst.size < 16 && inst.addr + inst.size <= TOP_PAGE && i < inst.size
    ensures PageOf(inst.addr) % PAGE == 0 && LastPage(inst) % PAGE == 0 && LastPage(inst) < TOP_PAGE
    ensures PageOf(Plus(inst.addr, i)) in PagesFrom(PageOf(inst.addr), LastPage(inst))
  {
    hide PagesFrom;
    var x := inst.addr + i;
    assert Plus(inst.addr, i) == x && Plus(inst.addr, inst.size - 1) == inst.addr + inst.size - 1;
    PagesFromIs(PageOf(inst.addr), LastPage(inst), PageOf(x));
  }

  /** The code records that go before an instruction bring the reader the code. */
  lemma CodeArrives(cfg: Config, len: u64 -> nat, ws: WriterState, rs: ReaderState, junk: u64 -> byte,
                    inst: Instruction, rest: seq<byte>) returns (pages: Pages)
    requires InSync(cfg, len, ws, rs) && Accepted(inst) && Terminates(cfg, inst)
    requires cfg.variable && inst.addr !in ws.sent ==> len(inst.addr) == inst.size
    ensures PagesOk(pages) && CodeInSync(cfg, len, SentAfter(cfg, ws, inst), pages)
    ensures Read(rs, junk, CodeRecords(cfg, ws, inst) + rest) == Read(rs.(pages := pages), junk, rest)
    ensures len(inst.addr) == inst.size && inst.size > 0 && BelowTop(cfg, inst) ==>
      KnownRange(cfg, pages, inst.addr, inst.size)
  {
    hide Read, Known, AllMapped, CacheInSync, Store;
    if !cfg.variable {
      var base, last := PageOf(inst.addr), LastPage(inst);
      pages := AllPages(cfg, SentAfter(cfg, ws, inst));
      PagesRead(cfg, rs, junk, base, last, ws.sent, rest);
      forall p | p in PagesFrom(base, last)
        ensures p % PAGE == 0 && p < TOP_PAGE
      {
        PagesFromIs(base, last, p);
      }
      if inst.size > 0 && BelowTop(cfg, inst) {
        PagesKnown(cfg, SentAfter(cfg, ws, inst), inst);
      }
    } else if inst.addr in ws.sent {
      pages := rs.pages;
      assert CodeRecords(cfg, ws, inst) + rest == rest;
      assert ws.sent + {inst.addr} == ws.sent;
    } else {
      pages := Store(rs.pages, junk, inst.addr, Code(cfg, inst.addr, inst.size));
      VariableBack(cfg, rs, junk, inst.addr, inst.size, rest);
      StoreKnown(cfg, rs.pages, junk, inst.addr, inst.size);
      forall a | a in ws.sent
        ensures KnownRange(cfg, pages, a, len(a))
      {
        GrowsTrans(cfg, rs.pages, rs.pages, pages, a, len(a));
      }
    }
  }

  /** All that goes before the instruction record itself. */
  lemma PreludeArrives(cfg: Config, len: u64 -> nat, ws: WriterState, rs: ReaderState, junk: u64 -> byte,
                       inst: Instruction, rest: seq<byte>) returns (rs': ReaderState)
    requires InSync(cfg, len, ws, rs) && Accepted(inst) && Terminates(cfg, inst)
    requires cfg.variable && inst.addr !in ws.sent ==> len(inst.addr) == inst.size
    ensures InSync(cfg, len, After(cfg, ws, Execute(inst)).(last := ws.last), rs')
    ensures rs' == rs.(pages := rs'.pages, physical := rs'.physical)
    ensures Read(rs, junk, Bytes(cfg, ws, Execute(inst)) + rest)
         == Read(rs', junk, InstructionRecord(ws, inst) + rest)
    ensures len(inst.addr) == inst.size && inst.size > 0 && BelowTop(cfg, inst) ==>
      KnownRange(cfg, rs'.pages, inst.addr, inst.size)
  {
    hide Read, Known, CodeInSync, KnownRange;
    var vas := [inst.addr] + inst.addresses;
    var after := InstructionRecord(ws, inst) + rest;
    var middle := MappingRecords(cfg, vas, ws.mapped) + after;
    var pages := CodeArrives(cfg, len, ws, rs, junk, inst, middle);
    assert Bytes(cfg, ws, Execute(inst)) + rest == CodeRecords(cfg, ws, inst) + middle;
    MappingsRead(cfg, rs.(pages := pages), junk, vas, ws.mapped, after);
    rs' := rs.(pages := pages, physical := AllMapped(cfg, MappedAfter(cfg, vas, ws.mapped)));
  }

  /** Through the successor pointer, the cache or a decode: the static instruction
      found is the one in the traced program. */
  lemma StaticFound(cfg: Config, len: u64 -> nat, rs: ReaderState, a: u64, size: nat)
    requires PagesOk(rs.pages) && CacheInSync(cfg, len, rs)
    requires size == len(a) && size > 0 && (cfg.variable || a < TOP_PAGE)
    requires KnownRange(cfg, rs.pages, a, size)
    ensures GetStatic(rs, a, size) == Found(StaticInstruction(a, size, Code(cfg, a, size)))
    ensures CacheInSync(cfg, len, AfterStatic(rs, StaticInstruction(a, size, Code(cfg, a, size))))
  {
    FetchKnown(cfg, rs.pages, a, size);
  }

  /** How the record of an instruction reads, given what is known of its static part. */
  lemma InstructionRead(ws: WriterState, rs: ReaderState, junk: u64 -> byte, inst: Instruction, rest: seq<byte>)
    requires PagesOk(rs.pages) && Accepted(inst) && inst.size > 0 && rs.last == ws.last
    ensures
      var found := GetStatic(rs, inst.addr, inst.size);
      Read(rs, junk, InstructionRecord(ws, inst) + rest) ==
      if found.Found? then
        Return(AfterStatic(rs.(last := Plus(inst.addr, inst.size)), found.sinst),
               [Executed(Dynamic(found.sinst, inst.addresses, inst.isBranch, inst.taken, inst.isPredicate,
                                 inst.executed || Simple(ws, inst)))],
               rest)
      else Aborted
  {
    hide InstructionRecord, TakeFields, GetStatic, AfterStatic, ReadOther;
    FieldsBack(ws, rs, inst, rest);
    TakeU64sBack(inst.addresses, rest);
  }

  lemma ExecuteBack(cfg: Config, len: u64 -> nat, ws: WriterState, rs: ReaderState, junk: u64 -> byte,
                    inst: Instruction, rest: seq<byte>) returns (rs': ReaderState)
    requires Agreed(cfg, len, ws, rs) && Accepted(inst) && Terminates(cfg, inst)
    requires inst.size == len(inst.addr) && inst.size > 0 && BelowTop(cfg, inst)
    ensures Agreed(cfg, len, After(cfg, ws, Execute(inst)), rs')
    ensures rs'.scache.Keys == rs.scache.Keys + {inst.addr}
    ensures Read(rs, junk, Bytes(cfg, ws, Execute(inst)) + rest)
         == Return(rs', [Executed(Expected(cfg, inst).(executed := inst.executed || Simple(ws, inst)))], rest)
  {
    hide Known, CodeInSync, KnownRange, CacheInSync, GetStatic, AfterStatic, Read, MappedAfter, SentAfter;
    var mid := PreludeArrives(cfg, len, ws, rs, junk, inst, rest);
    InstructionRead(ws, mid, junk, inst, rest);
    var mid' := mid.(last := Plus(inst.addr, inst.size));
    SameCache(cfg, len, mid, mid');
    StaticFound(cfg, len, mid, inst.addr, inst.size);
    StaticFound(cfg, len, mid', inst.addr, inst.size);
    var sinst := StaticInstruction(inst.addr, inst.size, Code(cfg, inst.addr, inst.size));
    rs' := AfterStatic(mid', sinst);
    AfterStaticKeeps(cfg, ws, mid', inst, sinst);
  }

  lemma SameCache(cfg: Config, len: u64 -> nat, rs: ReaderState, rs': ReaderState)
    requires CacheInSync(cfg, len, rs)
    requires rs' == rs.(last := rs'.last)
    ensures CacheInSync(cfg, len, rs')
  {
  }

  lemma AfterStaticKeeps(cfg: Config, ws: WriterState, rs: ReaderState, inst: Instruction, sinst: StaticInstruction)
    requires Terminates(cfg, inst) && sinst.addr == inst.addr
    ensures var after := AfterStatic(rs, sinst);
      after == rs.(scache := after.scache, nextOf := after.nextOf, lastInst := Some(sinst.addr))
    ensures AfterStatic(rs, sinst).scache.Keys == rs.scache.Keys + {inst.addr}
    ensures cfg.variable ==> SentAfter(cfg, ws, inst) == ws.sent + {inst.addr}
  {
  }

  // When a call survives.

  /** The conditions a caller can check before making the call. */
  predicate Faithful(cfg: Config, ws: WriterState, c: Call) {
    match c
    case Execute(inst) =>
      inst.size > 0 && BelowTop(cfg, inst) && (inst.executed || inst.isPredicate || inst.addr != ws.last)
    case Output(_, data) => 0 < |data| < TWO_32 - 1
    case RoutineChange(_, _, _) => true
    case RoutineAnnounce(_, name, imgname, _, _, _, filename) =>
      |name| < 65535 && |imgname| < 65535 && |filename| < 65535
  }

  /** The length with which each address was executed so far. */
  type Sizes = map<u64, nat>

  /** The address was not executed before, or with the same length. */
  predicate SameSize(sizes: Sizes, c: Call) {
    c.Execute? && c.inst.addr in sizes ==> sizes[c.inst.addr] == c.inst.size
  }

  function SizesAfter(sizes: Sizes, c: Call): Sizes {
    if c.Execute? then sizes[c.inst.addr := c.inst.size] else sizes
  }

  /** No address is executed with two lengths. */
  predicate SameSizes(sizes: Sizes, calls: seq<Call>)
    decreases |calls|
  {
    calls == [] || (SameSize(sizes, calls[0]) && SameSizes(SizesAfter(sizes, calls[0]), calls[1..]))
  }

  predicate EachFaithful(cfg: Config, ws: WriterState, calls: seq<Call>)
    requires forall c :: c in calls ==> Callable(cfg, c)
    decreases |calls|
  {
    calls == [] || (Faithful(cfg, ws, calls[0]) && EachFaithful(cfg, After(cfg, ws, calls[0]), calls[1..]))
  }

  predicate FaithfulRun(cfg: Config, ws: WriterState, sizes: Sizes, calls: seq<Call>)
    requires forall c :: c in calls ==> Callable(cfg, c)
  {
    EachFaithful(cfg, ws, calls) && SameSizes(sizes, calls)
  }

  /** The event that tells the reader's side of a call. */
  function EventOf(cfg: Config, c: Call): Event {
    match c
    case Execute(inst) => Executed(Expected(cfg, inst))
    case Output(fd, data) => Printed(fd, data)
    case RoutineChange(eip, esp, event) => Changed(eip, esp, event)
    case RoutineAnnounce(eip, name, imgname, offset, line, column, filename) =>
      Announced(eip, name + [0], imgname + [0], offset, line, column, filename + [0])
  }

  function Events(cfg: Config, calls: seq<Call>): seq<Event> {
    if calls == [] then [] else [EventOf(cfg, calls[0])] + Events(cfg, calls[1..])
  }

  function Told(events: seq<Event>, t: Trace): Trace {
    match t
    case Complete(more) => Complete(events + more)
    case Broken => Broken
  }

  lemma ToldFirst(rs: ReaderState, rs': ReaderState, junk: u64 -> byte, input: seq<byte>, rest: seq<byte>, e: Event)
    requires PagesOk(rs.pages) && PagesOk(rs'.pages)
    requires Read(rs, junk, input) == Prefixed([e], Read(rs', junk, rest))
    ensures ReadAll(rs, junk, input) == Told([e], ReadAll(rs', junk, rest))
  {
    hide Read;
    var o := Read(rs', junk, rest);
    if o.Return? {
      var t := ReadAll(o.rs, junk, o.rest);
      if t.Complete? {
        assert ([e] + o.events) + t.events == [e] + (o.events + t.events);
      }
    }
  }

  /** No instruction of size zero is ever read. */
  ghost predicate NonZero(events: seq<Event>) {
    forall e :: e in events && e.Executed? ==> e.inst.sinst.size > 0
  }

  ghost predicate NonZeroCache(rs: ReaderState) {
    forall a :: a in rs.scache ==> rs.scache[a].size > 0
  }

  lemma OtherNonZero(rs: ReaderState, junk: u64 -> byte, h: SiftFormat.Header, input: seq<byte>)
    requires PagesOk(rs.pages)
    ensures
      var r := ReadOther(rs, junk, h, input);
      r.More? ==> r.rs.scache == rs.scache && NonZero(r.events)
  {
    hide Store, ReadAnnounce, ReadChange, ReadOutput, TakeU64, TakeBytes, Code;
    ChangeIsNoInstruction(input);
    if h.size > 1 {
      OutputIsNoInstruction(h.size, input);
    }
  }

  lemma ChangeIsNoInstruction(input: seq<byte>)
    ensures ReadChange(input).Got? ==> ReadChange(input).value.Changed?
    ensures ReadAnnounce(input).Got? ==> ReadAnnounce(input).value.Announced?
  {
    hide TakeU64, TakeU32, ReadString;
  }

  lemma OutputIsNoInstruction(size: nat, input: seq<byte>)
    requires size > 1
    ensures ReadOutput(size, input).Got? ==> ReadOutput(size, input).value.Printed?
  {
  }

  lemma InstructionNonZero(rs: ReaderState, input: seq<byte>)
    requires PagesOk(rs.pages) && NonZeroCache(rs) && input != [] && input[0] != 0
    ensures
      var o := ReadInstruction(rs, input);
      !o.AtEnd? && (o.Return? ==> NonZero(o.events) && NonZeroCache(o.rs))
  {
    hide Fetch, TakeFields, TakeU64s;
  }

  lemma {:induction false} ReadNonZero(rs: ReaderState, junk: u64 -> byte, input: seq<byte>)
    requires PagesOk(rs.pages) && NonZeroCache(rs)
    ensures
      var o := Read(rs, junk, input);
      && (o.Return? ==> NonZero(o.events) && NonZeroCache(o.rs))
      && (o.AtEnd? ==> NonZero(o.events))
    decreases |input|
  {
    hide ReadInstruction, ReadOther;
    if input == [] {
    } else if input[0] != 0 {
      InstructionNonZero(rs, input);
    } else {
      var header := TakeHeader(input);
      if header.Got? {
        var r := ReadOther(rs, junk, header.value, header.rest);
        OtherNonZero(rs, junk, header.value, header.rest);
        if r.More? {
          ReadNonZero(r.rs, junk, r.rest);
        }
      }
    }
  }

  lemma {:induction false} TraceNonZero(rs: ReaderState, junk: u64 -> byte, input: seq<byte>)
    requires PagesOk(rs.pages) && NonZeroCache(rs)
    ensures ReadAll(rs, junk, input).Complete? ==> NonZero(ReadAll(rs, junk, input).events)
    decreases |input|
  {
    hide Read;
    ReadNonZero(rs, junk, input);
    var o := Read(rs, junk, input);
    if o.Return? {
      TraceNonZero(o.rs, junk, o.rest);
    }
  }

  /** In page mode code in the top page is never sent, so reading it fails. */
  lemma TopFails(cfg: Config, len: u64 -> nat, ws: WriterState, rs: ReaderState, junk: u64 -> byte,
                 inst: Instruction, rest: seq<byte>)
    requires Agreed(cfg, len, ws, rs) && Accepted(inst) && Terminates(cfg, inst)
    requires inst.size > 0 && !BelowTop(cfg, inst)
    ensures Read(rs, junk, Bytes(cfg, ws, Execute(inst)) + rest) == Aborted
  {
    hide Read, MappedAfter, InstructionRecord, AfterStatic;
    var mid := PreludeArrives(cfg, len, ws, rs, junk, inst, rest);
    InstructionRead(ws, mid, junk, inst, rest);
    assert PageOf(inst.addr) == TOP_PAGE;
    assert GetStatic(mid, inst.addr, inst.size) == Missing;
  }

  /** Once an instruction is cached, one of another length at its address is not read
      as it was made: the reader returns the old one or fails. */
  lemma OtherLength(cfg: Config, len: u64 -> nat, ws: WriterState, rs: ReaderState, junk: u64 -> byte,
                    inst: Instruction, rest: seq<byte>)
    requires Agreed(cfg, len, ws, rs) && Accepted(inst) && Terminates(cfg, inst)
    requires inst.addr in rs.scache && inst.size > 0 && inst.size != len(inst.addr)
    ensures
      var o := Read(rs, junk, Bytes(cfg, ws, Execute(inst)) + rest);
      if rs.lastInst.Some? && rs.lastInst.value in rs.nextOf && rs.nextOf[rs.lastInst.value] == inst.addr then
        o.Return? && |o.events| == 1 && o.events[0].Executed? && o.events[0].inst.sinst == rs.scache[inst.addr]
        && o.events[0].inst.sinst.size != inst.size
      else o == Aborted
  {
    hide Read, MappedAfter, InstructionRecord, AfterStatic, Known, CodeInSync, Fetch;
    var mid := PreludeArrives(cfg, len, ws, rs, junk, inst, rest);
    InstructionRead(ws, mid, junk, inst, rest);
  }

  predicate Possible(cfg: Config, calls: seq<Call>) {
    forall c :: c in calls ==> Callable(cfg, c) && (c.Output? ==> |c.data| < TWO_32)
  }

  lemma CachePositive(cfg: Config, len: u64 -> nat, ws: WriterState, rs: ReaderState)
    requires Agreed(cfg, len, ws, rs)
    ensures NonZeroCache(rs)
  {
  }

  /** What the reader has cached is what was executed, with the lengths it was executed with. */
  ghost predicate Remembered(cfg: Config, len: u64 -> nat, sizes: Sizes, ws: WriterState, rs: ReaderState) {
    && rs.scache.Keys == sizes.Keys
    && (cfg.variable ==> ws.sent == sizes.Keys)
    && forall a :: a in sizes ==> sizes[a] == len(a)
  }

  /** As long as an address was not executed, its length is open. */
  lemma LengthOpen(cfg: Config, len: u64 -> nat, sizes: Sizes, ws: WriterState, rs: ReaderState, a: u64, size: nat)
      returns (len': u64 -> nat)
    requires Agreed(cfg, len, ws, rs) && Remembered(cfg, len, sizes, ws, rs) && a !in sizes
    ensures Agreed(cfg, len', ws, rs) && Remembered(cfg, len', sizes, ws, rs) && len'(a) == size
  {
    hide KnownRange;
    len' := x => if x == a then size else len(x);
    assert a !in rs.scache;
  }

  /** A length for the address of the call that fits all there was and, unless the address
      was executed with another one, the call. */
  lemma LengthFor(cfg: Config, len: u64 -> nat, sizes: Sizes, ws: WriterState, rs: ReaderState, c: Call)
      returns (len': u64 -> nat)
    requires Agreed(cfg, len, ws, rs) && Remembered(cfg, len, sizes, ws, rs) && SameSize(sizes, c)
    ensures Agreed(cfg, len', ws, rs) && Remembered(cfg, len', sizes, ws, rs)
    ensures c.Execute? ==> c.inst.size == len'(c.inst.addr)
  {
    hide Agreed;
    if c.Execute? && c.inst.addr !in sizes {
      len' := LengthOpen(cfg, len, sizes, ws, rs, c.inst.addr, c.inst.size);
    } else {
      len' := len;
    }
  }

  /** What comes back for such a call: nothing, or another event. */
  ghost predicate Differs(t: Trace, e: Event) {
    t.Complete? ==> t.events != [] && t.events[0] != e
  }

  /** A call the conditions exclude is not read back as it was made. */
  lemma UnfaithfulCall(cfg: Config, len: u64 -> nat, sizes: Sizes, ws: WriterState, rs: ReaderState, junk: u64 -> byte,
                       c: Call, rest: seq<byte>, more: seq<Event>)
    requires Agreed(cfg, len, ws, rs) && Remembered(cfg, len, sizes, ws, rs)
    requires Callable(cfg, c) && (c.Output? ==> |c.data| < TWO_32)
    requires !Faithful(cfg, ws, c) || !SameSize(sizes, c)
    ensures PagesOk(rs.pages)
    ensures ReadAll(rs, junk, Bytes(cfg, ws, c) + rest) != Complete([EventOf(cfg, c)] + more)
  {
    hide Read, AnnounceRecord, Agreed, Remembered, ReadAll, Bytes, Faithful;
    AgreedPages(cfg, len, ws, rs);
    if c.Execute? && c.inst.size == 0 {
      CachePositive(cfg, len, ws, rs);
      TraceNonZero(rs, junk, Bytes(cfg, ws, c) + rest);
      ZeroEvent(cfg, c, more);
    } else if SameSize(sizes, c) {
      var len' := LengthFor(cfg, len, sizes, ws, rs, c);
      UnfaithfulOther(cfg, len', ws, rs, junk, c, rest);
      assert ([EventOf(cfg, c)] + more)[0] == EventOf(cfg, c);
    } else {
      LengthChanged(cfg, len, sizes, ws, rs, junk, c, rest);
      assert ([EventOf(cfg, c)] + more)[0] == EventOf(cfg, c);
    }
  }

  lemma LengthChanged(cfg: Config, len: u64 -> nat, sizes: Sizes, ws: WriterState, rs: ReaderState, junk: u64 -> byte,
                      c: Call, rest: seq<byte>)
    requires Agreed(cfg, len, ws, rs) && Remembered(cfg, len, sizes, ws, rs)
    requires Callable(cfg, c) && !SameSize(sizes, c) && c.inst.size > 0
    ensures PagesOk(rs.pages) && Differs(ReadAll(rs, junk, Bytes(cfg, ws, c) + rest), EventOf(cfg, c))
  {
    hide Read, Agreed, Bytes;
    AgreedPages(cfg, len, ws, rs);
    OtherLength(cfg, len, ws, rs, junk, c.inst, rest);
  }

  lemma UnfaithfulOther(cfg: Config, len: u64 -> nat, ws: WriterState, rs: ReaderState, junk: u64 -> byte,
                        c: Call, rest: seq<byte>)
    requires Agreed(cfg, len, ws, rs) && Callable(cfg, c) && (c.Output? ==> |c.data| < TWO_32)
    requires c.Execute? ==> c.inst.size == len(c.inst.addr) && c.inst.size > 0
    requires !Faithful(cfg, ws, c)
    ensures PagesOk(rs.pages) && Differs(ReadAll(rs, junk, Bytes(cfg, ws, c) + rest), EventOf(cfg, c))
  {
    hide Read, AnnounceRecord, Agreed;
    AgreedPages(cfg, len, ws, rs);
    match c
    case Execute(inst) =>
      if BelowTop(cfg, inst) {
        var rs' := ExecuteBack(cfg, len, ws, rs, junk, inst, rest);
      } else {
        TopFails(cfg, len, ws, rs, junk, inst, rest);
      }
    case Output(fd, data) =>
      OutputBack(rs, junk, fd, data, rest);
    case RoutineChange(_, _, _) =>
    case RoutineAnnounce(_, name, imgname, _, _, _, filename) =>
      AnnounceBack(rs, junk, c, rest);
      ToldFirst(rs, rs, junk, Bytes(cfg, ws, c) + rest, rest, AnnouncedEvent(c));
      SentWhole(name);
      SentWhole(imgname);
      SentWhole(filename);
  }

  lemma AgreedPages(cfg: Config, len: u64 -> nat, ws: WriterState, rs: ReaderState)
    requires Agreed(cfg, len, ws, rs)
    ensures PagesOk(rs.pages)
  {
  }

  /** A call the conditions allow is read back as it was made. */
  lemma FaithfulCall(cfg: Config, len: u64 -> nat, ws: WriterState, rs: ReaderState, junk: u64 -> byte,
                     c: Call, rest: seq<byte>) returns (rs': ReaderState)
    requires Agreed(cfg, len, ws, rs) && Callable(cfg, c)
    requires c.Execute? ==> c.inst.size == len(c.inst.addr)
    requires Faithful(cfg, ws, c)
    ensures Agreed(cfg, len, After(cfg, ws, c), rs') && PagesOk(rs'.pages)
    ensures rs'.scache.Keys == if c.Execute? then rs.scache.Keys + {c.inst.addr} else rs.scache.Keys
    ensures ReadAll(rs, junk, Bytes(cfg, ws, c) + rest) == Told([EventOf(cfg, c)], ReadAll(rs', junk, rest))
  {
    hide Read, AnnounceRecord, Agreed;
    rs' := rs;
    AgreedPages(cfg, len, ws, rs);
    match c {
      case Execute(inst) =>
        rs' := ExecuteBack(cfg, len, ws, rs, junk, inst, rest);
        AgreedPages(cfg, len, After(cfg, ws, c), rs');
      case Output(fd, data) =>
        OutputBack(rs, junk, fd, data, rest);
        ToldFirst(rs, rs, junk, Bytes(cfg, ws, c) + rest, rest, Printed(fd, data));
      case RoutineChange(eip, esp, event) =>
        ChangeBack(rs, junk, eip, esp, event, rest);
        ToldFirst(rs, rs, junk, Bytes(cfg, ws, c) + rest, rest, Changed(eip, esp, event));
      case RoutineAnnounce(_, name, imgname, _, _, _, filename) =>
        AnnounceBack(rs, junk, c, rest);
        ToldFirst(rs, rs, junk, Bytes(cfg, ws, c) + rest, rest, AnnouncedEvent(c));
        SentWhole(name);
        SentWhole(imgname);
        SentWhole(filename);
    }
  }

  lemma EndBack(rs: ReaderState, junk: u64 -> byte)
    requires PagesOk(rs.pages)
    ensures ReadAll(rs, junk, OtherHeader(REC_END, 0)) == Complete([])
  {
    ReadRecord(rs, junk, REC_END, 0, []);
    assert OtherHeader(REC_END, 0) + [] == OtherHeader(REC_END, 0);
  }

  lemma RememberedAfter(cfg: Config, len: u64 -> nat, sizes: Sizes, ws: WriterState, rs: ReaderState, rs': ReaderState,
                        c: Call)
    requires Callable(cfg, c) && Remembered(cfg, len, sizes, ws, rs)
    requires c.Execute? ==> c.inst.size == len(c.inst.addr)
    requires rs'.scache.Keys == if c.Execute? then rs.scache.Keys + {c.inst.addr} else rs.scache.Keys
    ensures Remembered(cfg, len, SizesAfter(sizes, c), After(cfg, ws, c), rs')
  {
    hide MappedAfter;
  }

  /** For every run of calls and whatever the reader's fresh pages happen to hold: reading
      the stream gives the run's events, no more and no less, exactly when every call in
      turn meets the conditions. */
  lemma {:induction false} RunExact(cfg: Config, len: u64 -> nat, sizes: Sizes, ws: WriterState, rs: ReaderState,
                                    junk: u64 -> byte, calls: seq<Call>)
    requires Agreed(cfg, len, ws, rs) && PagesOk(rs.pages) && Remembered(cfg, len, sizes, ws, rs)
    requires Possible(cfg, calls)
    ensures ReadAll(rs, junk, Stream(cfg, ws, calls)) == Complete(Events(cfg, calls))
       <==> FaithfulRun(cfg, ws, sizes, calls)
    decreases |calls|
  {
    hide Agreed, ReadAll, Faithful, After, Bytes, EventOf, Remembered, SameSize, SizesAfter;
    if calls == [] {
      EndBack(rs, junk);
    } else {
      var c, more := calls[0], calls[1..];
      var rest := Stream(cfg, After(cfg, ws, c), more);
      assert Events(cfg, calls) == [EventOf(cfg, c)] + Events(cfg, more);
      if Faithful(cfg, ws, c) && SameSize(sizes, c) {
        var len' := LengthFor(cfg, len, sizes, ws, rs, c);
        var rs' := FaithfulCall(cfg, len', ws, rs, junk, c, rest);
        RememberedAfter(cfg, len', sizes, ws, rs, rs', c);
        RunExact(cfg, len', SizesAfter(sizes, c), After(cfg, ws, c), rs', junk, more);
        SameTail(EventOf(cfg, c), ReadAll(rs', junk, rest), Events(cfg, more));
      } else {
        UnfaithfulCall(cfg, len, sizes, ws, rs, junk, c, rest, Events(cfg, more));
      }
    }
  }

  lemma SameTail(e: Event, t: Trace, events: seq<Event>)
    ensures Told([e], t) == Complete([e] + events) <==> t == Complete(events)
  {
    if t.Complete? && [e] + t.events == [e] + events {
      assert ([e] + t.events)[1..] == t.events;
      assert ([e] + events)[1..] == events;
    }
  }

  lemma ZeroEvent(cfg: Config, c: Call, more: seq<Event>)
    requires c.Execute? && c.inst.size == 0
    ensures !NonZero([EventOf(cfg, c)] + more)
  {
    assert ([EventOf(cfg, c)] + more)[0] == EventOf(cfg, c);
  }

  /** A whole trace, from the first call to the end. */
  lemma TraceExact(cfg: Config, junk: u64 -> byte, calls: seq<Call>)
    requires Possible(cfg, calls)
    ensures ReadAll(FRESH, junk, Stream(cfg, INITIAL, calls)) == Complete(Events(cfg, calls))
       <==> FaithfulRun(cfg, INITIAL, map[], calls)
  {
    var len := (a: u64) => 0;
    StartAgreed(cfg, len);
    RunExact(cfg, len, map[], INITIAL, FRESH, junk, calls);
  }

  /** An instruction of three bytes, and then of five at the same address: each alone
      would come back, the two do not. */
  lemma LengthsMatter(cfg: Config, junk: u64 -> byte)
    ensures
      var short := Execute(Instruction(4096, 3, [], false, false, false, true));
      var long := Execute(Instruction(4096, 5, [], false, false, false, true));
      && Possible(cfg, [short, long]) && Possible(cfg, [short]) && Possible(cfg, [long])
      && ReadAll(FRESH, junk, Stream(cfg, INITIAL, [short, long])) != Complete(Events(cfg, [short, long]))
      && ReadAll(FRESH, junk, Stream(cfg, INITIAL, [short])) == Complete(Events(cfg, [short]))
      && ReadAll(FRESH, junk, Stream(cfg, INITIAL, [long])) == Complete(Events(cfg, [long]))
  {
    hide ReadAll, Events, Stream, MappedAfter, PagesFrom;
    var short := Execute(Instruction(4096, 3, [], false, false, false, true));
    var long := Execute(Instruction(4096, 5, [], false, false, false, true));
    TraceExact(cfg, junk, [short]);
    TraceExact(cfg, junk, [long]);
    TraceExact(cfg, junk, [short, long]);
    assert [short, long][1..] == [long] && [long][1..] == [] && [short][1..] == [];
  }

  // Physical addresses.

  /** The reader's translation of a virtual address; 0 when no mapping was sent. */
  function VaToPa(rs: ReaderState, va: u64): u64 {
    if va / PAGE in rs.physical then rs.physical[va / PAGE] * PAGE % TWO_64 + va % PAGE else 0
  }

  /** After an instruction was read, its own address and those it accessed translate
      as they do on the writer's side, wherever the page has a physical address. */
  lemma TranslationArrives(cfg: Config, len: u64 -> nat, ws: WriterState, rs: ReaderState, inst: Instruction, va: u64)
    requires Callable(cfg, Execute(inst)) && Agreed(cfg, len, After(cfg, ws, Execute(inst)), rs)
    requires cfg.sendsPhysical && va in [inst.addr] + inst.addresses && cfg.physical(va / PAGE) != 0
    ensures VaToPa(rs, va) == cfg.physical(va / PAGE) * PAGE % TWO_64 + va % PAGE
  {
    MappedAfterHas(cfg, [inst.addr] + inst.addresses, ws.mapped, va);
  }

  lemma {:induction false} MappedAfterHas(cfg: Config, vas: seq<u64>, mapped: set<u64>, va: u64)
    requires cfg.sendsPhysical && cfg.physical(va / PAGE) != 0
    requires va in vas || va / PAGE in mapped
    ensures va / PAGE in MappedAfter(cfg, vas, mapped)
    decreases |vas|
  {
    if vas != [] {
      MappedAfterHas(cfg, vas[1..], if NeedsMapping(cfg, vas[0], mapped) then mapped + {vas[0] / PAGE} else mapped, va);
    }
  }
}
