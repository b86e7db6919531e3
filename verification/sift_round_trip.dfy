/** Reading back what the writer wrote: the reader sees the same instructions and
    events in the same order, whatever it was that its caches held. */
module SiftRoundTrip {
  import opened Numbers
  import opened Options
  import opened SiftFormat
  import opened SiftWriterSpec
  import opened SiftReaderSpec

  /** The reader holds the right code byte for address x. */
  ghost predicate Known(cfg: Config, pages: Pages, x: u64)
    requires PagesOk(pages)
  {
    PageOf(x) in pages && pages[PageOf(x)][x % PAGE] == cfg.code(x)
  }

  ghost predicate KnownRange(cfg: Config, pages: Pages, a: u64, n: nat)
    requires PagesOk(pages)
  {
    forall i :: 0 <= i < n ==> Known(cfg, pages, Plus(a, i))
  }

  /** Whatever code is known in these pages is known in those. */
  ghost predicate Grows(cfg: Config, before: Pages, after: Pages)
    requires PagesOk(before) && PagesOk(after)
  {
    && before.Keys <= after.Keys
    && forall x: u64 :: Known(cfg, before, x) ==> Known(cfg, after, x)
  }

  lemma PlusPlus(a: u64, m: nat, n: nat)
    ensures Plus(Plus(a, m), n) == Plus(a, m + n)
  {
  }

  /** Stepping from a by fewer than the bytes left in its page stays in the page. */
  lemma InPage(a: u64, i: nat)
    requires i < PAGE - a % PAGE
    ensures Plus(a, i) == a + i && PageOf(Plus(a, i)) == PageOf(a) && Plus(a, i) % PAGE == a % PAGE + i
  {
  }

  lemma NextPage(a: u64)
    ensures Plus(a, PAGE - a % PAGE) == Plus(PageOf(a), PAGE)
  {
  }

  lemma CodeSplit(cfg: Config, a: u64, n: nat, size: nat)
    requires n <= size
    ensures Code(cfg, a, size)[..n] == Code(cfg, a, n)
    ensures Code(cfg, a, size)[n..] == Code(cfg, Plus(a, n), size - n)
  {
    forall i | 0 <= i < size - n
      ensures Code(cfg, a, size)[n..][i] == Code(cfg, Plus(a, n), size - n)[i]
    {
      PlusPlus(a, n, i);
    }
  }

  lemma ChunkKnown(cfg: Config, pages: Pages, a: u64, n: nat)
    requires PagesOk(pages) && KnownRange(cfg, pages, a, n) && 0 < n <= PAGE - a % PAGE
    ensures PageOf(a) in pages && pages[PageOf(a)][a % PAGE..a % PAGE + n] == Code(cfg, a, n)
  {
    InPage(a, 0);
    assert Known(cfg, pages, Plus(a, 0));
    forall i | 0 <= i < n
      ensures pages[PageOf(a)][a % PAGE + i] == Code(cfg, a, n)[i]
    {
      InPage(a, i);
      assert Known(cfg, pages, Plus(a, i));
    }
  }

  lemma {:induction false} FetchKnown(cfg: Config, pages: Pages, a: u64, size: nat)
    requires PagesOk(pages) && KnownRange(cfg, pages, a, size)
    ensures Fetch(pages, a, size) == Some(Code(cfg, a, size))
    decreases size
  {
    hide Known, Plus;
    if size == 0 {
      assert Code(cfg, a, size) == [];
    } else {
      var n := Min(size, PAGE - a % PAGE);
      var next := Plus(a, n);
      ChunkKnown(cfg, pages, a, n);
      forall i | 0 <= i < size - n
        ensures Known(cfg, pages, Plus(next, i))
      {
        PlusPlus(a, n, i);
      }
      FetchKnown(cfg, pages, next, size - n);
      if n < size {
        NextPage(a);
      }
      CodeSplit(cfg, a, n, size);
      assert Code(cfg, a, size) == Code(cfg, a, size)[..n] + Code(cfg, a, size)[n..];
    }
  }

  lemma StoreChunk(cfg: Config, pages: Pages, junk: u64 -> byte, a: u64, n: nat)
    requires PagesOk(pages) && n <= PAGE - a % PAGE
    ensures
      var page := PageAt(pages, junk, PageOf(a));
      var chunk := pages[PageOf(a) := page[..a % PAGE] + Code(cfg, a, n) + page[a % PAGE + n..]];
      PagesOk(chunk) && Grows(cfg, pages, chunk) && KnownRange(cfg, chunk, a, n)
  {
    var base, offset := PageOf(a), a % PAGE;
    var page := PageAt(pages, junk, base);
    var filled := page[..offset] + Code(cfg, a, n) + page[offset + n..];
    var chunk := pages[base := filled];
    forall i | 0 <= i < n
      ensures Known(cfg, chunk, Plus(a, i))
    {
      InPage(a, i);
    }
    forall x: u64 | Known(cfg, pages, x)
      ensures Known(cfg, chunk, x)
    {
      if PageOf(x) == base && offset <= x % PAGE < offset + n {
        InPage(a, x % PAGE - offset);
        assert x == Plus(a, x % PAGE - offset);
      }
    }
  }

  lemma RangeJoin(cfg: Config, pages: Pages, a: u64, n: nat, size: nat)
    requires PagesOk(pages) && n <= size
    requires KnownRange(cfg, pages, a, n) && KnownRange(cfg, pages, Plus(a, n), size - n)
    ensures KnownRange(cfg, pages, a, size)
  {
    hide Known;
    forall i | 0 <= i < size
      ensures Known(cfg, pages, Plus(a, i))
    {
      if i >= n {
        PlusPlus(a, n, i - n);
        assert Known(cfg, pages, Plus(Plus(a, n), i - n));
      }
    }
  }

  lemma GrowsTrans(cfg: Config, p1: Pages, p2: Pages, p3: Pages, a: u64, n: nat)
    requires PagesOk(p1) && PagesOk(p2) && PagesOk(p3)
    requires Grows(cfg, p1, p2) && Grows(cfg, p2, p3)
    ensures Grows(cfg, p1, p3)
    ensures KnownRange(cfg, p2, a, n) ==> KnownRange(cfg, p3, a, n)
  {
    hide Known;
  }

  lemma {:induction false} StoreKnown(cfg: Config, pages: Pages, junk: u64 -> byte, a: u64, size: nat)
    requires PagesOk(pages)
    ensures Grows(cfg, pages, Store(pages, junk, a, Code(cfg, a, size)))
    ensures KnownRange(cfg, Store(pages, junk, a, Code(cfg, a, size)), a, size)
    decreases size
  {
    if size > 0 {
      hide Grows, KnownRange;
      var n := Min(size, PAGE - a % PAGE);
      var page := PageAt(pages, junk, PageOf(a));
      var chunk := pages[PageOf(a) := page[..a % PAGE] + Code(cfg, a, n) + page[a % PAGE + n..]];
      StoreChunk(cfg, pages, junk, a, n);
      CodeSplit(cfg, a, n, size);
      var after := Store(chunk, junk, Plus(PageOf(a), PAGE), Code(cfg, a, size)[n..]);
      assert after == Store(pages, junk, a, Code(cfg, a, size));
      if n == size {
        assert after == chunk;
      } else {
        NextPage(a);
        StoreKnown(cfg, chunk, junk, Plus(a, n), size - n);
        GrowsTrans(cfg, pages, chunk, after, a, n);
        RangeJoin(cfg, after, a, n, size);
      }
    }
  }

  /** One record that is not an instruction, read by ReadOther. */
  lemma ReadRecord(rs: ReaderState, junk: u64 -> byte, kind: byte, size: nat, body: seq<byte>)
    requires PagesOk(rs.pages) && size < TWO_32
    ensures
      var r := ReadOther(rs, junk, SiftFormat.Header(kind, size), body);
      r.More? ==> Read(rs, junk, OtherHeader(kind, size) + body) == Prefixed(r.events, Read(r.rs, junk, r.rest))
    ensures
      var r := ReadOther(rs, junk, SiftFormat.Header(kind, size), body);
      r.Failed? ==> Read(rs, junk, OtherHeader(kind, size) + body) == Aborted
    ensures
      var r := ReadOther(rs, junk, SiftFormat.Header(kind, size), body);
      r.Ended? ==> Read(rs, junk, OtherHeader(kind, size) + body) == AtEnd([], r.rest)
    ensures
      var r := ReadOther(rs, junk, SiftFormat.Header(kind, size), body);
      r.Request? ==> Read(rs, junk, OtherHeader(kind, size) + body) == AtRequest(rs, [], r.kind, r.size, r.rest)
  {
    hide ReadOther, ReadInstruction, LE;
    TakeHeaderBack(kind, size, body);
    assert (OtherHeader(kind, size) + body)[0] == 0;
  }

  lemma PageBack(cfg: Config, rs: ReaderState, junk: u64 -> byte, base: u64, rest: seq<byte>)
    requires PagesOk(rs.pages)
    ensures Read(rs, junk, PageRecord(cfg, base) + rest)
         == Read(rs.(pages := rs.pages[base := Code(cfg, base, PAGE)]), junk, rest)
  {
    var body := LE(base, 8) + (Code(cfg, base, PAGE) + rest);
    assert PageRecord(cfg, base) + rest == OtherHeader(REC_ICACHE, 8 + PAGE) + body;
    TakeU64Back(base, Code(cfg, base, PAGE) + rest);
    TakeBytesBack(Code(cfg, base, PAGE), rest);
    var rs' := rs.(pages := rs.pages[base := Code(cfg, base, PAGE)]);
    assert ReadPage(rs, body) == Got(rs', rest);
    ReadRecord(rs, junk, REC_ICACHE, 8 + PAGE, body);
    PrefixedNothing(Read(rs', junk, rest));
  }

  lemma VariableBack(cfg: Config, rs: ReaderState, junk: u64 -> byte, a: u64, size: nat, rest: seq<byte>)
    requires PagesOk(rs.pages) && size < 16
    ensures Read(rs, junk, VariableRecord(cfg, a, size) + rest)
         == Read(rs.(pages := Store(rs.pages, junk, a, Code(cfg, a, size))), junk, rest)
  {
    var body := LE(a, 8) + (Code(cfg, a, size) + rest);
    assert VariableRecord(cfg, a, size) + rest == OtherHeader(REC_ICACHE_VARIABLE, 8 + size) + body;
    TakeU64Back(a, Code(cfg, a, size) + rest);
    TakeBytesBack(Code(cfg, a, size), rest);
    var rs' := rs.(pages := Store(rs.pages, junk, a, Code(cfg, a, size)));
    assert ReadVariable(rs, junk, 8 + size, body) == Got(rs', rest);
    ReadRecord(rs, junk, REC_ICACHE_VARIABLE, 8 + size, body);
    PrefixedNothing(Read(rs', junk, rest));
  }

  lemma MappingBack(cfg: Config, rs: ReaderState, junk: u64 -> byte, va: u64, rest: seq<byte>)
    requires PagesOk(rs.pages)
    ensures Read(rs, junk, MappingRecord(cfg, va) + rest)
         == Read(rs.(physical := rs.physical[va / PAGE := cfg.physical(va / PAGE)]), junk, rest)
  {
    var vp: u64, pp := va / PAGE, cfg.physical(va / PAGE);
    var body := LE(vp, 8) + (LE(pp, 8) + rest);
    assert MappingRecord(cfg, va) + rest == OtherHeader(REC_LOGICAL2PHYSICAL, 16) + body;
    TakeU64Back(vp, LE(pp, 8) + rest);
    TakeU64Back(pp, rest);
    var rs' := rs.(physical := rs.physical[vp := pp]);
    assert ReadMapping(rs, body) == Got(rs', rest);
    ReadRecord(rs, junk, REC_LOGICAL2PHYSICAL, 16, body);
    PrefixedNothing(Read(rs', junk, rest));
  }

  /** Output comes back unless it is empty or so long that the size field wraps. */
  lemma OutputBack(rs: ReaderState, junk: u64 -> byte, fd: byte, data: seq<byte>, rest: seq<byte>)
    requires PagesOk(rs.pages) && |data| < TWO_32
    ensures Read(rs, junk, OtherHeader(REC_OUTPUT, 1 + |data|) + ([fd] + data) + rest)
         == if 0 < |data| < TWO_32 - 1 then Prefixed([Printed(fd, data)], Read(rs, junk, rest)) else Aborted
  {
    hide ReadOutput, Read, LE;
    var size := (1 + |data|) % TWO_32;
    var body := [fd] + (data + rest);
    assert OtherHeader(REC_OUTPUT, 1 + |data|) == OtherHeader(REC_OUTPUT, size);
    assert OtherHeader(REC_OUTPUT, 1 + |data|) + ([fd] + data) + rest == OtherHeader(REC_OUTPUT, size) + body;
    ReadRecord(rs, junk, REC_OUTPUT, size, body);
    if 0 < |data| < TWO_32 - 1 {
      OutputRead(fd, data, rest);
    }
  }

  lemma OutputRead(fd: byte, data: seq<byte>, rest: seq<byte>)
    requires data != []
    ensures ReadOutput(1 + |data|, [fd] + (data + rest)) == Got(Printed(fd, data), rest)
  {
    TakeBytesBack([fd], data + rest);
    TakeBytesBack(data, rest);
  }

  lemma ChangeBack(rs: ReaderState, junk: u64 -> byte, eip: u64, esp: u64, event: byte, rest: seq<byte>)
    requires PagesOk(rs.pages)
    ensures Read(rs, junk, OtherHeader(REC_ROUTINE_CHANGE, 17) + (LE(eip, 8) + (LE(esp, 8) + [event])) + rest)
         == Prefixed([Changed(eip, esp, event)], Read(rs, junk, rest))
  {
    hide Read, LE;
    var body := LE(eip, 8) + (LE(esp, 8) + ([event] + rest));
    assert OtherHeader(REC_ROUTINE_CHANGE, 17) + (LE(eip, 8) + (LE(esp, 8) + [event])) + rest
        == OtherHeader(REC_ROUTINE_CHANGE, 17) + body;
    ReadRecord(rs, junk, REC_ROUTINE_CHANGE, 17, body);
    TakeU64Back(eip, LE(esp, 8) + ([event] + rest));
    TakeU64Back(esp, [event] + rest);
    TakeBytesBack([event], rest);
    assert ReadChange(body) == Got(Changed(eip, esp, event), rest);
  }

  lemma StringBack(s: seq<byte>, rest: seq<byte>)
    ensures ReadString(StringField(s) + rest) == Got(Sent(s), rest)
  {
    Widths();
    assert StringField(s) + rest == LE(StringLength(s), 2) + (Sent(s) + rest);
    TakeFieldBack(StringLength(s), 2, Sent(s) + rest);
    TakeBytesBack(Sent(s), rest);
  }

  function AnnouncedEvent(c: Call): Event
    requires c.RoutineAnnounce?
  {
    Announced(c.eip, Sent(c.name), Sent(c.imgname), c.offset, c.line, c.column, Sent(c.filename))
  }

  lemma AnnounceBack(rs: ReaderState, junk: u64 -> byte, c: Call, rest: seq<byte>)
    requires PagesOk(rs.pages) && c.RoutineAnnounce?
    ensures Read(rs, junk, AnnounceRecord(c) + rest) == Prefixed([AnnouncedEvent(c)], Read(rs, junk, rest))
  {
    hide ReadString, StringField, TakeU64, TakeU32, LE, Read, ReadOther;
    var size := 30 + StringLength(c.name) + StringLength(c.imgname) + StringLength(c.filename);
    var r7 := StringField(c.filename) + rest;
    var r6 := LE(c.column, 4) + r7;
    var r5 := LE(c.line, 4) + r6;
    var r4 := LE(c.offset, 8) + r5;
    var r3 := StringField(c.imgname) + r4;
    var r2 := StringField(c.name) + r3;
    var body := LE(c.eip, 8) + r2;
    assert AnnounceRecord(c) + rest == OtherHeader(REC_ROUTINE_ANNOUNCE, size) + body;
    TakeU64Back(c.eip, r2);
    StringBack(c.name, r3);
    StringBack(c.imgname, r4);
    TakeU64Back(c.offset, r5);
    TakeU32Back(c.line, r6);
    TakeU32Back(c.column, r7);
    StringBack(c.filename, rest);
    assert ReadAnnounce(body) == Got(AnnouncedEvent(c), rest);
    AnnounceRead(rs, junk, size, body);
    ReadRecord(rs, junk, REC_ROUTINE_ANNOUNCE, size, body);
  }

  lemma AnnounceRead(rs: ReaderState, junk: u64 -> byte, size: u32, body: seq<byte>)
    requires PagesOk(rs.pages)
    ensures ReadOther(rs, junk, SiftFormat.Header(REC_ROUTINE_ANNOUNCE, size), body) == Tell(rs, ReadAnnounce(body))
  {
  }

  /** An announced name arrives whole, with its terminator, unless its length does
      not fit 16 bits. */
  lemma SentWhole(s: seq<byte>)
    ensures Sent(s) == s + [0] <==> |s| < 65535
  {
    if |s| < 65535 {
      assert (s + [0])[..|s| + 1] == s + [0];
    }
  }

  // What reader and writer agree on between calls.

  ghost function AllPages(cfg: Config, sent: set<u64>): (pages: Pages)
    ensures PagesOk(pages) && pages.Keys == sent
  {
    map p: u64 | p in sent :: Code(cfg, p, PAGE)
  }

  ghost function AllMapped(cfg: Config, mapped: set<u64>): map<u64, u64> {
    map p: u64 | p in mapped :: cfg.physical(p)
  }

  /** The code the writer has sent is the code the reader has. In variable mode the
      code of an instruction goes with its length, one fixed length per address. */
  ghost predicate CodeInSync(cfg: Config, len: u64 -> nat, sent: set<u64>, pages: Pages)
    requires PagesOk(pages)
  {
    if cfg.variable then forall a :: a in sent ==> KnownRange(cfg, pages, a, len(a))
    else pages == AllPages(cfg, sent) && forall p :: p in sent ==> p % PAGE == 0 && p < TOP_PAGE
  }

  /** Every cached static instruction is the one a fresh decode would give, and
      the pointers between them stay inside the cache. */
  ghost predicate CacheInSync(cfg: Config, len: u64 -> nat, rs: ReaderState) {
    && (forall a :: a in rs.scache ==>
      rs.scache[a] == StaticInstruction(a, len(a), Code(cfg, a, len(a)))
      && 0 < len(a) && (cfg.variable || a < TOP_PAGE))
    && (forall a :: a in rs.nextOf ==> rs.nextOf[a] in rs.scache)
    && (rs.lastInst.Some? ==> rs.lastInst.value in rs.scache)
  }

  ghost predicate InSync(cfg: Config, len: u64 -> nat, ws: WriterState, rs: ReaderState) {
    && PagesOk(rs.pages)
    && rs.last == ws.last
    && CodeInSync(cfg, len, ws.sent, rs.pages)
    && rs.physical == AllMapped(cfg, ws.mapped)
    && CacheInSync(cfg, len, rs)
  }

  /** No byte of the instruction lies in the top page (or beyond it). */
  predicate BelowTop(cfg: Config, inst: Instruction) {
    cfg.variable || inst.addr + inst.size <= TOP_PAGE
  }

  lemma {:induction false} PagesFromIs(base: u64, last: u64, p: u64)
    requires base % PAGE == 0 && last % PAGE == 0 && last < TOP_PAGE
    ensures p in PagesFrom(base, last) <==> p % PAGE == 0 && base <= p <= last
    decreases TOP_PAGE - base
  {
    if base <= last {
      PagesFromIs(base + PAGE, last, p);
    }
  }

  lemma OnePageMore(cfg: Config, sent: set<u64>, base: u64)
    ensures AllPages(cfg, sent)[base := Code(cfg, base, PAGE)] == AllPages(cfg, sent + {base})
    ensures base in sent ==> sent + {base} == sent
  {
  }

  lemma {:induction false} PagesRead(cfg: Config, rs: ReaderState, junk: u64 -> byte, base: u64, last: u64,
                                     sent: set<u64>, rest: seq<byte>)
    requires base % PAGE == 0 && last % PAGE == 0 && last < TOP_PAGE
    requires rs.pages == AllPages(cfg, sent)
    ensures Read(rs, junk, PageRecords(cfg, base, last, sent) + rest)
         == Read(rs.(pages := AllPages(cfg, sent + PagesFrom(base, last))), junk, rest)
    decreases TOP_PAGE - base
  {
    hide Read, ReadOther, AllPages, PageRecord, Code;
    if base > last {
      assert PageRecords(cfg, base, last, sent) + rest == rest;
      assert sent + PagesFrom(base, last) == sent;
    } else {
      var more := PageRecords(cfg, base + PAGE, last, sent + {base}) + rest;
      var rs' := rs.(pages := AllPages(cfg, sent + {base}));
      OnePageMore(cfg, sent, base);
      assert sent + PagesFrom(base, last) == sent + {base} + PagesFrom(base + PAGE, last);
      PagesRead(cfg, rs', junk, base + PAGE, last, sent + {base}, rest);
      if base in sent {
        assert PageRecords(cfg, base, last, sent) + rest == more;
      } else {
        assert PageRecords(cfg, base, last, sent) + rest == PageRecord(cfg, base) + more;
        PageBack(cfg, rs, junk, base, more);
      }
    }
  }

  lemma {:induction false} MappingsRead(cfg: Config, rs: ReaderState, junk: u64 -> byte, vas: seq<u64>,
                                        mapped: set<u64>, rest: seq<byte>)
    requires PagesOk(rs.pages) && rs.physical == AllMapped(cfg, mapped)
    decreases |vas|
    ensures Read(rs, junk, MappingRecords(cfg, vas, mapped) + rest)
         == Read(rs.(physical := AllMapped(cfg, MappedAfter(cfg, vas, mapped))), junk, rest)
  {
    hide Read, ReadOther;
    if vas == [] {
      assert MappingRecords(cfg, vas, mapped) + rest == rest;
    } else if NeedsMapping(cfg, vas[0], mapped) {
      var mapped' := mapped + {vas[0] / PAGE};
      var more := MappingRecords(cfg, vas[1..], mapped') + rest;
      assert MappingRecords(cfg, vas, mapped) + rest == MappingRecord(cfg, vas[0]) + more;
      MappingBack(cfg, rs, junk, vas[0], more);
      var rs' := rs.(physical := rs.physical[vas[0] / PAGE := cfg.physical(vas[0] / PAGE)]);
      assert rs'.physical == AllMapped(cfg, mapped');
      MappingsRead(cfg, rs', junk, vas[1..], mapped', rest);
    } else {
      MappingsRead(cfg, rs, junk, vas[1..], mapped, rest);
    }
  }

  /** What survives of the flags: a simple record reads as an executed instruction. */
  function FlagsBack(ws: WriterState, inst: Instruction): Flags {
    FlagsOf(inst).(executed := inst.executed || Simple(ws, inst))
  }

  lemma FieldsBack(ws: WriterState, rs: ReaderState, inst: Instruction, rest: seq<byte>)
    requires Accepted(inst) && inst.size > 0 && rs.last == ws.last
    ensures
      var input := InstructionRecord(ws, inst) + rest;
      input != [] && input[0] != 0
      && TakeFields(rs, input) == Got(Fields(inst.addr, inst.size, FlagsBack(ws, inst)), U64s(inst.addresses) + rest)
  {
    hide LE, U64s, SimpleByte, ExtByte, SimpleFlags, ExtFlags, TakeU64;
    var f, tail := FlagsOf(inst), U64s(inst.addresses) + rest;
    if Simple(ws, inst) {
      SimpleByteBack(inst.size, f);
      var input := [SimpleByte(inst.size, f)] + tail;
      assert InstructionRecord(ws, inst) + rest == input;
      assert input[1..] == tail;
    } else {
      ExtByteBack(f);
      var input := [16 * inst.size, ExtByte(f)] + (LE(inst.addr, 8) + tail);
      assert InstructionRecord(ws, inst) + rest == input;
      assert input[2..] == LE(inst.addr, 8) + tail;
      TakeU64Back(inst.addr, tail);
    }
  }

  /** The dynamic instruction that reading back an instruction should give. */
  function Expected(cfg: Config, inst: Instruction): Dynamic {
    Dynamic(StaticInstruction(inst.addr, inst.size, Code(cfg, inst.addr, inst.size)), inst.addresses, inst.isBranch,
            inst.taken, inst.isPredicate, inst.executed)
  }
}
