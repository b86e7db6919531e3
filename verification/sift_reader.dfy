/** The trace reader as the object it is, with its static instructions linked to
    their probable successors. */
module SiftReader {
  import opened Numbers
  import opened Options
  import opened SiftFormat
  import opened SiftWriterSpec
  import opened SiftReaderSpec

  class StaticInst {
    const addr: u64
    const size: nat
    const data: seq<byte>
    var next: StaticInst?

    constructor (addr: u64, size: nat, data: seq<byte>)
      ensures this.addr == addr && this.size == size && this.data == data && next == null
    {
      this.addr, this.size, this.data, next := addr, size, data, null;
    }
  }

  /** How one call of Read comes back. */
  datatype Status = Instr | EndOfTrace | Pending(kind: byte, size: u32) | AssertionFailed | EndOfInput

  /** Whether a record that is no instruction was dealt with. */
  datatype Step = Go | Stop(status: Status)

  class Reader {
    const junk: u64 -> byte
    var input: seq<byte>
    var lastAddress: u64
    var icache: Pages
    var vcache: map<u64, u64>
    var scache: map<u64, StaticInst>
    var lastSinst: StaticInst?
    var told: seq<Event>

    constructor (junk: u64 -> byte, input: seq<byte>)
      ensures Valid() && State() == FRESH && told == [] && this.junk == junk && this.input == input
    {
      this.junk, this.input := junk, input;
      lastAddress, icache, vcache, scache, lastSinst, told := 0, map[], map[], map[], null, [];
    }

    ghost predicate Cached(s: StaticInst)
      reads this`scache
    {
      s.addr in scache && scache[s.addr] == s
    }

    ghost predicate Valid()
      reads this, scache.Values
    {
      && PagesOk(icache)
      && (forall a :: a in scache ==> scache[a].addr == a)
      && (forall a :: a in scache && scache[a].next != null ==> Cached(scache[a].next))
      && (lastSinst != null ==> Cached(lastSinst))
    }

    ghost function State(): ReaderState
      reads this, scache.Values
    {
      ReaderState(lastAddress, icache, vcache,
                  map a | a in scache :: StaticInstruction(a, scache[a].size, scache[a].data),
                  map a | a in scache && scache[a].next != null :: scache[a].next.addr,
                  if lastSinst == null then None else Some(lastSinst.addr))
    }

    /** Null stands for a failed assertion. */
    method GetStaticInstruction(a: u64, size: nat) returns (sinst: StaticInst?)
      requires Valid()
      modifies `scache, `lastSinst, scache.Values`next
      ensures Valid()
      ensures
        var found := GetStatic(old(State()), a, size);
        if found.Found? then
          sinst != null && StaticInstruction(sinst.addr, sinst.size, sinst.data) == found.sinst
          && State() == AfterStatic(old(State()), found.sinst)
        else sinst == null && State() == old(State())
    {
      hide Fetch;
      sinst := FindStatic(a, size);
      if sinst != null {
        Link(sinst);
      }
    }

    /** The three ways to a static instruction; a decoded one is cached. */
    method FindStatic(a: u64, size: nat) returns (sinst: StaticInst?)
      requires Valid()
      modifies `scache
      ensures Valid()
      ensures
        var found := GetStatic(old(State()), a, size);
        if found.Found? then
          sinst != null && Cached(sinst) && StaticInstruction(sinst.addr, sinst.size, sinst.data) == found.sinst
          && State() == old(State()).(scache := AfterStatic(old(State()), found.sinst).scache)
        else sinst == null && State() == old(State()) && scache == old(scache)
    {
      if lastSinst != null && lastSinst.next != null && lastSinst.next.addr == a {
        sinst := lastSinst.next;
      } else if a in scache {
        sinst := scache[a];
        if sinst.size != size {
          return null;
        }
      } else {
        var data := Fetch(icache, a, size);
        if data == None {
          return null;
        }
        sinst := AddStatic(a, size, data.value);
      }
    }

    method AddStatic(a: u64, size: nat, data: seq<byte>) returns (sinst: StaticInst)
      requires Valid() && a !in scache
      modifies `scache
      ensures Valid() && Cached(sinst) && fresh(sinst) && scache == old(scache)[a := sinst]
      ensures sinst.addr == a && sinst.size == size && sinst.data == data
      ensures State() == old(State()).(scache := old(State()).scache[a := StaticInstruction(a, size, data)])
    {
      ghost var before := State();
      sinst := new StaticInst(a, size, data);
      scache := scache[a := sinst];
      assert State().nextOf == before.nextOf;
      assert State().scache == before.scache[a := StaticInstruction(a, size, data)];
    }

    /** The instruction read last learns its successor, once. */
    method Link(sinst: StaticInst)
      requires Valid() && Cached(sinst)
      modifies `lastSinst, (if lastSinst == null then {} else {lastSinst})`next
      ensures Valid() && scache == old(scache)
      ensures State() == AfterStatic(old(State()), StaticInstruction(sinst.addr, sinst.size, sinst.data))
    {
      if lastSinst != null && lastSinst.next == null {
        SetNext(lastSinst, sinst);
      }
      lastSinst := sinst;
    }

    method SetNext(s: StaticInst, next: StaticInst)
      requires Valid() && Cached(s) && Cached(next) && s.next == null
      modifies s`next
      ensures Valid()
      ensures State() == old(State()).(nextOf := old(State()).nextOf[s.addr := next.addr])
    {
      ghost var before := State();
      s.next := next;
      assert State().scache == before.scache;
      forall a | a in scache && a != s.addr
        ensures scache[a].next == old(scache[a].next)
      {
        assert scache[a].addr == a;
      }
      assert State().nextOf == before.nextOf[s.addr := next.addr];
    }

    /** Code bytes that start at any address go to the pages they fall on. */
    method StoreCode(a: u64, bytes: seq<byte>)
      requires PagesOk(icache)
      modifies `icache
      ensures PagesOk(icache) && icache == Store(old(icache), junk, a, bytes)
    {
      var address: u64, left := a, bytes;
      while left != []
        invariant PagesOk(icache)
        invariant Store(icache, junk, address, left) == Store(old(icache), junk, a, bytes)
        decreases |left|
      {
        var base, offset := PageOf(address), address % PAGE;
        var page := if base in icache then icache[base] else NewPage(junk, base);
        var n := Min(|left|, PAGE - offset);
        icache := icache[base := page[..offset] + left[..n] + page[offset + n..]];
        left := left[n..];
        address := Plus(base, PAGE);
      }
    }

    method ReadPageRecord() returns (step: Step)
      requires Valid()
      modifies `input, `icache
      ensures Valid() && Took(step, ReadPage(old(State()), old(input)))
    {
      var address := TakeU64(input);
      if address.Short? { return Stop(EndOfInput); }
      var bytes := TakeBytes(address.rest, PAGE);
      if bytes.Short? { return Stop(EndOfInput); }
      icache, input := icache[address.value := bytes.value], bytes.rest;
      step := Go;
    }

    method ReadVariableRecord(size: u32) returns (step: Step)
      requires Valid()
      modifies `input, `icache
      ensures Valid() && Took(step, ReadVariable(old(State()), junk, size, old(input)))
    {
      hide Store, State, TakeU64, TakeBytes;
      var address := TakeU64(input);
      if address.Short? { return Stop(EndOfInput); }
      var bytes := TakeBytes(address.rest, if size < 8 then TWO_64 + size - 8 else size - 8);
      if bytes.Short? { return Stop(EndOfInput); }
      Keep(address.value, bytes.value);
      Advance(bytes.rest);
      step := Go;
    }

    /** The code becomes part of the state. */
    method Keep(a: u64, bytes: seq<byte>)
      requires Valid()
      modifies `icache
      ensures Valid() && State() == old(State()).(pages := Store(old(State()).pages, junk, a, bytes))
    {
      hide Store;
      StoreCode(a, bytes);
    }

    method ReadMappingRecord() returns (step: Step)
      requires Valid()
      modifies `input, `vcache
      ensures Valid() && Took(step, ReadMapping(old(State()), old(input)))
    {
      var vp := TakeU64(input);
      if vp.Short? { return Stop(EndOfInput); }
      var pp := TakeU64(vp.rest);
      if pp.Short? { return Stop(EndOfInput); }
      vcache, input := vcache[vp.value := pp.value], pp.rest;
      step := Go;
    }

    /** The reader has moved to what was parsed, or met the end of the input. */
    ghost predicate Took(step: Step, p: Parsed<ReaderState>)
      reads this, scache.Values
    {
      if p.Got? then step == Go && State() == p.value && input == p.rest else step == Stop(EndOfInput)
    }

    /** The body of the switch over record kinds, its header read already. */
    method ReadRecord(h: SiftFormat.Header) returns (step: Step)
      requires Valid()
      modifies `input, `icache, `vcache, `told
      ensures Valid()
      ensures
        var r := ReadOther(old(State()), junk, h, old(input));
        match r
        case More(rs, events, rest) => step == Go && State() == rs && told == old(told) + events && input == rest
        case Ended(rest) => step == Stop(EndOfTrace) && told == old(told) && input == rest
        case Request(kind, size, rest) =>
          step == Stop(Pending(kind, size)) && told == old(told) && input == rest && State() == old(State())
        case Failed => step == Stop(AssertionFailed) && told == old(told)
        case Truncated => step == Stop(EndOfInput) && told == old(told)
    {
      hide ReadPage, ReadVariable, ReadMapping, ReadOutput, ReadChange, ReadAnnounce, State, TakeBytes;
      if h.kind == REC_END {
        step := Stop(if h.size == 0 then EndOfTrace else AssertionFailed);
      } else if h.kind == REC_ICACHE {
        if h.size != 8 + PAGE { return Stop(AssertionFailed); }
        step := ReadPageRecord();
      } else if h.kind == REC_ICACHE_VARIABLE {
        step := ReadVariableRecord(h.size);
      } else if h.kind == REC_LOGICAL2PHYSICAL {
        if h.size != 16 { return Stop(AssertionFailed); }
        step := ReadMappingRecord();
      } else if h.kind == REC_OUTPUT {
        if h.size <= 1 { return Stop(AssertionFailed); }
        step := TellParsed(ReadOutput(h.size, input));
      } else if h.kind == REC_ROUTINE_CHANGE {
        if h.size != 17 { return Stop(AssertionFailed); }
        step := TellParsed(ReadChange(input));
      } else if h.kind == REC_ROUTINE_ANNOUNCE {
        step := TellParsed(ReadAnnounce(input));
      } else if IsRequest(h.kind) {
        step := Stop(Pending(h.kind, h.size));
      } else {
        step := Skip(h.size);
      }
      assert told + [] == told;
    }

    method Skip(size: nat) returns (step: Step)
      requires Valid()
      modifies `input
      ensures Valid() && State() == old(State())
      ensures var p := TakeBytes(old(input), size);
        if p.Got? then step == Go && input == p.rest else step == Stop(EndOfInput)
    {
      var skipped := TakeBytes(input, size);
      if skipped.Short? { return Stop(EndOfInput); }
      input, step := skipped.rest, Go;
    }

    /** Moves past bytes of the input, which are no part of the state. */
    method Advance(rest: seq<byte>)
      requires Valid()
      modifies `input
      ensures Valid() && State() == old(State()) && input == rest
    {
      input := rest;
    }

    method Predict(last: u64)
      requires Valid()
      modifies `lastAddress
      ensures Valid() && State() == old(State()).(last := last)
    {
      lastAddress := last;
    }

    method Tell(e: Event)
      requires Valid()
      modifies `told
      ensures Valid() && State() == old(State()) && told == old(told) + [e]
    {
      told := told + [e];
    }

    method TellParsed(p: Parsed<Event>) returns (step: Step)
      requires Valid()
      modifies `input, `told
      ensures Valid() && State() == old(State())
      ensures if p.Got? then step == Go && input == p.rest && told == old(told) + [p.value]
              else step == Stop(EndOfInput) && input == old(input) && told == old(told)
    {
      if p.Short? { return Stop(EndOfInput); }
      input, told, step := p.rest, told + [p.value], Go;
    }

    /** What a finished call of Read stands for, n events having been told before it. */
    ghost function Shown(status: Status, n: nat): Outcome
      requires n <= |told|
      reads this, scache.Values
    {
      match status
      case Instr => Return(State(), told[n..], input)
      case EndOfTrace => AtEnd(told[n..], input)
      case Pending(kind, size) => AtRequest(State(), told[n..], kind, size, input)
      case AssertionFailed => Aborted
      case EndOfInput => OutOfInput
    }

    method Read() returns (status: Status)
      requires Valid()
      modifies this, scache.Values`next
      ensures Valid() && old(told) <= told
      ensures Shown(status, |old(told)|) == SiftReaderSpec.Read(old(State()), junk, old(input))
    {
      ghost var n, start, all := |told|, State(), input;
      StatePages();
      PrefixedNothing(SiftReaderSpec.Read(State(), junk, input));
      assert told[n..] == [];
      hide SiftReaderSpec.Read, State, Valid;
      while input != [] && input[0] == 0
        invariant Valid() && PagesOk(State().pages) && n <= |told| && old(told) == told[..n]
        invariant scache == old(scache)
        invariant Prefixed(told[n..], SiftReaderSpec.Read(State(), junk, input))
               == SiftReaderSpec.Read(start, junk, all)
        decreases |input|
      {
        var step := ReadNext(n);
        if step.Stop? {
          return step.status;
        }
      }
      status := if input == [] then EndOfInput else Instr;
      ReadAhead(State());
      if input != [] {
        status := ReadRest(n);
      }
    }

    lemma ReadAhead(rs: ReaderState)
      requires PagesOk(rs.pages)
      ensures input == [] ==> SiftReaderSpec.Read(rs, junk, input) == OutOfInput
      ensures input != [] && input[0] != 0 ==> SiftReaderSpec.Read(rs, junk, input) == ReadInstruction(rs, input)
    {
    }

    /** The record at the front of the input, which is no instruction. */
    method ReadNext(ghost n: nat) returns (step: Step)
      requires Valid() && input != [] && input[0] == 0 && n <= |told|
      modifies `input, `icache, `vcache, `told
      ensures Valid() && PagesOk(State().pages) && old(told) <= told
      ensures
        var was := Prefixed(old(told)[n..], SiftReaderSpec.Read(old(State()), junk, old(input)));
        match step
        case Go => |input| < |old(input)| && was == Prefixed(told[n..], SiftReaderSpec.Read(State(), junk, input))
        case Stop(status) => was == Shown(status, n)
    {
      StatePages();
      var header := TakeHeader(input);
      if header.Short? {
        return Stop(EndOfInput);
      }
      hide ReadOther, ReadInstruction, State;
      ghost var before := told;
      Advance(header.rest);
      step := ReadRecord(header.value);
      StatePages();
      assert told[n..] == before[n..] + told[|before|..];
      assert before[n..] + [] == before[n..];
      if step.Go? {
        PrefixedTwice(before[n..], told[|before|..], SiftReaderSpec.Read(State(), junk, input));
      }
    }

    lemma StatePages()
      requires Valid()
      ensures State().pages == icache && PagesOk(icache)
    {
    }

    /** The instruction record at the front of the input. */
    method ReadRest(ghost n: nat) returns (status: Status)
      requires Valid() && input != [] && input[0] != 0 && n <= |told|
      modifies this, scache.Values`next
      ensures Valid() && old(told) <= told
      ensures Shown(status, n) == Prefixed(old(told)[n..], ReadInstruction(old(State()), old(input)))
    {
      hide TakeFields, GetStatic, TakeU64s, AfterStatic, State, Valid;
      StatePages();
      var fields := TakeFieldsAt(lastAddress);
      if fields.Short? {
        return EndOfInput;
      }
      var addresses := TakeU64s(fields.rest, fields.value.flags.addresses);
      if addresses.Short? {
        return EndOfInput;
      }
      Advance(addresses.rest);
      status := Finish(fields.value, addresses.value, n);
    }

    method Finish(f: Fields, addresses: seq<u64>, ghost n: nat) returns (status: Status)
      requires Valid() && n <= |told|
      modifies `lastAddress, `scache, `lastSinst, `told, scache.Values`next
      ensures Valid() && old(told) <= told
      ensures
        var found := GetStatic(old(State()), f.addr, f.size);
        if found.Found? then
          status == Instr && State() == AfterStatic(old(State()).(last := Plus(f.addr, f.size)), found.sinst)
          && told[n..] == old(told)[n..] + [Executed(Dynamic(found.sinst, addresses, f.flags.isBranch, f.flags.taken,
                                                             f.flags.isPredicate, f.flags.executed))]
        else status == AssertionFailed
    {
      ghost var rs, before := State(), told;
      assert PagesOk(rs.pages);
      hide GetStatic, AfterStatic, State, Valid;
      Predict(Plus(f.addr, f.size));
      LastIrrelevant(rs, Plus(f.addr, f.size), f.addr, f.size);
      var sinst := GetStaticInstruction(f.addr, f.size);
      if sinst == null {
        return AssertionFailed;
      }
      Tell(Executed(Dynamic(StaticInstruction(sinst.addr, sinst.size, sinst.data), addresses,
                            f.flags.isBranch, f.flags.taken, f.flags.isPredicate, f.flags.executed)));
      assert told[n..] == before[n..] + [told[|before|]];
      status := Instr;
    }

    lemma LastIrrelevant(rs: ReaderState, last: u64, a: u64, size: nat)
      requires PagesOk(rs.pages)
      ensures GetStatic(rs.(last := last), a, size) == GetStatic(rs, a, size)
    {
    }

    method TakeFieldsAt(last: u64) returns (fields: Parsed<Fields>)
      requires Valid() && input != [] && input[0] != 0 && last == lastAddress
      ensures fields == TakeFields(State(), input)
    {
      if input[0] % 16 != 0 {
        fields := Got(Fields(last, input[0] % 16, SimpleFlags(input[0])), input[1..]);
      } else if |input| < 2 {
        fields := Short;
      } else {
        var a := TakeU64(input[2..]);
        fields := if a.Short? then Short else Got(Fields(a.value, input[0] / 16, ExtFlags(input[1])), a.rest);
      }
    }
  }
}
