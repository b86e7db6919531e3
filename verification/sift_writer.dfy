/** The trace writer as the object it is: every method appends to the output what
    the specification says and moves the state on. */
module SiftWriter {
  import opened SiftFormat
  import opened SiftWriterSpec

  /** The mapping of the i-th address, and what remains to be sent. */
  lemma MappingStep(cfg: Config, vas: seq<u64>, i: nat, mapped: set<u64>, done: seq<byte>)
    requires i < |vas|
    ensures var sends := NeedsMapping(cfg, vas[i], mapped);
      var piece := if sends then MappingRecord(cfg, vas[i]) else [];
      var after := if sends then mapped + {vas[i] / PAGE} else mapped;
      && done + MappingRecords(cfg, vas[i..], mapped) == (done + piece) + MappingRecords(cfg, vas[i + 1..], after)
      && MappedAfter(cfg, vas[i..], mapped) == MappedAfter(cfg, vas[i + 1..], after)
    ensures vas[0..] == vas && [] + MappingRecords(cfg, vas, mapped) == MappingRecords(cfg, vas, mapped)
  {
    hide NeedsMapping, MappingRecord;
    assert vas[i..][1..] == vas[i + 1..];
  }

  lemma MappingEnds(cfg: Config, vas: seq<u64>, mapped: set<u64>, done: seq<byte>)
    ensures done + MappingRecords(cfg, vas[|vas|..], mapped) == done
    ensures MappedAfter(cfg, vas[|vas|..], mapped) == mapped
  {
  }

  class Writer {
    const cfg: Config
    var output: seq<byte>
    var lastAddress: u64
    var icache: set<u64>
    var va2pa: set<u64>
    var ninstrs: nat
    var nbranch: nat
    var npredicate: nat
    var ninstrsmall: nat
    var ninstrext: nat

    constructor (cfg: Config)
      ensures this.cfg == cfg && output == [] && State() == INITIAL && Counted()
    {
      this.cfg := cfg;
      output, lastAddress, icache, va2pa := [], 0, {}, {};
      ninstrs, nbranch, npredicate, ninstrsmall, ninstrext := 0, 0, 0, 0, 0;
    }

    ghost function State(): WriterState
      reads this
    {
      WriterState(lastAddress, icache, va2pa)
    }

    /** Every instruction is either small or extended. */
    ghost predicate Counted()
      reads this
    {
      ninstrsmall + ninstrext == ninstrs && nbranch <= ninstrs && npredicate <= ninstrext
    }

    method Instruction(inst: Instruction)
      requires Accepted(inst) && Terminates(cfg, inst) && Counted()
      modifies this
      ensures output == old(output) + Bytes(cfg, old(State()), Execute(inst))
      ensures State() == After(cfg, old(State()), Execute(inst))
      ensures Counted() && ninstrs == old(ninstrs) + 1
      ensures ninstrsmall == old(ninstrsmall) + (if Simple(old(State()), inst) then 1 else 0)
    {
      hide CodeRecords, MappingRecords, SentAfter, MappedAfter, LE, U64s, SimpleByte, ExtByte;
      ghost var start := State();
      SendCode(inst);
      SendMappings(inst);
      assert InstructionRecord(State(), inst) == InstructionRecord(start, inst);
      SendRecord(inst);
      ninstrs := ninstrs + 1;
      nbranch := nbranch + Bit(inst.isBranch);
      npredicate := npredicate + Bit(inst.isPredicate);
      assert Bytes(cfg, start, Execute(inst))
          == CodeRecords(cfg, start, inst)
           + (MappingRecords(cfg, [inst.addr] + inst.addresses, start.mapped) + InstructionRecord(start, inst));
    }

    /** The code the reader will need and does not have yet. */
    method SendCode(inst: Instruction)
      requires Accepted(inst) && Terminates(cfg, inst)
      modifies `output, `icache
      ensures output == old(output) + CodeRecords(cfg, old(State()), inst)
      ensures icache == SentAfter(cfg, old(State()), inst)
    {
      hide LE, OtherHeader, Code;
      if !cfg.variable {
        SendPages(PageOf(inst.addr), LastPage(inst));
      } else if inst.addr !in icache {
        output := output + VariableRecord(cfg, inst.addr, inst.size);
        icache := icache + {inst.addr};
      } else {
        assert icache + {inst.addr} == icache;
      }
    }

    method SendPages(first: u64, last: u64)
      requires first % PAGE == 0 && last % PAGE == 0 && last < TOP_PAGE
      modifies `output, `icache
      ensures output == old(output) + PageRecords(cfg, first, last, old(icache))
      ensures icache == old(icache) + PagesFrom(first, last)
    {
      hide PageRecord, PageRecords, PagesFrom, Plus;
      var base: u64 := first;
      ghost var done := [];
      assert [] + PageRecords(cfg, first, last, icache) == PageRecords(cfg, first, last, icache);
      while Goes(base, last)
        invariant base % PAGE == 0
        invariant output == old(output) + done
        invariant done + PageRecords(cfg, base, last, icache) == PageRecords(cfg, first, last, old(icache))
        invariant icache + PagesFrom(base, last) == old(icache) + PagesFrom(first, last)
        decreases TOP_PAGE - base
      {
        ghost var sent := icache;
        ghost var piece := if base in icache then [] else PageRecord(cfg, base);
        PageStep(base, last, sent);
        if base !in icache {
          output := output + PageRecord(cfg, base);
          icache := icache + {base};
        }
        assert icache == sent + {base};
        base := Plus(base, PAGE);
        assert sent + ({base - PAGE} + PagesFrom(base, last)) == icache + PagesFrom(base, last);
        assert done + (piece + PageRecords(cfg, base, last, icache))
            == done + piece + PageRecords(cfg, base, last, icache);
        done := done + piece;
      }
      PageEnd(base, last, icache);
      assert done + [] == done;
      assert icache + {} == icache;
    }

    /** One turn of the loop. */
    lemma PageStep(base: u64, last: u64, sent: set<u64>)
      requires base % PAGE == 0 && last % PAGE == 0 && base <= last < TOP_PAGE
      ensures Plus(base, PAGE) == base + PAGE && Plus(base, PAGE) % PAGE == 0
      ensures PagesFrom(base, last) == {base} + PagesFrom(Plus(base, PAGE), last)
      ensures PageRecords(cfg, base, last, sent)
           == (if base in sent then [] else PageRecord(cfg, base))
           + PageRecords(cfg, Plus(base, PAGE), last, sent + {base})
    {
    }

    lemma PageEnd(base: u64, last: u64, sent: set<u64>)
      requires base % PAGE == 0 && last % PAGE == 0 && last < base && last < TOP_PAGE
      ensures PagesFrom(base, last) == {} && PageRecords(cfg, base, last, sent) == []
    {
    }

    /** The mappings of the pages an instruction runs on and accesses. */
    method SendMappings(inst: Instruction)
      modifies `output, `va2pa
      ensures output == old(output) + MappingRecords(cfg, [inst.addr] + inst.addresses, old(va2pa))
      ensures va2pa == MappedAfter(cfg, [inst.addr] + inst.addresses, old(va2pa))
    {
      hide NeedsMapping, MappingRecord, MappingRecords, MappedAfter;
      ghost var vas := [inst.addr] + inst.addresses;
      ghost var done := [];
      MappingStep(cfg, vas, 0, va2pa, done);
      SendVa2Pa(inst.addr);
      done := output[|old(output)|..];
      assert inst.addresses[0..] == vas[1..];
      for i := 0 to |inst.addresses|
        invariant output == old(output) + done
        invariant done + MappingRecords(cfg, vas[i + 1..], va2pa) == MappingRecords(cfg, vas, old(va2pa))
        invariant MappedAfter(cfg, vas[i + 1..], va2pa) == MappedAfter(cfg, vas, old(va2pa))
      {
        ghost var before := output;
        MappingStep(cfg, vas, i + 1, va2pa, done);
        SendVa2Pa(inst.addresses[i]);
        done := done + output[|before|..];
      }
      MappingEnds(cfg, vas, va2pa, done);
    }

    /** The instruction record, simple when the address was predicted. */
    method SendRecord(inst: Instruction)
      requires Accepted(inst)
      modifies `output, `lastAddress, `ninstrsmall, `ninstrext
      ensures output == old(output) + InstructionRecord(old(State()), inst)
      ensures lastAddress == Plus(inst.addr, inst.size)
      ensures ninstrsmall == old(ninstrsmall) + (if Simple(old(State()), inst) then 1 else 0)
      ensures ninstrext == old(ninstrext) + (if Simple(old(State()), inst) then 0 else 1)
    {
      hide LE, U64s, SimpleByte, ExtByte;
      var record;
      if inst.addr == lastAddress && !inst.isPredicate {
        record := [SimpleByte(inst.size, FlagsOf(inst))];
        ninstrsmall := ninstrsmall + 1;
      } else {
        record := [16 * inst.size, ExtByte(FlagsOf(inst))] + LE(inst.addr, 8);
        lastAddress := inst.addr;
        ninstrext := ninstrext + 1;
      }
      output := output + (record + U64s(inst.addresses));
      lastAddress := Plus(lastAddress, inst.size);
    }

    method SendVa2Pa(va: u64)
      modifies `output, `va2pa
      ensures output == old(output) + if NeedsMapping(cfg, va, old(va2pa)) then MappingRecord(cfg, va) else []
      ensures va2pa == if NeedsMapping(cfg, va, old(va2pa)) then old(va2pa) + {va / PAGE} else old(va2pa)
    {
      if cfg.sendsPhysical {
        var vp: u64 := va / PAGE;
        if vp !in va2pa {
          var pp := cfg.physical(vp);
          if pp != 0 {
            output := output + (OtherHeader(REC_LOGICAL2PHYSICAL, 16) + (LE(vp, 8) + LE(pp, 8)));
            va2pa := va2pa + {vp};
          }
        }
      }
    }

    method Output(fd: byte, data: seq<byte>)
      requires |data| < TWO_32
      modifies `output
      ensures output == old(output) + Bytes(cfg, old(State()), Call.Output(fd, data))
    {
      output := output + OtherHeader(REC_OUTPUT, 1 + |data|);
      output := output + [fd];
      output := output + data;
    }

    method RoutineChange(eip: u64, esp: u64, event: byte)
      modifies `output
      ensures output == old(output) + Bytes(cfg, old(State()), Call.RoutineChange(eip, esp, event))
    {
      hide LE, OtherHeader;
      var record := OtherHeader(REC_ROUTINE_CHANGE, 17);
      record := record + LE(eip, 8);
      record := record + LE(esp, 8);
      record := record + [event];
      assert record == OtherHeader(REC_ROUTINE_CHANGE, 17) + (LE(eip, 8) + (LE(esp, 8) + [event]));
      output := output + record;
    }

    method RoutineAnnounce(eip: u64, name: seq<byte>, imgname: seq<byte>, offset: u64, line: u32, column: u32,
                           filename: seq<byte>)
      modifies `output
      ensures output == old(output)
        + Bytes(cfg, old(State()), Call.RoutineAnnounce(eip, name, imgname, offset, line, column, filename))
    {
      hide LE, Sent, OtherHeader;
      var lenName, lenImgname, lenFilename := StringLength(name), StringLength(imgname), StringLength(filename);
      var record := OtherHeader(REC_ROUTINE_ANNOUNCE, 30 + lenName + lenImgname + lenFilename);
      record := record + LE(eip, 8);
      record := record + LE(lenName, 2);
      record := record + Sent(name);
      record := record + LE(lenImgname, 2);
      record := record + Sent(imgname);
      record := record + LE(offset, 8);
      record := record + LE(line, 4);
      record := record + LE(column, 4);
      record := record + LE(lenFilename, 2);
      record := record + Sent(filename);
      assert record == AnnounceRecord(Call.RoutineAnnounce(eip, name, imgname, offset, line, column, filename));
      output := output + record;
    }

    method End()
      modifies `output
      ensures output == old(output) + Stream(cfg, old(State()), [])
    {
      output := output + OtherHeader(REC_END, 0);
    }
  }
}
