/** What the trace writer appends to its output for each call, as a function of
    the state it keeps between calls. */
module SiftWriterSpec {
  import opened SiftFormat

  /** A call that reports one executed instruction. */
  datatype Instruction = Instruction(addr: u64, size: nat, addresses: seq<u64>, isBranch: bool, taken: bool,
                                     isPredicate: bool, executed: bool)

  datatype Call =
    | Execute(inst: Instruction)
    | Output(fd: byte, data: seq<byte>)
    | RoutineChange(eip: u64, esp: u64, event: byte)
    | RoutineAnnounce(eip: u64, name: seq<byte>, imgname: seq<byte>, offset: u64, line: u32, column: u32,
                      filename: seq<byte>)

  /** Options of the trace, the code memory of the traced program and its page map
      (0 for a page with no physical address). */
  datatype Config = Config(variable: bool, sendsPhysical: bool, code: u64 -> byte, physical: u64 -> u64)

  /** last is the predicted address of the next instruction; sent holds the pages,
      or in variable mode the instruction addresses, whose code was sent. */
  datatype WriterState = WriterState(last: u64, sent: set<u64>, mapped: set<u64>)

  const INITIAL: WriterState := WriterState(0, {}, {})

  function PageOf(a: u64): (p: u64)
    ensures p % PAGE == 0 && p <= a < p + PAGE
  {
    a - a % PAGE
  }

  function Plus(a: u64, n: int): u64 {
    (a + n) % TWO_64
  }

  function Code(cfg: Config, a: u64, n: nat): (s: seq<byte>)
    ensures |s| == n
    ensures forall i :: 0 <= i < n ==> s[i] == cfg.code(Plus(a, i))
  {
    seq<byte>(n, i requires 0 <= i < n => cfg.code(Plus(a, i)))
  }

  function PageRecord(cfg: Config, base: u64): seq<byte> {
    OtherHeader(REC_ICACHE, 8 + PAGE) + (LE(base, 8) + Code(cfg, base, PAGE))
  }

  function VariableRecord(cfg: Config, a: u64, size: nat): seq<byte> {
    OtherHeader(REC_ICACHE_VARIABLE, 8 + size) + (LE(a, 8) + Code(cfg, a, size))
  }

  /** The pages from base to last that were not sent before, when the loop over them ends. */
  function PageRecords(cfg: Config, base: u64, last: u64, sent: set<u64>): seq<byte>
    requires base % PAGE == 0 && last % PAGE == 0 && last < TOP_PAGE
    decreases TOP_PAGE - base
  {
    if base > last then []
    else (if base in sent then [] else PageRecord(cfg, base)) + PageRecords(cfg, base + PAGE, last, sent + {base})
  }

  function PagesFrom(base: u64, last: u64): set<u64>
    requires base % PAGE == 0 && last % PAGE == 0 && last < TOP_PAGE
    decreases TOP_PAGE - base
  {
    if base > last then {} else {base} + PagesFrom(base + PAGE, last)
  }

  function LastPage(inst: Instruction): u64 {
    PageOf(Plus(inst.addr, inst.size - 1))
  }

  // The loop over pages, on addresses that wrap around.

  /** Where the loop stands after n turns. */
  function Turns(base: u64, n: nat): u64 {
    if n == 0 then base else Plus(Turns(base, n - 1), PAGE)
  }

  /** The test of the loop. */
  predicate Goes(base: u64, last: u64) {
    base <= last
  }

  /** The loop ends: some test fails. */
  ghost predicate LoopEnds(inst: Instruction) {
    exists n: nat :: !Goes(Turns(PageOf(inst.addr), n), LastPage(inst))
  }

  lemma {:induction false} TurnsAligned(base: u64, n: nat)
    requires base % PAGE == 0
    ensures Turns(base, n) % PAGE == 0 && Turns(base, n) <= TOP_PAGE
  {
    if n > 0 {
      TurnsAligned(base, n - 1);
    }
  }

  /** Page by page, the loop gets past any page but the top one. */
  lemma {:induction false} TurnsPass(base: u64, last: u64, n: nat)
    requires base % PAGE == 0 && last % PAGE == 0 && last < TOP_PAGE
    requires n == if base <= last then (last - base) / PAGE + 1 else 0
    ensures !Goes(Turns(base, n), last)
    ensures base <= last ==> Turns(base, n) == last + PAGE
    decreases n
  {
    if base <= last {
      if last == base {
        assert Turns(base, 0) == base;
      } else {
        TurnsPass(base, last - PAGE, n - 1);
      }
    }
  }

  /** The loop over the pages of an instruction ends exactly when its last byte is not in
      the top page: no page comes after that one. */
  lemma PageLoopEndsExactly(inst: Instruction)
    ensures LoopEnds(inst) <==> LastPage(inst) < TOP_PAGE
  {
    var base, last := PageOf(inst.addr), LastPage(inst);
    if last < TOP_PAGE {
      TurnsPass(base, last, if base <= last then (last - base) / PAGE + 1 else 0);
    } else {
      forall n: nat
        ensures Goes(Turns(base, n), last)
      {
        TurnsAligned(base, n);
      }
    }
  }

  /** In terms of the call: it has no end for code that reaches into the top page but not
      over it, and for no code at all at address 0. */
  lemma LoopEndsWhere(inst: Instruction)
    requires Accepted(inst)
    ensures LoopEnds(inst) <==>
      if inst.size == 0 then 0 < inst.addr <= TOP_PAGE
      else inst.addr + inst.size <= TOP_PAGE || inst.addr + inst.size > TWO_64
  {
    PageLoopEndsExactly(inst);
  }

  /** Code that goes over the top of the address space: the loop is over before its first
      turn, and no page is sent. */
  lemma LoopSkippedExactly(inst: Instruction)
    requires Accepted(inst) && inst.size > 0
    ensures !Goes(PageOf(inst.addr), LastPage(inst)) <==> inst.addr + inst.size > TWO_64
  {
  }

  /** An instruction of four bytes near the top: its loop has no end. */
  lemma EndlessLoop()
    ensures var inst := Instruction(TWO_64 - 256, 4, [], false, false, false, true);
      Accepted(inst) && LastPage(inst) == TOP_PAGE && !LoopEnds(inst)
  {
    PageLoopEndsExactly(Instruction(TWO_64 - 256, 4, [], false, false, false, true));
  }

  /** Where the loop over pages ends. */
  predicate Terminates(cfg: Config, inst: Instruction) {
    cfg.variable || LastPage(inst) < TOP_PAGE
  }

  function CodeRecords(cfg: Config, ws: WriterState, inst: Instruction): seq<byte>
    requires Terminates(cfg, inst)
  {
    if cfg.variable then
      if inst.addr in ws.sent then [] else VariableRecord(cfg, inst.addr, inst.size)
    else PageRecords(cfg, PageOf(inst.addr), LastPage(inst), ws.sent)
  }

  function SentAfter(cfg: Config, ws: WriterState, inst: Instruction): set<u64>
    requires Terminates(cfg, inst)
  {
    if cfg.variable then ws.sent + {inst.addr} else ws.sent + PagesFrom(PageOf(inst.addr), LastPage(inst))
  }

  predicate NeedsMapping(cfg: Config, va: u64, mapped: set<u64>) {
    cfg.sendsPhysical && va / PAGE !in mapped && cfg.physical(va / PAGE) != 0
  }

  function MappingRecord(cfg: Config, va: u64): seq<byte> {
    OtherHeader(REC_LOGICAL2PHYSICAL, 16) + (LE(va / PAGE, 8) + LE(cfg.physical(va / PAGE), 8))
  }

  function MappedAfter(cfg: Config, vas: seq<u64>, mapped: set<u64>): set<u64> {
    if vas == [] then mapped
    else MappedAfter(cfg, vas[1..], if NeedsMapping(cfg, vas[0], mapped) then mapped + {vas[0] / PAGE} else mapped)
  }

  function MappingRecords(cfg: Config, vas: seq<u64>, mapped: set<u64>): seq<byte> {
    if vas == [] then []
    else if NeedsMapping(cfg, vas[0], mapped) then
      MappingRecord(cfg, vas[0]) + MappingRecords(cfg, vas[1..], mapped + {vas[0] / PAGE})
    else MappingRecords(cfg, vas[1..], mapped)
  }

  function FlagsOf(inst: Instruction): Flags {
    Flags(|inst.addresses|, inst.isBranch, inst.taken, inst.isPredicate, inst.executed)
  }

  /** What the writer asserts of its arguments. */
  predicate Accepted(inst: Instruction) {
    inst.size < 16 && |inst.addresses| <= 2
  }

  predicate Simple(ws: WriterState, inst: Instruction) {
    inst.addr == ws.last && !inst.isPredicate
  }

  function InstructionRecord(ws: WriterState, inst: Instruction): seq<byte>
    requires Accepted(inst)
  {
    (if Simple(ws, inst) then [SimpleByte(inst.size, FlagsOf(inst))]
     else [16 * inst.size, ExtByte(FlagsOf(inst))] + LE(inst.addr, 8))
    + U64s(inst.addresses)
  }

  /** Length of a C string with its terminator, in the 16 bits given to it. */
  function StringLength(s: seq<byte>): nat {
    (|s| + 1) % 65536
  }

  /** The bytes of a C string that are sent. */
  function Sent(s: seq<byte>): (r: seq<byte>)
    ensures |r| == StringLength(s)
  {
    (s + [0])[..StringLength(s)]
  }

  function StringField(s: seq<byte>): seq<byte> {
    LE(StringLength(s), 2) + Sent(s)
  }

  function AnnounceRecord(c: Call): seq<byte>
    requires c.RoutineAnnounce?
  {
    OtherHeader(REC_ROUTINE_ANNOUNCE,
                30 + StringLength(c.name) + StringLength(c.imgname) + StringLength(c.filename))
    + (LE(c.eip, 8) + (StringField(c.name) + (StringField(c.imgname)
    + (LE(c.offset, 8) + (LE(c.line, 4) + (LE(c.column, 4) + StringField(c.filename)))))))
  }

  predicate Callable(cfg: Config, c: Call) {
    c.Execute? ==> Accepted(c.inst) && Terminates(cfg, c.inst)
  }

  function Bytes(cfg: Config, ws: WriterState, c: Call): seq<byte>
    requires Callable(cfg, c)
  {
    match c
    case Execute(inst) =>
      CodeRecords(cfg, ws, inst)
      + (MappingRecords(cfg, [inst.addr] + inst.addresses, ws.mapped) + InstructionRecord(ws, inst))
    case Output(fd, data) =>
      OtherHeader(REC_OUTPUT, 1 + |data|) + ([fd] + data)
    case RoutineChange(eip, esp, event) =>
      OtherHeader(REC_ROUTINE_CHANGE, 17) + (LE(eip, 8) + (LE(esp, 8) + [event]))
    case RoutineAnnounce(_, _, _, _, _, _, _) =>
      AnnounceRecord(c)
  }

  function After(cfg: Config, ws: WriterState, c: Call): WriterState
    requires Callable(cfg, c)
  {
    match c
    case Execute(inst) =>
      WriterState(Plus(inst.addr, inst.size), SentAfter(cfg, ws, inst),
                  MappedAfter(cfg, [inst.addr] + inst.addresses, ws.mapped))
    case _ => ws
  }

  /** The stream for a run of calls followed by the end of the trace. */
  function Stream(cfg: Config, ws: WriterState, calls: seq<Call>): seq<byte>
    requires forall c :: c in calls ==> Callable(cfg, c)
    decreases |calls|
  {
    if calls == [] then OtherHeader(REC_END, 0)
    else Bytes(cfg, ws, calls[0]) + Stream(cfg, After(cfg, ws, calls[0]), calls[1..])
  }
}
