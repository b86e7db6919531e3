/** Detection of spin loops from committed backward branches, register writes and
    stores. */
module SpinLoopDetector {
  import opened Sets

  const SDT_MAX_SIZE: nat := 16

  type Reg = int
  type Value = int

  /** A loop candidate: the address of its branch, its id, and when it was last seen. */
  datatype SdtEntry = SdtEntry(eip: int, id: nat, icount: int, tcount: int)

  /** A register that has changed: the value it had, and the loops concerned. A 16-bit
      mask is the set of the ids whose bit is set. */
  datatype RubEntry = RubEntry(value: Value, mask: set<nat>)

  datatype Detector = Detector(sdt: seq<SdtEntry>, rub: map<Reg, RubEntry>, mask: set<nat>, nextId: nat)

  const INITIAL: Detector := Detector([], map[], {}, 0)

  datatype Report = NoSpin | Spin(instructions: int, time: int)

  /** Where in the table a branch is, or the length of the table. */
  function Find(sdt: seq<SdtEntry>, eip: int): (i: nat)
    ensures i <= |sdt|
    ensures i < |sdt| ==> sdt[i].eip == eip
    ensures forall j :: 0 <= j < i ==> sdt[j].eip != eip
  {
    if sdt == [] || sdt[0].eip == eip then 0 else 1 + Find(sdt[1..], eip)
  }

  function Ids(sdt: seq<SdtEntry>): set<nat> {
    set i | 0 <= i < |sdt| :: sdt[i].id
  }

  function Cleared(rub: map<Reg, RubEntry>, id: nat): map<Reg, RubEntry> {
    map r | r in rub :: RubEntry(rub[r].value, rub[r].mask - {id})
  }

  predicate Unchanged(rub: map<Reg, RubEntry>, id: nat) {
    forall r :: r in rub ==> id !in rub[r].mask
  }

  function Added(sdt: seq<SdtEntry>, e: SdtEntry): seq<SdtEntry> {
    if |sdt| == SDT_MAX_SIZE then sdt[1..] + [e] else sdt + [e]
  }

  function AfterBranch(d: Detector, eip: int, icount: int, tcount: int): Detector {
    var i := Find(d.sdt, eip);
    if i == |d.sdt| then
      var sdt := Added(d.sdt, SdtEntry(eip, d.nextId, icount, tcount));
      Detector(sdt, d.rub, Ids(sdt), (d.nextId + 1) % SDT_MAX_SIZE)
    else
      d.(sdt := d.sdt[i := d.sdt[i].(icount := icount, tcount := tcount)], rub := Cleared(d.rub, d.sdt[i].id))
  }

  function BranchReport(d: Detector, eip: int, icount: int, tcount: int): Report {
    var i := Find(d.sdt, eip);
    if i < |d.sdt| && Unchanged(d.rub, d.sdt[i].id) then Spin(icount - d.sdt[i].icount, tcount - d.sdt[i].tcount)
    else NoSpin
  }

  function AfterStore(d: Detector): Detector {
    d.(sdt := [], rub := map[])
  }

  function AfterWrite(d: Detector, reg: Reg, oldValue: Value, value: Value): Detector {
    if reg !in d.rub then
      if value != oldValue then d.(rub := d.rub[reg := RubEntry(oldValue, d.mask)]) else d
    else if value == d.rub[reg].value then d.(rub := d.rub - {reg})
    else if value != oldValue then d.(rub := d.rub[reg := RubEntry(d.rub[reg].value, d.rub[reg].mask + d.mask)])
    else d
  }

  /** Ids are handed out in turn, so those in the table are the latest ones. */
  predicate IdsInTurn(d: Detector) {
    d.nextId < SDT_MAX_SIZE
    && forall i :: 0 <= i < |d.sdt| ==> d.sdt[i].id == (d.nextId + SDT_MAX_SIZE - |d.sdt| + i) % SDT_MAX_SIZE
  }

  /** The table is bounded, its branches and ids differ, and while it has entries the
      mask names exactly their ids. Nothing is recorded with an empty table. */
  predicate Valid(d: Detector) {
    && |d.sdt| <= SDT_MAX_SIZE
    && IdsInTurn(d)
    && (forall i, j :: 0 <= i < j < |d.sdt| ==> d.sdt[i].eip != d.sdt[j].eip)
    && (d.sdt != [] ==> d.mask == Ids(d.sdt))
    && (d.sdt == [] ==> d.rub == map[])
  }

  lemma DistinctIds(d: Detector)
    requires Valid(d)
    ensures forall i, j :: 0 <= i < j < |d.sdt| ==> d.sdt[i].id != d.sdt[j].id
    ensures forall i :: 0 <= i < |d.sdt| ==> d.sdt[i].id < SDT_MAX_SIZE
  {
  }

  // The detector as an object.

  class Detection {
    var sdt: seq<SdtEntry>
    var rub: map<Reg, RubEntry>
    var mask: set<nat>
    var nextId: nat

    constructor ()
      ensures State() == INITIAL
    {
      sdt, rub, mask, nextId := [], map[], {}, 0;
    }

    ghost function State(): Detector
      reads this
    {
      Detector(sdt, rub, mask, nextId)
    }

    predicate InCandidateSpin()
      reads this
    {
      sdt != []
    }

    method CommitBCT(eip: int, icount: int, tcount: int) returns (report: Report)
      requires |sdt| <= SDT_MAX_SIZE
      modifies this
      ensures State() == AfterBranch(old(State()), eip, icount, tcount)
      ensures report == BranchReport(old(State()), eip, icount, tcount)
    {
      report := NoSpin;
      var entry := 0;
      while entry < |sdt| && sdt[entry].eip != eip
        invariant entry <= |sdt| && forall j :: 0 <= j < entry ==> sdt[j].eip != eip
      {
        entry := entry + 1;
      }
      FindIs(sdt, eip, entry);
      if entry == |sdt| {
        Add(SdtEntry(eip, nextId, icount, tcount));
      } else {
        var spinning := ClearRub(sdt[entry].id);
        if spinning {
          report := Spin(icount - sdt[entry].icount, tcount - sdt[entry].tcount);
        }
        sdt := sdt[entry := sdt[entry].(icount := icount, tcount := tcount)];
      }
    }

    /** A new entry; the oldest goes when there are too many. */
    method Add(e: SdtEntry)
      requires |sdt| <= SDT_MAX_SIZE
      modifies `sdt, `nextId, `mask
      ensures sdt == Added(old(sdt), e) && mask == Ids(sdt) && nextId == (old(nextId) + 1) % SDT_MAX_SIZE
    {
      sdt := sdt + [e];
      nextId := (nextId + 1) % SDT_MAX_SIZE;
      if |sdt| > SDT_MAX_SIZE {
        sdt := sdt[1..];
        assert sdt == old(sdt)[1..] + [e];
      }
      ghost var table := sdt;
      mask := {};
      for i := 0 to |sdt|
        invariant sdt == table && mask == Ids(table[..i]) && nextId == (old(nextId) + 1) % SDT_MAX_SIZE
      {
        mask := mask + {sdt[i].id};
        assert table[..i + 1] == table[..i] + [table[i]];
        IdsMore(table[..i], table[i]);
      }
      assert table[..|table|] == table;
    }

    /** Takes a loop's bit from all recorded registers; true when none had it. */
    method ClearRub(id: nat) returns (spinning: bool)
      modifies `rub
      ensures rub == Cleared(old(rub), id) && (spinning <==> Unchanged(old(rub), id))
    {
      spinning := true;
      var left := rub.Keys;
      while left != {}
        invariant left <= rub.Keys == old(rub).Keys
        invariant forall r :: r in left ==> rub[r] == old(rub)[r]
        invariant forall r :: r in rub && r !in left ==> rub[r] == RubEntry(old(rub)[r].value, old(rub)[r].mask - {id})
        invariant spinning <==> forall r :: r in rub && r !in left ==> id !in old(rub)[r].mask
        decreases left
      {
        ghost var some := Member(left);
        var r :| r in left;
        left := left - {r};
        if id in rub[r].mask {
          spinning := false;
        }
        rub := rub[r := RubEntry(rub[r].value, rub[r].mask - {id})];
      }
      assert forall r :: r in rub ==> rub[r] == Cleared(old(rub), id)[r];
    }

    method CommitNonSilentStore()
      modifies this
      ensures State() == AfterStore(old(State()))
    {
      sdt := [];
      rub := map[];
    }

    method CommitRegisterWrite(reg: Reg, oldValue: Value, value: Value)
      modifies this
      ensures State() == AfterWrite(old(State()), reg, oldValue, value)
    {
      if reg !in rub {
        if value != oldValue {
          rub := rub[reg := RubEntry(oldValue, mask)];
        }
      } else if value == rub[reg].value {
        rub := rub - {reg};
      } else if value != oldValue {
        rub := rub[reg := RubEntry(rub[reg].value, rub[reg].mask + mask)];
      }
    }
  }

  lemma FindIs(sdt: seq<SdtEntry>, eip: int, i: nat)
    requires i <= |sdt| && (i < |sdt| ==> sdt[i].eip == eip) && forall j :: 0 <= j < i ==> sdt[j].eip != eip
    ensures Find(sdt, eip) == i
  {
  }

  lemma IdsMore(sdt: seq<SdtEntry>, e: SdtEntry)
    ensures Ids(sdt + [e]) == Ids(sdt) + {e.id}
  {
    var more := sdt + [e];
    forall x | x in Ids(sdt) + {e.id}
      ensures x in Ids(more)
    {
      if x in Ids(sdt) {
        var i :| 0 <= i < |sdt| && sdt[i].id == x;
        assert more[i].id == x;
      } else {
        assert more[|sdt|].id == x;
      }
    }
  }

  // A program run past the detector.

  /** What a thread commits. Stores that change nothing are not committed here. */
  datatype Event = Branch(eip: int, icount: int, tcount: int) | Store | Write(reg: Reg, value: Value)

  /** The detector and the registers of the thread it watches. */
  datatype World = World(d: Detector, regs: Reg -> Value)

  /** Register writes are passed on only while the table has entries. */
  function Next(w: World, e: Event): World {
    match e
    case Branch(eip, icount, tcount) => w.(d := AfterBranch(w.d, eip, icount, tcount))
    case Store => w.(d := AfterStore(w.d))
    case Write(reg, value) =>
      World(if w.d.sdt != [] then AfterWrite(w.d, reg, w.regs(reg), value) else w.d,
            r => if r == reg then value else w.regs(r))
  }

  function After(w: World, events: seq<Event>): World
    decreases |events|
  {
    if events == [] then w else After(Next(w, events[0]), events[1..])
  }

  /** The turn of an id does not depend on how often the counter has gone round. */
  lemma TurnKept(nextId: nat, n: nat, i: nat)
    requires nextId < SDT_MAX_SIZE && i <= n < SDT_MAX_SIZE
    ensures ((nextId + 1) % SDT_MAX_SIZE + SDT_MAX_SIZE - (n + 1) + i) % SDT_MAX_SIZE
         == (nextId + SDT_MAX_SIZE - n + i) % SDT_MAX_SIZE
  {
  }

  lemma AddedInTurn(d: Detector, eip: int, icount: int, tcount: int)
    requires Valid(d) && Find(d.sdt, eip) == |d.sdt|
    ensures IdsInTurn(AfterBranch(d, eip, icount, tcount))
  {
    var d' := AfterBranch(d, eip, icount, tcount);
    forall i | 0 <= i < |d'.sdt|
      ensures d'.sdt[i].id == (d'.nextId + SDT_MAX_SIZE - |d'.sdt| + i) % SDT_MAX_SIZE
    {
      if |d.sdt| < SDT_MAX_SIZE {
        TurnKept(d.nextId, |d.sdt|, i);
      } else {
        TurnKept(d.nextId, SDT_MAX_SIZE - 1, i);
        if i < SDT_MAX_SIZE - 1 {
          assert d'.sdt[i] == d.sdt[i + 1];
        }
      }
    }
  }

  lemma AddedValid(d: Detector, eip: int, icount: int, tcount: int)
    requires Valid(d) && Find(d.sdt, eip) == |d.sdt|
    ensures Valid(AfterBranch(d, eip, icount, tcount))
  {
    AddedInTurn(d, eip, icount, tcount);
    hide IdsInTurn;
    var d' := AfterBranch(d, eip, icount, tcount);
    if |d.sdt| == SDT_MAX_SIZE {
      assert forall i :: 0 <= i < SDT_MAX_SIZE - 1 ==> d'.sdt[i] == d.sdt[i + 1];
    }
  }

  lemma NextValid(w: World, e: Event)
    requires Valid(w.d)
    ensures Valid(Next(w, e).d)
  {
    if e.Branch? {
      var i := Find(w.d.sdt, e.eip);
      if i == |w.d.sdt| {
        AddedValid(w.d, e.eip, e.icount, e.tcount);
      } else {
        var sdt := Next(w, e).d.sdt;
        assert forall j :: 0 <= j < |sdt| ==> sdt[j].id == w.d.sdt[j].id && sdt[j].eip == w.d.sdt[j].eip;
        assert Ids(sdt) == Ids(w.d.sdt);
      }
    }
  }

  /** Every state a thread can bring the detector to is a valid one. */
  lemma {:induction false} RunValid(w: World, events: seq<Event>)
    requires Valid(w.d)
    ensures Valid(After(w, events).d)
    decreases |events|
  {
    if events != [] {
      NextValid(w, events[0]);
      RunValid(Next(w, events[0]), events[1..]);
    }
  }

  // What a revisit of the first loop after a clear can tell. The loop's last branch is
  // its last visit; first and last give the registers at its first and at its last one,
  // and written tells which registers a write has changed since the last.

  type Regs = Reg -> Value

  type Marks = Reg -> bool

  function LastAfter(w: World, e: Event, eip: int, last: Regs): Regs {
    if e.Branch? && e.eip == eip then w.regs else last
  }

  function WrittenAfter(w: World, e: Event, eip: int, written: Marks): Marks {
    match e
    case Branch(other, _, _) => if other == eip then r => false else written
    case Store => written
    case Write(reg, value) => r => written(r) || (r == reg && value != w.regs(r))
  }

  /** The registers at the last visit, after a run. */
  function Last(w: World, events: seq<Event>, eip: int, last: Regs): Regs
    decreases |events|
  {
    if events == [] then last else Last(Next(w, events[0]), events[1..], eip, LastAfter(w, events[0], eip, last))
  }

  /** The registers changed by a write since the last visit, after a run. */
  function Written(w: World, events: seq<Event>, eip: int, written: Marks): Marks
    decreases |events|
  {
    if events == [] then written
    else Written(Next(w, events[0]), events[1..], eip, WrittenAfter(w, events[0], eip, written))
  }

  /** With id the loop's id: exactly the registers that differ from the first visit are
      recorded, with their value then, and for this loop if written since its last. */
  ghost predicate Tracks(w: World, first: Regs, written: Marks, eip: int, id: nat) {
    && Valid(w.d)
    && (exists i :: 0 <= i < |w.d.sdt| && w.d.sdt[i].eip == eip && w.d.sdt[i].id == id)
    && (forall r :: r in w.d.rub <==> w.regs(r) != first(r))
    && (forall r :: r in w.d.rub ==> w.d.rub[r].value == first(r) && (id in w.d.rub[r].mask <==> written(r)))
  }

  /** A register that no write has changed has the value it had. */
  ghost predicate Since(w: World, last: Regs, written: Marks) {
    forall r :: !written(r) ==> w.regs(r) == last(r)
  }

  /** The first branch after a clear starts it. */
  lemma FirstBranchTracks(w: World, eip: int, icount: int, tcount: int)
    requires Valid(w.d) && w.d.sdt == []
    ensures Tracks(Next(w, Branch(eip, icount, tcount)), w.regs, r => false, eip, w.d.nextId)
  {
    NextValid(w, Branch(eip, icount, tcount));
    var w' := Next(w, Branch(eip, icount, tcount));
    assert w'.d.sdt[0].eip == eip && w'.d.sdt[0].id == w.d.nextId;
  }

  lemma InTable(sdt: seq<SdtEntry>, eip: int, i: nat)
    requires i < |sdt| && sdt[i].eip == eip
    ensures Find(sdt, eip) < |sdt|
  {
  }

  lemma WriteTracks(w: World, reg: Reg, value: Value, first: Regs, written: Marks, eip: int, id: nat)
    requires Tracks(w, first, written, eip, id)
    ensures Tracks(Next(w, Write(reg, value)), first, WrittenAfter(w, Write(reg, value), eip, written), eip, id)
  {
    NextValid(w, Write(reg, value));
    hide Valid;
    var w', written' := Next(w, Write(reg, value)), WrittenAfter(w, Write(reg, value), eip, written);
    var i :| 0 <= i < |w.d.sdt| && w.d.sdt[i].eip == eip && w.d.sdt[i].id == id;
    assert w'.d.sdt[i] == w.d.sdt[i];
    assert id in w.d.mask by {
      assert id in Ids(w.d.sdt);
    }
    hide Ids;
    forall r
      ensures r in w'.d.rub <==> w'.regs(r) != first(r)
      ensures r in w'.d.rub ==> w'.d.rub[r].value == first(r) && (id in w'.d.rub[r].mask <==> written'(r))
    {
    }
  }

  /** A branch of another loop. */
  lemma BranchTracks(w: World, other: int, icount: int, tcount: int, first: Regs, written: Marks, eip: int, id: nat)
    requires Tracks(w, first, written, eip, id) && other != eip
    requires Find(Next(w, Branch(other, icount, tcount)).d.sdt, eip) < |Next(w, Branch(other, icount, tcount)).d.sdt|
    ensures Tracks(Next(w, Branch(other, icount, tcount)), first, written, eip, id)
  {
    var w' := Next(w, Branch(other, icount, tcount));
    var i :| 0 <= i < |w.d.sdt| && w.d.sdt[i].eip == eip && w.d.sdt[i].id == id;
    var k := Find(w.d.sdt, other);
    var j := Find(w'.d.sdt, eip);
    DistinctIds(w.d);
    NextValid(w, Branch(other, icount, tcount));
    hide Valid;
    if k == |w.d.sdt| && |w.d.sdt| == SDT_MAX_SIZE {
      assert w'.d.sdt[j] == w.d.sdt[j + 1];
      assert j + 1 == i;
    } else {
      assert w'.d.sdt[i] == w.d.sdt[i];
    }
  }

  lemma FoundAt(w: World, first: Regs, written: Marks, eip: int, id: nat)
    requires Tracks(w, first, written, eip, id)
    ensures Find(w.d.sdt, eip) < |w.d.sdt| && w.d.sdt[Find(w.d.sdt, eip)].id == id
  {
    var i :| 0 <= i < |w.d.sdt| && w.d.sdt[i].eip == eip && w.d.sdt[i].id == id;
    InTable(w.d.sdt, eip, i);
    assert Find(w.d.sdt, eip) == i;
  }

  /** A visit of the loop itself. */
  lemma VisitTracks(w: World, icount: int, tcount: int, first: Regs, written: Marks, eip: int, id: nat)
    requires Tracks(w, first, written, eip, id)
    ensures Tracks(Next(w, Branch(eip, icount, tcount)), first, r => false, eip, id)
  {
    FoundAt(w, first, written, eip, id);
    NextValid(w, Branch(eip, icount, tcount));
    hide Valid;
    var w', i := Next(w, Branch(eip, icount, tcount)), Find(w.d.sdt, eip);
    assert w'.d.sdt[i].eip == eip && w'.d.sdt[i].id == id;
  }

  /** Register writes and branches carry it on, unless the loop drops out of the table. */
  lemma NextTracks(w: World, e: Event, first: Regs, last: Regs, written: Marks, eip: int, id: nat)
    requires Tracks(w, first, written, eip, id) && Since(w, last, written) && !e.Store?
    requires Find(Next(w, e).d.sdt, eip) < |Next(w, e).d.sdt|
    ensures Tracks(Next(w, e), first, WrittenAfter(w, e, eip, written), eip, id)
    ensures Since(Next(w, e), LastAfter(w, e, eip, last), WrittenAfter(w, e, eip, written))
  {
    hide Tracks, Find, AfterBranch, AfterWrite;
    match e
    case Write(reg, value) => WriteTracks(w, reg, value, first, written, eip, id);
    case Branch(other, icount, tcount) =>
      if other == eip {
        VisitTracks(w, icount, tcount, first, written, eip, id);
      } else {
        BranchTracks(w, other, icount, tcount, first, written, eip, id);
      }
  }

  /** None of these is a store, and none drops the loop out of the table. */
  ghost predicate Stays(w: World, events: seq<Event>, eip: int)
    decreases |events|
  {
    events != [] ==>
      && !events[0].Store? && Find(Next(w, events[0]).d.sdt, eip) < |Next(w, events[0]).d.sdt|
      && Stays(Next(w, events[0]), events[1..], eip)
  }

  lemma {:induction false} RunTracks(w: World, events: seq<Event>, first: Regs, last: Regs, written: Marks, eip: int,
                                     id: nat)
    requires Tracks(w, first, written, eip, id) && Since(w, last, written) && Stays(w, events, eip)
    ensures Tracks(After(w, events), first, Written(w, events, eip, written), eip, id)
    ensures Since(After(w, events), Last(w, events, eip, last), Written(w, events, eip, written))
    decreases |events|
  {
    if events != [] {
      NextTracks(w, events[0], first, last, written, eip, id);
      hide Tracks, Next, Since, WrittenAfter, LastAfter;
      RunTracks(Next(w, events[0]), events[1..], first, LastAfter(w, events[0], eip, last),
                WrittenAfter(w, events[0], eip, written), eip, id);
    }
  }

  /** Any revisit of the first loop after a clear is reported as spinning exactly when
      every register written since its last visit is back at its value of the first. */
  lemma LaterRevisitExact(w: World, eip: int, icount: int, tcount: int, events: seq<Event>, icount': int, tcount': int)
    requires Valid(w.d) && w.d.sdt == []
    requires Stays(Next(w, Branch(eip, icount, tcount)), events, eip)
    ensures
      var start := Next(w, Branch(eip, icount, tcount));
      var w', written := After(start, events), Written(start, events, eip, r => false);
      && (BranchReport(w'.d, eip, icount', tcount').Spin? <==> forall r :: written(r) ==> w'.regs(r) == w.regs(r))
      && (forall r :: !written(r) ==> w'.regs(r) == Last(start, events, eip, w.regs)(r))
  {
    FirstBranchTracks(w, eip, icount, tcount);
    var start := Next(w, Branch(eip, icount, tcount));
    assert Since(start, w.regs, r => false);
    RunTracks(start, events, w.regs, w.regs, r => false, eip, w.d.nextId);
    var w', written := After(start, events), Written(start, events, eip, r => false);
    FoundAt(w', w.regs, written, eip, w.d.nextId);
    hide After, Written, Find;
    forall r | written(r) && w'.regs(r) != w.regs(r)
      ensures !Unchanged(w'.d.rub, w.d.nextId)
    {
      assert r in w'.d.rub && w.d.nextId in w'.d.rub[r].mask;
    }
  }

  /** The report says whether no register differs from the last visit exactly when the
      registers written since all had, at the last visit, their values of the first; or
      when some of them now differs from the first visit and some from the last, so that
      both answers are no. */
  lemma RevisitTrueExactly(w: World, eip: int, icount: int, tcount: int, events: seq<Event>, icount': int, tcount': int)
    requires Valid(w.d) && w.d.sdt == []
    requires Stays(Next(w, Branch(eip, icount, tcount)), events, eip)
    ensures
      var start := Next(w, Branch(eip, icount, tcount));
      var w', last := After(start, events), Last(start, events, eip, w.regs);
      var written := Written(start, events, eip, r => false);
      (BranchReport(w'.d, eip, icount', tcount').Spin? <==> forall r :: w'.regs(r) == last(r))
      <==>
      ((forall r :: written(r) ==> last(r) == w.regs(r))
       || ((exists r :: written(r) && w'.regs(r) != w.regs(r)) && (exists r :: written(r) && w'.regs(r) != last(r))))
  {
    LaterRevisitExact(w, eip, icount, tcount, events, icount', tcount');
  }

  /** No branch of this loop is among them. */
  predicate Interleaved(events: seq<Event>, eip: int) {
    forall i :: 0 <= i < |events| && events[i].Branch? ==> events[i].eip != eip
  }

  lemma {:induction false} LastIsFirst(w: World, events: seq<Event>, eip: int, last: Regs)
    requires Interleaved(events, eip)
    ensures Last(w, events, eip, last) == last
    decreases |events|
  {
    if events != [] {
      LastIsFirst(Next(w, events[0]), events[1..], eip, last);
    }
  }

  /** At its first revisit that loop is reported as spinning exactly when every register
      has the value it had at the first visit, whatever ran in between. */
  lemma FirstRevisitExact(w: World, eip: int, icount: int, tcount: int, events: seq<Event>, icount': int, tcount': int)
    requires Valid(w.d) && w.d.sdt == []
    requires Stays(Next(w, Branch(eip, icount, tcount)), events, eip) && Interleaved(events, eip)
    ensures
      var w' := After(Next(w, Branch(eip, icount, tcount)), events);
      BranchReport(w'.d, eip, icount', tcount').Spin? <==> forall r :: w'.regs(r) == w.regs(r)
  {
    LaterRevisitExact(w, eip, icount, tcount, events, icount', tcount');
    LastIsFirst(Next(w, Branch(eip, icount, tcount)), events, eip, w.regs);
  }

  /** A later revisit can be wrong: a register that goes 0, 1, 0 makes the second revisit
      of a loop look like spinning though it differs from the first. */
  lemma LaterRevisitFooled()
    ensures
      var w0 := World(INITIAL, r => 0);
      var w1 := After(w0, [Branch(8, 0, 0), Write(5, 1)]);
      var w2 := After(w1, [Branch(8, 10, 10), Write(5, 0)]);
      BranchReport(w1.d, 8, 10, 10) == NoSpin && BranchReport(w2.d, 8, 20, 20).Spin? && w1.regs(5) != w2.regs(5)
  {
    var w0 := World(INITIAL, r => 0);
    var a := Next(w0, Branch(8, 0, 0));
    assert a.d.sdt == [SdtEntry(8, 0, 0, 0)];
    assert a.d.mask == {0} by {
      assert a.d.sdt[0].id == 0;
    }
    var w1 := Next(a, Write(5, 1));
    assert w1.d.rub == map[5 := RubEntry(0, {0})];
    assert [Branch(8, 0, 0), Write(5, 1)][1..] == [Write(5, 1)] && [Write(5, 1)][1..] == [];
    assert After(w0, [Branch(8, 0, 0), Write(5, 1)]) == w1;
    var b := Next(w1, Branch(8, 10, 10));
    assert Find(w1.d.sdt, 8) == 0;
    assert 0 in w1.d.rub[5].mask;
    assert b.d.rub == map[5 := RubEntry(0, {})] by {
      assert {0} - {0} == {};
    }
    var w2 := Next(b, Write(5, 0));
    assert w2.d.rub == map[];
    assert [Branch(8, 10, 10), Write(5, 0)][1..] == [Write(5, 0)] && [Write(5, 0)][1..] == [];
    assert After(w2, []) == w2;
    assert After(b, [Write(5, 0)]) == w2;
    assert After(w1, [Branch(8, 10, 10), Write(5, 0)]) == w2;
    assert Find(w2.d.sdt, 8) == 0;
  }
}
