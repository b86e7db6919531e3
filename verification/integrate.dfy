/** Call ratios, and the integration of times along the calls of a profile without
    cycles of several functions. */
module Integrate {
  import opened Sets
  import opened Options
  import opened Graphs
  import opened WeightedGraphs
  import opened Propagation

  /** The results written so far: one for each function, one for each call. */
  datatype Events = Events(functions: map<FunctionId, Option<real>>, calls: map<FunctionId, seq<Option<real>>>)

  predicate Fits(fl: Flow, e: Events) {
    && e.functions.Keys == e.calls.Keys == fl.calls.Keys
    && forall f :: f in fl.calls ==> |e.calls[f]| == |fl.calls[f]|
  }

  ghost predicate Sound(fl: Flow, e: Events) {
    WellFormed(fl) && Acyclic(fl) && Fits(fl, e)
  }

  predicate Same(e0: Events, e1: Events, f: FunctionId)
    requires f in e0.functions && f in e0.calls && f in e1.functions && f in e1.calls
  {
    e0.functions[f] == e1.functions[f] && e0.calls[f] == e1.calls[f]
  }

  predicate Blank(e: Events, f: FunctionId)
    requires f in e.functions && f in e.calls
  {
    e.functions[f] == None && forall i :: 0 <= i < |e.calls[f]| ==> e.calls[f][i] == None
  }

  /** The result a call gets: a function's calls to itself get none. */
  ghost function CallResult(fl: Flow, f: FunctionId, i: nat): Option<real>
    requires WellFormed(fl) && Acyclic(fl) && f in fl.calls && i < |fl.calls[f]|
  {
    var c := fl.calls[f][i];
    if c.callee == f then None else Some(Times(RatioOf(fl, c), Total(fl, c.callee)))
  }

  ghost predicate IsTotal(fl: Flow, f: FunctionId, t: real) {
    WellFormed(fl) && Acyclic(fl) && f in fl.calls && t == Total(fl, f)
  }

  ghost predicate IsResult(fl: Flow, f: FunctionId, i: nat, t: real) {
    WellFormed(fl) && Acyclic(fl) && f in fl.calls && i < |fl.calls[f]| && Some(t) == CallResult(fl, f, i)
  }

  /** The calls of f before the i-th have their results, the others have none. */
  predicate AllBlank(e: Events) {
    forall f :: f in e.functions && f in e.calls ==> Blank(e, f)
  }

  ghost predicate AllDone(fl: Flow, e: Events) {
    forall f :: f in fl.calls ==> Done(fl, e, f)
  }

  ghost predicate Partly(fl: Flow, e: Events, f: FunctionId, i: nat) {
    && Sound(fl, e) && f in fl.calls && i <= |fl.calls[f]| && e.functions[f] == None
    && (forall j :: 0 <= j < i ==> e.calls[f][j] == CallResult(fl, f, j))
    && (forall j :: i <= j < |fl.calls[f]| ==> e.calls[f][j] == None)
  }

  ghost predicate Done(fl: Flow, e: Events, f: FunctionId) {
    && Sound(fl, e) && f in fl.calls
    && e.functions[f] == Some(Total(fl, f))
    && (forall j :: 0 <= j < |fl.calls[f]| ==> e.calls[f][j] == CallResult(fl, f, j))
  }

  /** All functions in ids have either all of their results or none. */
  ghost predicate Settled(fl: Flow, e: Events, ids: set<FunctionId>) {
    Sound(fl, e) && forall f :: f in ids && f in fl.calls ==> Blank(e, f) || Done(fl, e, f)
  }

  /** But for one function, what has changed is in ids and has all of its results. */
  ghost predicate Moves(fl: Flow, e0: Events, e1: Events, ids: set<FunctionId>, but: set<FunctionId>) {
    Sound(fl, e0) && Sound(fl, e1) && forall f :: f in fl.calls && f !in but ==>
      Same(e0, e1, f) || (f in ids && Done(fl, e1, f))
  }

  lemma SameDone(fl: Flow, e0: Events, e1: Events, f: FunctionId)
    requires Sound(fl, e0) && Sound(fl, e1) && f in fl.calls && Same(e0, e1, f)
    ensures Done(fl, e0, f) <==> Done(fl, e1, f)
    ensures Blank(e0, f) <==> Blank(e1, f)
  {
    hide CallResult, Total;
  }

  lemma MovesTrans(fl: Flow, e0: Events, e1: Events, e2: Events, ids: set<FunctionId>, fewer: set<FunctionId>,
                   but: set<FunctionId>)
    requires Sound(fl, e0) && Sound(fl, e1) && Sound(fl, e2) && fewer <= ids
    requires Moves(fl, e0, e1, ids, but) && Moves(fl, e1, e2, fewer, but)
    ensures Moves(fl, e0, e2, ids, but)
  {
    hide Done, WellFormed, Acyclic;
    forall f | f in fl.calls && f !in but
      ensures Same(e0, e2, f) || (f in ids && Done(fl, e2, f))
    {
      if Same(e1, e2, f) {
        SameDone(fl, e1, e2, f);
      }
    }
  }

  lemma MovesSettled(fl: Flow, e0: Events, e1: Events, ids: set<FunctionId>, but: set<FunctionId>,
                     some: set<FunctionId>)
    requires Sound(fl, e0) && Sound(fl, e1)
    requires Moves(fl, e0, e1, ids, but) && Settled(fl, e0, some) && some !! but
    ensures Settled(fl, e1, some)
  {
    hide Done, WellFormed, Acyclic;
    forall f | f in some && f in fl.calls
      ensures Blank(e1, f) || Done(fl, e1, f)
    {
      if Same(e0, e1, f) {
        SameDone(fl, e0, e1, f);
      }
    }
  }

  lemma MovesDone(fl: Flow, e0: Events, e1: Events, ids: set<FunctionId>, but: set<FunctionId>, f: FunctionId)
    requires Sound(fl, e0) && Sound(fl, e1) && f in fl.calls && f !in but
    requires Moves(fl, e0, e1, ids, but) && Done(fl, e0, f)
    ensures Done(fl, e1, f)
  {
    hide Done, WellFormed, Acyclic;
    if Same(e0, e1, f) {
      SameDone(fl, e0, e1, f);
    }
  }

  lemma PartlyKept(fl: Flow, e0: Events, e1: Events, f: FunctionId, i: nat, ids: set<FunctionId>)
    requires Sound(fl, e0) && Sound(fl, e1) && f in fl.calls
    requires Moves(fl, e0, e1, ids, {}) && f !in ids && Partly(fl, e0, f, i)
    ensures Partly(fl, e1, f, i)
  {
    hide WellFormed, Acyclic, CallResult, Done;
    assert Same(e0, e1, f);
  }

  lemma CallSet(fl: Flow, e0: Events, e1: Events, f: FunctionId, i: nat)
    requires Sound(fl, e0) && f in fl.calls && i < |fl.calls[f]|
    requires Partly(fl, e0, f, i)
    requires e1 == Events(e0.functions, e0.calls[f := e0.calls[f][i := CallResult(fl, f, i)]])
    ensures Partly(fl, e1, f, i + 1) && Moves(fl, e0, e1, {}, {f})
  {
    hide WellFormed, Acyclic, CallResult, Done;
  }

  lemma TotalSet(fl: Flow, e0: Events, e1: Events, f: FunctionId)
    requires Sound(fl, e0) && f in fl.calls
    requires Partly(fl, e0, f, |fl.calls[f]|)
    requires e1 == Events(e0.functions[f := Some(Total(fl, f))], e0.calls)
    ensures Done(fl, e1, f) && Moves(fl, e0, e1, {}, {f})
  {
    hide WellFormed, Acyclic, CallResult, Total;
  }

  lemma MovesAll(fl: Flow, e0: Events, e1: Events, ids: set<FunctionId>, f: FunctionId)
    requires Sound(fl, e0) && Sound(fl, e1) && f in fl.calls
    requires Moves(fl, e0, e1, ids, {f}) && f in ids && Done(fl, e1, f)
    ensures Moves(fl, e0, e1, ids, {})
  {
    hide WellFormed, Acyclic, Done, Same;
  }

  lemma Starts(fl: Flow, e: Events, f: FunctionId)
    requires Sound(fl, e) && f in fl.calls
    requires Settled(fl, e, Below(fl, f))
    ensures Moves(fl, e, e, Below(fl, f), {f}) && Moves(fl, e, e, Below(fl, f), {})
    ensures e.functions[f] == None ==> Partly(fl, e, f, 0)
    ensures e.functions[f] != None ==> Done(fl, e, f) && e.functions[f] == Some(Total(fl, f))
    ensures Total(fl, f) == fl.time[f] + Through(fl, f, 0)
  {
    BelowSelf(fl, f);
    hide CallResult, Below, Acyclic, WellFormed;
  }

  lemma DoneTotal(fl: Flow, e: Events, f: FunctionId)
    requires Sound(fl, e) && f in fl.calls && Done(fl, e, f)
    ensures e.functions[f] == Some(Total(fl, f))
  {
  }

  /** A function's call to itself is left alone. */
  lemma SelfSkipped(fl: Flow, e: Events, f: FunctionId, i: nat)
    requires Sound(fl, e) && f in fl.calls && i < |fl.calls[f]|
    requires Partly(fl, e, f, i) && fl.calls[f][i].callee == f
    ensures Partly(fl, e, f, i + 1)
  {
  }

  lemma ThroughStep(fl: Flow, f: FunctionId, i: nat)
    requires WellFormed(fl) && Acyclic(fl) && f in fl.calls && i < |fl.calls[f]|
    ensures Through(fl, f, i)
         == (if CallResult(fl, f, i) == None then 0.0 else CallResult(fl, f, i).value) + Through(fl, f, i + 1)
    ensures CallResult(fl, f, i) == None <==> fl.calls[f][i].callee == f
  {
  }

  lemma NothingLeft(fl: Flow, f: FunctionId)
    requires WellFormed(fl) && Acyclic(fl) && f in fl.calls
    ensures Through(fl, f, |fl.calls[f]|) == 0.0
  {
  }

  lemma CallFacts(fl: Flow, e: Events, f: FunctionId, i: nat, rates: map<FunctionId, seq<Option<real>>>)
    requires Sound(fl, e) && Rated(fl, rates)
    requires f in fl.calls && i < |fl.calls[f]| && Partly(fl, e, f, i) && fl.calls[f][i].callee != f
    ensures e.calls[f][i] == None
    ensures f in rates && i < |rates[f]| && rates[f][i] == Some(RatioOf(fl, fl.calls[f][i]))
    ensures CallResult(fl, f, i) == Some(Times(RatioOf(fl, fl.calls[f][i]), Total(fl, fl.calls[f][i].callee)))
  {
  }

  lemma BelowSelf(fl: Flow, f: FunctionId)
    requires f in fl.calls
    ensures f in Below(fl, f)
  {
    ReachSelf(CallGraph(fl), f);
  }

  /** What the i-th call of f may rely on when it is its turn. */
  lemma CalleeSettled(fl: Flow, e0: Events, e1: Events, f: FunctionId, i: nat)
    requires Sound(fl, e0) && Sound(fl, e1) && f in fl.calls && i < |fl.calls[f]|
    requires fl.calls[f][i].callee != f
    requires Settled(fl, e0, Below(fl, f)) && Moves(fl, e0, e1, Below(fl, f), {f})
    ensures Settled(fl, e1, Below(fl, fl.calls[f][i].callee))
  {
    var callee := fl.calls[f][i].callee;
    BelowSmaller(fl, f, i);
    hide WellFormed, Acyclic, Done, Same, Below, Moves, Blank;
    assert Settled(fl, e0, Below(fl, callee));
    MovesSettled(fl, e0, e1, Below(fl, f), {f}, Below(fl, callee));
  }

  /** The ratio of every call but those of a function to itself. */
  function Given(fl: Flow, f: FunctionId, i: nat): Option<real>
    requires WellFormed(fl) && f in fl.calls && i < |fl.calls[f]|
  {
    var c := fl.calls[f][i];
    if c.callee == f then None else Some(RatioOf(fl, c))
  }

  ghost predicate Rated(fl: Flow, rates: map<FunctionId, seq<Option<real>>>) {
    && WellFormed(fl) && rates.Keys == fl.calls.Keys
    && forall f :: f in fl.calls ==> RatedUpTo(fl, rates[f], f, |fl.calls[f]|)
  }

  ghost predicate RatedUpTo(fl: Flow, rates: seq<Option<real>>, f: FunctionId, i: nat)
    requires WellFormed(fl) && f in fl.calls
  {
    && i <= |rates| == |fl.calls[f]|
    && (forall j :: 0 <= j < i ==> rates[j] == Given(fl, f, j))
    && (forall j :: i <= j < |rates| ==> rates[j] == None)
  }

  // Integrating function after function.

  ghost predicate DoneBefore(fl: Flow, e: Events, k: nat) {
    k <= |fl.order| && forall j :: 0 <= j < k ==> Done(fl, e, fl.order[j])
  }

  ghost predicate SumLeft(fl: Flow, sum: real, k: nat) {
    && k <= |fl.order| && Within(fl.order, fl.time.Keys) && Within(fl.order[k..], fl.time.Keys)
    && sum + Sum(fl.order[k..], fl.time) == Sum(fl.order, fl.time)
  }

  lemma BlankSettled(fl: Flow, e: Events)
    requires Sound(fl, e) && AllBlank(e)
    ensures Settled(fl, e, fl.calls.Keys) && DoneBefore(fl, e, 0) && SumLeft(fl, 0.0, 0)
  {
    assert fl.order[0..] == fl.order;
  }

  lemma SettledBelow(fl: Flow, e: Events, f: FunctionId)
    requires Settled(fl, e, fl.calls.Keys)
    ensures Settled(fl, e, Below(fl, f))
  {
    hide Done, Blank;
  }

  lemma SumStep(fl: Flow, sum: real, k: nat)
    requires SumLeft(fl, sum, k) && k < |fl.order| && fl.order[k] in fl.time
    ensures SumLeft(fl, sum + fl.time[fl.order[k]], k + 1)
  {
    assert fl.order[k..][1..] == fl.order[k + 1..];
  }

  lemma SumDone(fl: Flow, sum: real)
    requires SumLeft(fl, sum, |fl.order|)
    ensures Within(fl.order, fl.time.Keys) && sum == Sum(fl.order, fl.time)
  {
  }

  lemma MovesSound(fl: Flow, e0: Events, e1: Events, ids: set<FunctionId>, but: set<FunctionId>)
    requires Moves(fl, e0, e1, ids, but)
    ensures Sound(fl, e0) && Sound(fl, e1)
  {
  }

  lemma DoneKnown(fl: Flow, e: Events, k: nat)
    requires DoneBefore(fl, e, k)
    ensures forall j :: 0 <= j < k ==> fl.order[j] in fl.calls
  {
  }

  lemma DoneStep(fl: Flow, e0: Events, e1: Events, k: nat)
    requires k < |fl.order| && Settled(fl, e0, fl.calls.Keys) && DoneBefore(fl, e0, k)
    requires Moves(fl, e0, e1, Below(fl, fl.order[k]), {}) && Done(fl, e1, fl.order[k])
    ensures Settled(fl, e1, fl.calls.Keys) && DoneBefore(fl, e1, k + 1)
  {
    hide Done, Moves, Settled, Below, Sound, Acyclic, WellFormed;
    MovesSound(fl, e0, e1, Below(fl, fl.order[k]), {});
    DoneKnown(fl, e0, k);
    MovesSettled(fl, e0, e1, Below(fl, fl.order[k]), {}, fl.calls.Keys);
    forall j | 0 <= j < k
      ensures Done(fl, e1, fl.order[j])
    {
      assert Done(fl, e0, fl.order[j]);
      MovesDone(fl, e0, e1, Below(fl, fl.order[k]), {}, fl.order[j]);
    }
  }

  lemma DoneAll(fl: Flow, e: Events)
    requires WellFormed(fl) && DoneBefore(fl, e, |fl.order|)
    ensures AllDone(fl, e)
  {
    hide Done;
    forall f | f in fl.calls
      ensures Done(fl, e, f)
    {
      assert f in Ids(fl.order);
      var j := IndexOf(fl.order, f);
    }
  }

  // The two passes over all calls.

  /** What the functions before the k-th have counted, with what is still to come, is
      the whole. */
  ghost predicate Counted(fl: Flow, totals: Values, k: nat) {
    && WellFormed(fl) && k <= |fl.order| && totals.Keys == fl.calls.Keys
    && forall g :: g in fl.calls ==> totals[g] + In(CountEdges(fl), fl.order[k..], g) == Incoming(fl, g)
  }

  /** The same with the calls of the k-th function counted up to the i-th. */
  ghost predicate CallsCounted(fl: Flow, totals: Values, k: nat, i: nat) {
    && WellFormed(fl) && k < |fl.order| && totals.Keys == fl.calls.Keys && i <= |fl.calls[fl.order[k]]|
    && forall g :: g in fl.calls ==>
      totals[g] + Into(Counts(fl.order[k], fl.calls[fl.order[k]][i..]), g) + In(CountEdges(fl), fl.order[k + 1..], g)
        == Incoming(fl, g)
  }

  lemma NothingCounted(fl: Flow)
    requires WellFormed(fl)
    ensures Counted(fl, map f | f in fl.calls :: 0.0, 0)
  {
    assert fl.order[0..] == fl.order;
  }

  lemma FunctionCounted(fl: Flow, totals: Values, k: nat)
    requires WellFormed(fl) && k < |fl.order|
    ensures Counted(fl, totals, k) ==> CallsCounted(fl, totals, k, 0)
    ensures fl.order[k] in Ids(fl.order)
    ensures CallsCounted(fl, totals, k, |fl.calls[fl.order[k]]|) ==> Counted(fl, totals, k + 1)
  {
    {
      assert fl.order[k..][1..] == fl.order[k + 1..];
      assert fl.calls[fl.order[k]][0..] == fl.calls[fl.order[k]];
      assert fl.calls[fl.order[k]][|fl.calls[fl.order[k]]|..] == [];
      hide Incoming;
    }
  }

  lemma CallCounted(fl: Flow, totals: Values, k: nat, i: nat)
    requires CallsCounted(fl, totals, k, i) && i < |fl.calls[fl.order[k]]|
    ensures fl.calls[fl.order[k]][i].callee in totals
    ensures var c := fl.calls[fl.order[k]][i];
      var more := if c.callee == fl.order[k] || c.count == None then totals
                  else totals[c.callee := totals[c.callee] + c.count.value];
      CallsCounted(fl, more, k, i + 1)
  {
    hide Incoming, In, Into, Counts;
    var f := fl.order[k];
    var c, calls := fl.calls[f][i], fl.calls[f][i..];
    assert calls[0] == c && calls[1..] == fl.calls[f][i + 1..];
    forall g
      ensures Into(Counts(f, calls), g) == Count(f, c, g) + Into(Counts(f, fl.calls[f][i + 1..]), g)
    {
      CountFirst(f, calls, g);
    }
  }

  lemma CountedAll(fl: Flow, totals: Values)
    requires Counted(fl, totals, |fl.order|)
    ensures totals.Keys == fl.calls.Keys && forall g :: g in totals ==> totals[g] == Incoming(fl, g)
  {
    assert fl.order[|fl.order|..] == [];
  }

  lemma NotYetRated(fl: Flow, rates: map<FunctionId, seq<Option<real>>>, k: nat, i: nat)
    requires CallsRated(fl, rates, k, i) && k < |fl.order| && i < |fl.calls[fl.order[k]]|
    ensures fl.order[k] in rates && i < |rates[fl.order[k]]| && rates[fl.order[k]][i] == None
  {
    assert RatedUpTo(fl, rates[fl.order[k]], fl.order[k], i);
  }

  /** The calls of the k-th function are rated up to the i-th, as are all calls of the
      functions before it. */
  ghost predicate CallsRated(fl: Flow, rates: map<FunctionId, seq<Option<real>>>, k: nat, i: nat) {
    && WellFormed(fl) && rates.Keys == fl.calls.Keys
    && forall j :: 0 <= j < |fl.order| ==>
      RatedUpTo(fl, rates[fl.order[j]], fl.order[j], if j < k then |fl.calls[fl.order[j]]| else if j == k then i else 0)
  }

  lemma CallRated(fl: Flow, rates: map<FunctionId, seq<Option<real>>>, k: nat, i: nat)
    requires CallsRated(fl, rates, k, i) && k < |fl.order| && i < |fl.calls[fl.order[k]]|
    ensures var f := fl.order[k];
      CallsRated(fl, if Given(fl, f, i) == None then rates else rates[f := rates[f][i := Given(fl, f, i)]], k, i + 1)
  {
    hide Given;
    var f := fl.order[k];
    assert RatedUpTo(fl, rates[f], f, i);
    assert RatedUpTo(fl, rates[f][i := Given(fl, f, i)], f, i + 1);
    assert Given(fl, f, i) == None ==> rates[f][i := Given(fl, f, i)] == rates[f];
  }

  lemma FunctionRated(fl: Flow, rates: map<FunctionId, seq<Option<real>>>, k: nat)
    requires k < |fl.order| && WellFormed(fl) && CallsRated(fl, rates, k, |fl.calls[fl.order[k]]|)
    ensures CallsRated(fl, rates, k + 1, 0)
  {
    hide RatedUpTo, WellFormed;
  }

  lemma AllRated(fl: Flow, rates: map<FunctionId, seq<Option<real>>>)
    requires CallsRated(fl, rates, |fl.order|, 0)
    ensures Rated(fl, rates)
  {
    hide RatedUpTo;
    forall f | f in fl.calls
      ensures RatedUpTo(fl, rates[f], f, |fl.calls[f]|)
    {
      assert f in Ids(fl.order);
      var j := IndexOf(fl.order, f);
    }
  }

  class Call {
    const callee: FunctionId
    const count: Option<real>
    var ratio: Option<real>
    var total: Option<real>

    constructor (callee: FunctionId, count: Option<real>)
      ensures this.callee == callee && this.count == count && ratio == None && total == None
    {
      this.callee, this.count, ratio, total := callee, count, None, None;
    }
  }

  class Function {
    const id: FunctionId
    const time: real
    const calls: seq<Call>
    var total: Option<real>

    constructor (id: FunctionId, time: real, calls: seq<Call>)
      ensures this.id == id && this.time == time && this.calls == calls && total == None
    {
      this.id, this.time, this.calls, total := id, time, calls, None;
    }
  }

  class Profile {
    const functions: map<FunctionId, Function>
    const order: seq<FunctionId>
    var total: Option<real>

    constructor (functions: map<FunctionId, Function>, order: seq<FunctionId>)
      ensures this.functions == functions && this.order == order && total == None
    {
      this.functions, this.order, total := functions, order, None;
    }

    ghost function AllCalls(): set<Call> {
      set f, i | f in functions && 0 <= i < |functions[f].calls| :: functions[f].calls[i]
    }

    ghost function DataOf(f: FunctionId): seq<CallData>
      requires f in functions
    {
      var calls := functions[f].calls;
      seq(|calls|, i requires 0 <= i < |calls| => CallData(calls[i].callee, calls[i].count))
    }

    ghost function Data(): Flow {
      Flow(order, map f | f in functions :: functions[f].time, map f | f in functions :: DataOf(f))
    }

    ghost predicate Keyed() {
      forall f :: f in functions ==> functions[f].id == f
    }

    ghost predicate HasCall(f: FunctionId, i: int) {
      f in functions && 0 <= i < |functions[f].calls|
    }

    ghost predicate IsCall(f: FunctionId, i: int, call: Call) {
      HasCall(f, i) && functions[f].calls[i] == call
    }

    /** Every call object stands in one place. */
    ghost predicate Unshared() {
      forall f, i, g, j :: HasCall(f, i) && HasCall(g, j) && functions[f].calls[i] == functions[g].calls[j] ==>
        f == g && i == j
    }

    ghost predicate Valid() {
      WellFormed(Data()) && Keyed() && Unshared()
    }

    ghost function RatesOf(f: FunctionId): seq<Option<real>>
      requires f in functions
      reads functions[f].calls
    {
      var calls := functions[f].calls;
      seq(|calls|, i requires 0 <= i < |calls| reads calls => calls[i].ratio)
    }

    ghost function ResultsOf(f: FunctionId): seq<Option<real>>
      requires f in functions
      reads functions[f].calls
    {
      var calls := functions[f].calls;
      seq(|calls|, i requires 0 <= i < |calls| reads calls => calls[i].total)
    }

    ghost function Rates(): map<FunctionId, seq<Option<real>>>
      reads AllCalls()
    {
      map f | f in functions :: RatesOf(f)
    }

    ghost function Now(): Events
      reads functions.Values, AllCalls()
    {
      Events(map f | f in functions :: functions[f].total,
             map f | f in functions :: ResultsOf(f))
    }

    method SetTotal(record: Function, t: real)
      requires Keyed() && record.id in functions && functions[record.id] == record
      modifies record`total
      ensures Rates() == old(Rates())
      ensures Now() == Events(old(Now()).functions[record.id := Some(t)], old(Now()).calls)
    {
      record.total := Some(t);
      forall f | f in functions
        ensures functions[f].total == if f == record.id then Some(t) else old(functions[f].total)
        ensures ResultsOf(f) == old(ResultsOf(f)) && RatesOf(f) == old(RatesOf(f))
      {
        assert functions[f].id == f;
      }
    }

    method SetCallTotal(f: FunctionId, i: nat, call: Call, t: real)
      requires Unshared() && IsCall(f, i, call)
      modifies call`total
      ensures Rates() == old(Rates())
      ensures Now() == Events(old(Now()).functions, old(Now()).calls[f := old(Now()).calls[f][i := Some(t)]])
    {
      call.total := Some(t);
      hide WellFormed;
      forall g | g in functions
        ensures RatesOf(g) == old(RatesOf(g))
        ensures ResultsOf(g) == if g == f then old(ResultsOf(f))[i := Some(t)] else old(ResultsOf(g))
      {
        assert HasCall(f, i);
        assert forall j :: 0 <= j < |functions[g].calls| ==> HasCall(g, j);
      }
    }

    method SetRatio(f: FunctionId, i: nat, call: Call, r: real)
      requires Unshared() && IsCall(f, i, call)
      modifies call`ratio
      ensures Rates() == old(Rates())[f := old(Rates())[f][i := Some(r)]]
    {
      call.ratio := Some(r);
      forall g | g in functions
        ensures RatesOf(g) == if g == f then old(RatesOf(f))[i := Some(r)] else old(RatesOf(g))
      {
        assert HasCall(f, i);
        assert forall j :: 0 <= j < |functions[g].calls| ==> HasCall(g, j);
      }
    }

    lemma NowFits()
      requires Valid()
      ensures WellFormed(Data()) && Keyed() && Unshared()
      ensures Fits(Data(), Now()) && Data().calls.Keys == functions.Keys
    {
    }

    lemma FunctionNow(f: FunctionId)
      requires f in functions
      ensures f in Data().calls && |Data().calls[f]| == |functions[f].calls|
      ensures f in Data().time && Data().time[f] == functions[f].time
      ensures f in Now().functions && Now().functions[f] == functions[f].total
    {
    }

    lemma CallNow(f: FunctionId, i: nat, call: Call)
      requires IsCall(f, i, call)
      ensures f in Data().calls && i < |Data().calls[f]| && Data().calls[f][i] == CallData(call.callee, call.count)
      ensures f in Now().calls && i < |Now().calls[f]| && Now().calls[f][i] == call.total
      ensures f in Rates() && i < |Rates()[f]| && Rates()[f][i] == call.ratio
    {
    }

    /** The profile is fl, and its calls have their ratios. */
    ghost predicate Ready(fl: Flow)
      reads AllCalls()
    {
      Valid() && fl == Data() && Acyclic(fl) && Rated(fl, Rates())
    }

    lemma ReadyFacts(fl: Flow)
      requires Ready(fl)
      ensures Sound(fl, Now()) && WellFormed(fl) && Acyclic(fl) && Valid() && Keyed() && Unshared()
      ensures fl == Data() && Rated(fl, Rates()) && fl.calls.Keys == functions.Keys
    {
      NowFits();
    }

    method IntegrateFunction(f: FunctionId, ghost fl: Flow) returns (t: real)
      requires Ready(fl) && f in functions && Settled(fl, Now(), Below(fl, f))
      modifies functions.Values`total, AllCalls()`total
      ensures Ready(fl) && Moves(fl, old(Now()), Now(), Below(fl, f), {})
      ensures Done(fl, Now(), f) && IsTotal(fl, f, t)
      decreases Below(fl, f), |functions[f].calls| + 1
    {
      hide Valid, Acyclic, Rated, Rates, Now, Data, Below, Total, CallResult, Settled;
      hide Moves, Partly, Done, Fits, WellFormed, Through, Keyed, Unshared, Sound;
      ReadyFacts(fl);
      FunctionNow(f);
      BelowSelf(fl, f);
      Starts(fl, Now(), f);
      var record := functions[f];
      if record.total == None {
        ghost var e0 := Now();
        var total := record.time;
        for i := 0 to |record.calls|
          invariant Ready(fl) && Partly(fl, Now(), f, i) && Moves(fl, e0, Now(), Below(fl, f), {f})
          invariant total + Through(fl, f, i) == Total(fl, f)
        {
          var call := record.calls[i];
          ghost var e1 := Now();
          ReadyFacts(fl);
          CallNow(f, i, call);
          ThroughStep(fl, f, i);
          if call.callee != f {
            CalleeSettled(fl, e0, e1, f, i);
            BelowSmaller(fl, f, i);
            var subtotal := IntegrateCall(f, i, call, fl);
            ReadyFacts(fl);
            MovesTrans(fl, e0, e1, Now(), Below(fl, f), Below(fl, call.callee), {f});
            total := total + subtotal;
          } else {
            SelfSkipped(fl, e1, f, i);
          }
        }
        ReadyFacts(fl);
        NothingLeft(fl, f);
        ghost var e2 := Now();
        SetTotal(record, total);
        ReadyFacts(fl);
        TotalSet(fl, e2, Now(), f);
        MovesTrans(fl, e0, e2, Now(), Below(fl, f), {}, {f});
        MovesAll(fl, e0, Now(), Below(fl, f), f);
      }
      FunctionNow(f);
      DoneTotal(fl, Now(), f);
      t := record.total.value;
    }

    /** The i-th call of f, which is to another function and has no result yet. */
    method IntegrateCall(f: FunctionId, i: nat, call: Call, ghost fl: Flow) returns (subtotal: real)
      requires Ready(fl) && IsCall(f, i, call) && call.callee != f
      requires Partly(fl, Now(), f, i) && Settled(fl, Now(), Below(fl, call.callee))
      modifies functions.Values`total, AllCalls()`total
      ensures Ready(fl) && Partly(fl, Now(), f, i + 1) && Moves(fl, old(Now()), Now(), Below(fl, call.callee), {f})
      ensures IsResult(fl, f, i, subtotal)
      decreases Below(fl, f), |functions[f].calls| - i
    {
      hide Valid, Acyclic, Rates, Now, Data, Below, Total, Settled, Moves, Partly;
      hide Done, Fits, WellFormed, Rated, RatioOf, CallResult, Keyed, Unshared, Times, Sound;
      ReadyFacts(fl);
      CallNow(f, i, call);
      BelowSmaller(fl, f, i);
      CallFacts(fl, Now(), f, i, Rates());
      KnownCallee(f, i);
      assert call.total == None && call.ratio != None;
      ghost var e0 := Now();
      var t := IntegrateFunction(call.callee, fl);
      ghost var e1 := Now();
      ReadyFacts(fl);
      PartlyKept(fl, e0, e1, f, i, Below(fl, call.callee));
      MovesBut(fl, e0, e1, Below(fl, call.callee), f);
      assert call.ratio == Some(RatioOf(fl, fl.calls[f][i])) && t == Total(fl, fl.calls[f][i].callee);
      subtotal := Times(call.ratio.value, t);
      assert Some(subtotal) == CallResult(fl, f, i);
      SetCallTotal(f, i, call, subtotal);
      ReadyFacts(fl);
      CallSet(fl, e1, Now(), f, i);
      MovesTrans(fl, e0, e1, Now(), Below(fl, call.callee), {}, {f});
    }

    /** Every call to another function gets its share of all such calls to its callee. */
    method CallRatios()
      requires Valid() && Unrated()
      modifies AllCalls()`ratio
      ensures Rated(Data(), Rates())
    {
      ghost var fl := Data();
      hide Valid, Data, Rates, Rated, Counted, CallsCounted, CallsRated, Keyed, Unshared, WellFormed, Fits, Now;
      NowFits();
      InOrderAll();
      var totals: map<FunctionId, real> := map f | f in functions :: 0.0;
      NothingCounted(fl);
      for k := 0 to |order|
        invariant Counted(fl, totals, k)
        modifies {}
      {
        totals := CountCalls(k, totals, fl);
      }
      CountedAll(fl, totals);
      NothingRated();
      for k := 0 to |order|
        invariant CallsRated(fl, Rates(), k, 0)
      {
        RateCalls(k, totals, fl);
      }
      AllRated(fl, Rates());
    }

    /** The first pass, at the k-th function. */
    method CountCalls(k: nat, before: map<FunctionId, real>, ghost fl: Flow) returns (totals: map<FunctionId, real>)
      requires Valid() && fl == Data() && k < |order| && Counted(fl, before, k)
      ensures Counted(fl, totals, k + 1)
    {
      hide Valid, Counted, CallsCounted, Data, Keyed, Unshared, WellFormed, Fits, Now, Rates;
      NowFits();
      InOrder(k);
      FunctionNow(order[k]);
      totals := before;
      var record := functions[order[k]];
      FunctionCounted(fl, totals, k);
      for i := 0 to |record.calls|
        invariant CallsCounted(fl, totals, k, i)
      {
        var call := record.calls[i];
        CallNow(order[k], i, call);
        CallCounted(fl, totals, k, i);
        if call.callee != record.id && call.count.Some? {
          totals := totals[call.callee := totals[call.callee] + call.count.value];
        }
      }
      FunctionCounted(fl, totals, k);
    }

    /** The second pass, at the k-th function. */
    method RateCalls(k: nat, totals: map<FunctionId, real>, ghost fl: Flow)
      requires Valid() && fl == Data() && k < |order|
      requires totals.Keys == fl.calls.Keys && forall g :: g in totals ==> totals[g] == Incoming(fl, g)
      requires CallsRated(fl, Rates(), k, 0)
      modifies AllCalls()`ratio
      ensures CallsRated(fl, Rates(), k + 1, 0)
    {
      hide Valid, CallsRated, Data, Rates, Keyed, Unshared, WellFormed, Fits, Now, Incoming;
      NowFits();
      InOrder(k);
      FunctionNow(order[k]);
      var record := functions[order[k]];
      for i := 0 to |record.calls|
        invariant CallsRated(fl, Rates(), k, i)
      {
        var call := record.calls[i];
        CallNow(order[k], i, call);
        CallRated(fl, Rates(), k, i);
        KnownCallee(order[k], i);
        NotYetRated(fl, Rates(), k, i);
        assert call.ratio == None;
        if call.callee != record.id {
          if call.count.Some? {
            SetRatio(order[k], i, call, Ratio(call.count.value, totals[call.callee]));
          } else {
            SetRatio(order[k], i, call, 0.0);
          }
        }
      }
      FunctionRated(fl, Rates(), k);
    }

    lemma InOrderAll()
      ensures order == Data().order
    {
    }

    ghost predicate Unrated()
      reads AllCalls()
    {
      forall f, i :: HasCall(f, i) ==> functions[f].calls[i].ratio == None
    }

    lemma InOrder(k: nat)
      requires Valid() && k < |order|
      ensures order == Data().order && order[k] in functions && functions[order[k]].id == order[k]
    {
      assert order[k] in Ids(Data().order);
    }

    lemma NothingRated()
      requires Valid() && Unrated()
      ensures CallsRated(Data(), Rates(), 0, 0)
    {
      var fl := Data();
      forall j | 0 <= j < |order|
        ensures RatedUpTo(fl, Rates()[order[j]], order[j], 0)
      {
        var f := order[j];
        InOrder(j);
        assert forall i :: 0 <= i < |functions[f].calls| ==> HasCall(f, i);
      }
    }

    /** Afterwards every function has its total, and the profile the sum of all times. */
    method Integrate()
      requires Ready(Data()) && total == None
      requires AllBlank(Now())
      modifies this`total, functions.Values`total, AllCalls()`total
      ensures Ready(Data()) && AllDone(Data(), Now())
      ensures total == Some(Sum(order, Data().time))
    {
      ghost var fl := Data();
      hide Ready, Valid, Settled, Moves, Done, AllBlank, AllDone, Data, Rates;
      hide Keyed, Unshared, WellFormed, Fits, Now, Sound, Below, Acyclic, Rated;
      ReadyFacts(fl);
      InOrderAll();
      BlankSettled(fl, Now());
      var sum := 0.0;
      for k := 0 to |order|
        invariant Ready(fl) && Settled(fl, Now(), fl.calls.Keys)
        invariant DoneBefore(fl, Now(), k)
        invariant SumLeft(fl, sum, k)
      {
        ghost var e := Now();
        ReadyFacts(fl);
        InOrder(k);
        FunctionNow(order[k]);
        SettledBelow(fl, e, order[k]);
        SumStep(fl, sum, k);
        sum := sum + functions[order[k]].time;
        var t := IntegrateFunction(order[k], fl);
        ReadyFacts(fl);
        DoneStep(fl, e, Now(), k);
      }
      SumDone(fl, sum);
      DoneAll(fl, Now());
      total := Some(sum);
      ReadyFacts(fl);
    }

    lemma KnownCallee(f: FunctionId, i: nat)
      requires Valid() && HasCall(f, i)
      ensures functions[f].calls[i].callee in functions
    {
      assert Data().calls[f][i].callee == functions[f].calls[i].callee;
    }
  }

  lemma MovesBut(fl: Flow, e0: Events, e1: Events, ids: set<FunctionId>, f: FunctionId)
    requires Sound(fl, e0) && Sound(fl, e1)
    requires Moves(fl, e0, e1, ids, {})
    ensures Moves(fl, e0, e1, ids, {f})
  {
    hide Done, Same, Acyclic, WellFormed;
  }
}
