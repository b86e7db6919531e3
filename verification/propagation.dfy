/** What flows along the calls of a profile: every function's total is its own time and
    its share of the totals of the functions it calls. */
module Propagation {
  import opened Sets
  import opened Options
  import opened Graphs
  import FindCycles
  import opened WeightedGraphs

  /** A call, and how often it was made, when that is known. */
  datatype CallData = CallData(callee: FunctionId, count: Option<real>)

  /** order is the order in which the dictionary of functions is visited. */
  datatype Flow = Flow(order: seq<FunctionId>, time: Values, calls: map<FunctionId, seq<CallData>>)

  function Callees(calls: seq<CallData>): seq<FunctionId> {
    seq(|calls|, i requires 0 <= i < |calls| => calls[i].callee)
  }

  function CallGraph(fl: Flow): Graph {
    map f | f in fl.calls :: Callees(fl.calls[f])
  }

  predicate WellFormed(fl: Flow) {
    && Distinct(fl.order) && Ids(fl.order) == fl.calls.Keys == fl.time.Keys
    && forall f, i :: f in fl.calls && 0 <= i < |fl.calls[f]| ==> fl.calls[f][i].callee in fl.calls
  }

  /** No cycles but functions that call themselves. */
  ghost predicate Acyclic(fl: Flow) {
    forall a, b :: Mutual(CallGraph(fl), a, b) ==> a == b
  }

  /** These are the profiles in which finding cycles leaves every function without one. */
  lemma AcyclicExactly(fl: Flow)
    requires WellFormed(fl)
    ensures Acyclic(fl) <==> forall f :: f in fl.calls ==> !FindCycles.Cyclic(CallGraph(fl), f)
  {
    var g := CallGraph(fl);
    if forall f :: f in fl.calls ==> !FindCycles.Cyclic(g, f) {
      forall a, b | Mutual(g, a, b)
        ensures a == b
      {
        ReachInside(g, a, b);
        assert a in fl.calls && !FindCycles.Cyclic(g, a);
      }
    }
  }

  // Ratios.

  /** Cut to between 0 and 1; whatever is divided by zero gives 1. */
  function Ratio(numerator: real, denominator: real): (r: real)
    ensures 0.0 <= r <= 1.0
  {
    if denominator == 0.0 then 1.0
    else
      var r := numerator / denominator;
      if r < 0.0 then 0.0 else if r > 1.0 then 1.0 else r
  }

  /** The calls to others whose counts are known. */
  function Counts(f: FunctionId, calls: seq<CallData>): seq<Edge> {
    if calls == [] then []
    else if calls[0].callee == f || calls[0].count == None then Counts(f, calls[1..])
    else [Edge(calls[0].callee, calls[0].count.value)] + Counts(f, calls[1..])
  }

  function CountEdges(fl: Flow): Edges {
    map f | f in fl.calls :: Counts(f, fl.calls[f])
  }

  /** How often others call g. */
  function Incoming(fl: Flow, g: FunctionId): real
    requires WellFormed(fl)
  {
    In(CountEdges(fl), fl.order, g)
  }

  function RatioOf(fl: Flow, c: CallData): (r: real)
    requires WellFormed(fl)
    ensures 0.0 <= r <= 1.0
  {
    if c.count == None then 0.0 else Ratio(c.count.value, Incoming(fl, c.callee))
  }

  function Ratios(fl: Flow, f: FunctionId, calls: seq<CallData>): seq<Edge>
    requires WellFormed(fl)
  {
    if calls == [] then []
    else if calls[0].callee == f then Ratios(fl, f, calls[1..])
    else [Edge(calls[0].callee, RatioOf(fl, calls[0]))] + Ratios(fl, f, calls[1..])
  }

  function RatioEdges(fl: Flow): Edges
    requires WellFormed(fl)
  {
    map f | f in fl.calls :: Ratios(fl, f, fl.calls[f])
  }

  /** The calls to others whose counts are known, each as one. */
  function Ones(f: FunctionId, calls: seq<CallData>): seq<Edge> {
    if calls == [] then []
    else if calls[0].callee == f || calls[0].count == None then Ones(f, calls[1..])
    else [Edge(calls[0].callee, 1.0)] + Ones(f, calls[1..])
  }

  function OneEdges(fl: Flow): Edges {
    map f | f in fl.calls :: Ones(f, fl.calls[f])
  }

  /** The number of counted calls that others make to g. */
  function Callers(fl: Flow, g: FunctionId): real
    requires WellFormed(fl)
  {
    In(OneEdges(fl), fl.order, g)
  }

  /** What callers take of g's total, together. */
  function Shares(fl: Flow, g: FunctionId): real
    requires WellFormed(fl)
  {
    In(RatioEdges(fl), fl.order, g)
  }

  predicate CountsNonNegative(fl: Flow) {
    forall f, i :: f in fl.calls && 0 <= i < |fl.calls[f]| && fl.calls[f][i].count.Some? ==>
      fl.calls[f][i].count.value >= 0.0
  }

  lemma {:induction false} CountsWeighted(f: FunctionId, calls: seq<CallData>)
    requires forall i :: 0 <= i < |calls| && calls[i].count.Some? ==> calls[i].count.value >= 0.0
    ensures Weighted(Counts(f, calls))
  {
    if calls != [] {
      CountsWeighted(f, calls[1..]);
    }
  }

  lemma CountsAreWeights(fl: Flow)
    requires CountsNonNegative(fl)
    ensures NonNegative(CountEdges(fl))
  {
    forall f | f in fl.calls
      ensures Weighted(Counts(f, fl.calls[f]))
    {
      CountsWeighted(f, fl.calls[f]);
    }
  }

  lemma {:induction false} RatiosWeighted(fl: Flow, f: FunctionId, calls: seq<CallData>)
    requires WellFormed(fl)
    ensures Weighted(Ratios(fl, f, calls))
  {
    if calls != [] {
      RatiosWeighted(fl, f, calls[1..]);
    }
  }

  lemma RatiosAreWeights(fl: Flow)
    requires WellFormed(fl)
    ensures NonNegative(RatioEdges(fl))
  {
    forall f | f in fl.calls
      ensures Weighted(Ratios(fl, f, fl.calls[f]))
    {
      RatiosWeighted(fl, f, fl.calls[f]);
    }
  }

  /** No count in es is more than d. */
  predicate AtMost(es: seq<Edge>, g: FunctionId, d: real) {
    forall i :: 0 <= i < |es| && es[i].callee == g ==> 0.0 <= es[i].weight <= d
  }

  lemma DivideBack(n: real, d: real)
    requires 0.0 <= n <= d && d > 0.0
    ensures Times(Ratio(n, d), d) == n
  {
    assert 0.0 <= n / d <= 1.0;
  }

  /** What the call c, made by f, adds to the ratios and to the counts of calls to g. */
  function Share(fl: Flow, f: FunctionId, c: CallData, g: FunctionId): real
    requires WellFormed(fl)
  {
    if c.callee == g && c.callee != f then RatioOf(fl, c) else 0.0
  }

  function Count(f: FunctionId, c: CallData, g: FunctionId): real {
    if c.callee == g && c.callee != f && c.count.Some? then c.count.value else 0.0
  }

  lemma CountFirst(f: FunctionId, calls: seq<CallData>, g: FunctionId)
    requires calls != []
    ensures Into(Counts(f, calls), g) == Count(f, calls[0], g) + Into(Counts(f, calls[1..]), g)
  {
  }

  lemma FirstScaled(fl: Flow, f: FunctionId, calls: seq<CallData>, g: FunctionId)
    requires WellFormed(fl) && calls != []
    requires AtMost(Counts(f, calls), g, Incoming(fl, g)) && Incoming(fl, g) > 0.0
    ensures Into(Ratios(fl, f, calls), g) == Share(fl, f, calls[0], g) + Into(Ratios(fl, f, calls[1..]), g)
    ensures Into(Counts(f, calls), g) == Count(f, calls[0], g) + Into(Counts(f, calls[1..]), g)
    ensures Times(Share(fl, f, calls[0], g), Incoming(fl, g)) == Count(f, calls[0], g)
  {
    hide Incoming, Ratio, WellFormed;
    var c := calls[0];
    CountFirst(f, calls, g);
    CountsRest(f, calls, g, Incoming(fl, g));
    if c.callee == g && c.callee != f && c.count.Some? {
      DivideBack(c.count.value, Incoming(fl, g));
    }
  }

  lemma NoneScaled(fl: Flow, f: FunctionId, g: FunctionId)
    requires WellFormed(fl)
    ensures Into(Ratios(fl, f, []), g) == 0.0 && Into(Counts(f, []), g) == 0.0
    ensures Times(0.0, Incoming(fl, g)) == 0.0
  {
  }

  lemma {:induction false} IntoScaled(fl: Flow, f: FunctionId, calls: seq<CallData>, g: FunctionId)
    requires WellFormed(fl) && AtMost(Counts(f, calls), g, Incoming(fl, g)) && Incoming(fl, g) > 0.0
    ensures Times(Into(Ratios(fl, f, calls), g), Incoming(fl, g)) == Into(Counts(f, calls), g)
  {
    NoneScaled(fl, f, g);
    hide Incoming, Into, Ratios, Counts, AtMost, Share, Count, WellFormed, Times;
    if calls != [] {
      FirstScaled(fl, f, calls, g);
      CountsRest(f, calls, g, Incoming(fl, g));
      IntoScaled(fl, f, calls[1..], g);
      ScaleSum(Into(Ratios(fl, f, calls), g), Share(fl, f, calls[0], g), Into(Ratios(fl, f, calls[1..]), g),
               Into(Counts(f, calls), g), Count(f, calls[0], g), Into(Counts(f, calls[1..]), g), Incoming(fl, g));
    }
  }

  lemma ScaleSum(a: real, a1: real, a2: real, b: real, b1: real, b2: real, d: real)
    requires a == a1 + a2 && b == b1 + b2
    requires Times(a1, d) == b1 && Times(a2, d) == b2
    ensures Times(a, d) == b
  {
    Distribute(a1, a2, d);
  }

  lemma CountsRest(f: FunctionId, calls: seq<CallData>, g: FunctionId, d: real)
    requires calls != [] && AtMost(Counts(f, calls), g, d)
    ensures AtMost(Counts(f, calls[1..]), g, d)
    ensures var c := calls[0]; c.callee == g != f && c.count.Some? ==> 0.0 <= c.count.value <= d
  {
    var counts := Counts(f, calls);
    if calls[0].callee != f && calls[0].count.Some? {
      assert counts[1..] == Counts(f, calls[1..]);
      assert forall i :: 0 <= i < |counts| - 1 ==> counts[1..][i] == counts[i + 1];
      assert counts[0].weight == calls[0].count.value;
    }
  }

  lemma {:induction false} InScaled(fl: Flow, fs: seq<FunctionId>, g: FunctionId)
    requires WellFormed(fl) && Within(fs, fl.calls.Keys) && Incoming(fl, g) > 0.0
    requires forall f :: f in fl.calls ==> AtMost(Counts(f, fl.calls[f]), g, Incoming(fl, g))
    ensures Times(In(RatioEdges(fl), fs, g), Incoming(fl, g)) == In(CountEdges(fl), fs, g)
  {
    hide Incoming, WellFormed, AtMost, Into, Ratios, Counts;
    if fs == [] {
      NoneScaled(fl, g, g);
    } else {
      var f := fs[0];
      assert f in fl.calls && RatioEdges(fl)[f] == Ratios(fl, f, fl.calls[f]);
      assert CountEdges(fl)[f] == Counts(f, fl.calls[f]);
      InScaled(fl, fs[1..], g);
      IntoScaled(fl, f, fl.calls[f], g);
      hide Times;
      ScaleSum(In(RatioEdges(fl), fs, g), Into(Ratios(fl, f, fl.calls[f]), g), In(RatioEdges(fl), fs[1..], g),
               In(CountEdges(fl), fs, g), Into(Counts(f, fl.calls[f]), g),
               In(CountEdges(fl), fs[1..], g), Incoming(fl, g));
    }
  }

  lemma CountsAtMost(fl: Flow, g: FunctionId)
    requires WellFormed(fl) && CountsNonNegative(fl)
    ensures forall f :: f in fl.calls ==> AtMost(Counts(f, fl.calls[f]), g, Incoming(fl, g))
    ensures Incoming(fl, g) >= 0.0
  {
    CountsAreWeights(fl);
    var m := CountEdges(fl);
    InPart(m, fl.order, g);
    forall f | f in fl.calls
      ensures AtMost(m[f], g, Incoming(fl, g))
    {
      assert f in Ids(fl.order);
      WeightedCalls(m, f);
      var k :| 0 <= k < |fl.order| && fl.order[k] == f;
      assert forall i :: 0 <= i < |m[fl.order[k]]| && m[fl.order[k]][i].callee == g ==>
        m[f][i].weight <= In(m, fl.order, g);
    }
  }

  lemma {:induction false} IntoUnscaled(fl: Flow, f: FunctionId, calls: seq<CallData>, g: FunctionId)
    requires WellFormed(fl) && Incoming(fl, g) == 0.0
    ensures Into(Ratios(fl, f, calls), g) == Into(Ones(f, calls), g)
  {
    if calls != [] {
      IntoUnscaled(fl, f, calls[1..], g);
    }
  }

  lemma {:induction false} InUnscaled(fl: Flow, fs: seq<FunctionId>, g: FunctionId)
    requires WellFormed(fl) && Within(fs, fl.calls.Keys) && Incoming(fl, g) == 0.0
    ensures In(RatioEdges(fl), fs, g) == In(OneEdges(fl), fs, g)
  {
    if fs != [] {
      InUnscaled(fl, fs[1..], g);
      IntoUnscaled(fl, fs[0], fl.calls[fs[0]], g);
    }
  }

  lemma DivideOut(a: real, d: real)
    requires Times(a, d) == d && d > 0.0
    ensures a == 1.0
  {
    assert (a - 1.0) * d == 0.0;
  }

  /** The ratios of the calls to g add up to one where any call was counted more than
      zero times; otherwise every counted call takes the whole. */
  lemma RatioSum(fl: Flow, g: FunctionId)
    requires WellFormed(fl) && CountsNonNegative(fl)
    ensures Shares(fl, g) == if Incoming(fl, g) > 0.0 then 1.0 else Callers(fl, g)
  {
    hide AtMost, In, Ratios, Counts, Ones, Times;
    CountsAtMost(fl, g);
    var share, d := Shares(fl, g), Incoming(fl, g);
    if d > 0.0 {
      InScaled(fl, fl.order, g);
      assert share == In(RatioEdges(fl), fl.order, g) && d == In(CountEdges(fl), fl.order, g);
      hide Shares, Incoming;
      DivideOut(share, d);
    } else {
      InUnscaled(fl, fl.order, g);
    }
  }

  // Totals.

  /** Everything that calls from f lead to. */
  ghost function Below(fl: Flow, f: FunctionId): set<FunctionId> {
    set w | w in fl.calls && Reach(CallGraph(fl), f, w)
  }

  lemma BelowSmaller(fl: Flow, f: FunctionId, i: nat)
    requires WellFormed(fl) && Acyclic(fl) && f in fl.calls && i < |fl.calls[f]|
    requires fl.calls[f][i].callee != f
    ensures Below(fl, fl.calls[f][i].callee) < Below(fl, f)
    ensures f !in Below(fl, fl.calls[f][i].callee)
  {
    var g, callee := CallGraph(fl), fl.calls[f][i].callee;
    assert g[f][i] == callee;
    ReachEdge(g, f, callee);
    ReachSelf(g, f);
    forall w | w in Below(fl, callee)
      ensures w in Below(fl, f)
    {
      ReachTrans(g, f, callee, w);
    }
    assert Mutual(g, f, callee) <==> f in Below(fl, callee);
  }

  ghost function Total(fl: Flow, f: FunctionId): real
    requires WellFormed(fl) && Acyclic(fl) && f in fl.calls
    decreases Below(fl, f), |fl.calls[f]| + 1
  {
    fl.time[f] + Through(fl, f, 0)
  }

  /** What the calls of f from the i-th on bring. */
  ghost function Through(fl: Flow, f: FunctionId, i: nat): real
    requires WellFormed(fl) && Acyclic(fl) && f in fl.calls && i <= |fl.calls[f]|
    decreases Below(fl, f), |fl.calls[f]| - i
  {
    if i == |fl.calls[f]| then 0.0
    else
      var c := fl.calls[f][i];
      if c.callee == f then Through(fl, f, i + 1)
      else
        BelowSmaller(fl, f, i);
        Times(RatioOf(fl, c), Total(fl, c.callee)) + Through(fl, f, i + 1)
  }

  ghost function Totals(fl: Flow): Values
    requires WellFormed(fl) && Acyclic(fl)
  {
    map f | f in fl.calls :: Total(fl, f)
  }

  lemma {:induction false} RatiosKnown(fl: Flow, f: FunctionId, calls: seq<CallData>)
    requires WellFormed(fl) && forall i :: 0 <= i < |calls| ==> calls[i].callee in fl.calls
    ensures CalleesIn(Ratios(fl, f, calls), fl.calls.Keys)
  {
    if calls != [] {
      RatiosKnown(fl, f, calls[1..]);
    }
  }

  lemma {:induction false} ThroughIsOut(fl: Flow, f: FunctionId, i: nat)
    requires WellFormed(fl) && Acyclic(fl) && f in fl.calls && i <= |fl.calls[f]|
    ensures CalleesIn(Ratios(fl, f, fl.calls[f][i..]), fl.calls.Keys)
    ensures Through(fl, f, i) == Out(Ratios(fl, f, fl.calls[f][i..]), Totals(fl))
    decreases |fl.calls[f]| - i
  {
    hide Acyclic, Below, RatioOf, Through, Ratios, Out, Times;
    RatiosKnown(fl, f, fl.calls[f][i..]);
    ThroughNext(fl, f, i);
    RatiosStep(fl, f, fl.calls[f][i..]);
    if i < |fl.calls[f]| {
      ThroughIsOut(fl, f, i + 1);
      assert fl.calls[f][i..][1..] == fl.calls[f][i + 1..];
    }
  }

  lemma ThroughNext(fl: Flow, f: FunctionId, i: nat)
    requires WellFormed(fl) && Acyclic(fl) && f in fl.calls && i <= |fl.calls[f]|
    ensures Through(fl, f, i) ==
      if i == |fl.calls[f]| then 0.0
      else if fl.calls[f][i].callee == f then Through(fl, f, i + 1)
      else Times(RatioOf(fl, fl.calls[f][i]), Total(fl, fl.calls[f][i].callee)) + Through(fl, f, i + 1)
  {
    hide RatioOf, Times;
  }

  lemma RatiosStep(fl: Flow, f: FunctionId, calls: seq<CallData>)
    requires WellFormed(fl) && Acyclic(fl) && CalleesIn(Ratios(fl, f, calls), fl.calls.Keys)
    ensures var es := Ratios(fl, f, calls);
      if calls == [] then Out(es, Totals(fl)) == 0.0
      else
        var more := Ratios(fl, f, calls[1..]);
        CalleesIn(more, fl.calls.Keys) &&
        if calls[0].callee == f then Out(es, Totals(fl)) == Out(more, Totals(fl))
        else calls[0].callee in fl.calls
             && Out(es, Totals(fl)) == Times(RatioOf(fl, calls[0]), Total(fl, calls[0].callee)) + Out(more, Totals(fl))
  {
    hide RatioOf, Acyclic, Below, Total;
    var es := Ratios(fl, f, calls);
    if calls != [] && calls[0].callee != f {
      assert es[0].callee in fl.calls && es[1..] == Ratios(fl, f, calls[1..]);
    }
  }

  /** The totals answer the equations that define them. */
  lemma TotalsSolve(fl: Flow)
    requires WellFormed(fl) && Acyclic(fl)
    ensures Solves(RatioEdges(fl), fl.order, fl.time, Totals(fl))
  {
    var m, t := RatioEdges(fl), Totals(fl);
    forall k | 0 <= k < |fl.order|
      ensures fl.order[k] in fl.calls && CalleesIn(m[fl.order[k]], t.Keys)
      ensures t[fl.order[k]] == fl.time[fl.order[k]] + Out(m[fl.order[k]], t)
    {
      var f := fl.order[k];
      assert f in Ids(fl.order);
      ThroughIsOut(fl, f, 0);
      assert fl.calls[f][0..] == fl.calls[f];
    }
  }

  predicate TimesNonNegative(fl: Flow) {
    forall f :: f in fl.time ==> fl.time[f] >= 0.0
  }

  lemma {:induction false} TotalNonNegative(fl: Flow, f: FunctionId, i: nat)
    requires WellFormed(fl) && Acyclic(fl) && f in fl.calls && i <= |fl.calls[f]| && TimesNonNegative(fl)
    ensures Through(fl, f, i) >= 0.0
    decreases Below(fl, f), |fl.calls[f]| - i
  {
    hide Below, Acyclic;
    if i < |fl.calls[f]| {
      var c := fl.calls[f][i];
      TotalNonNegative(fl, f, i + 1);
      if c.callee != f {
        BelowSmaller(fl, f, i);
        TotalNonNegative(fl, c.callee, 0);
        Nonneg(RatioOf(fl, c), Total(fl, c.callee));
      }
    }
  }

  // Conservation.

  /** Nobody but f itself calls f. */
  predicate Top(fl: Flow, f: FunctionId) {
    forall a, i :: a in fl.calls && 0 <= i < |fl.calls[a]| && fl.calls[a][i].callee == f ==> a == f
  }

  lemma {:induction false} RatiosCall(fl: Flow, f: FunctionId, calls: seq<CallData>, g: FunctionId)
    requires WellFormed(fl)
    requires forall i :: 0 <= i < |calls| && calls[i].callee == g ==> f == g
    ensures forall i :: 0 <= i < |Ratios(fl, f, calls)| ==> Ratios(fl, f, calls)[i].callee != g
  {
    if calls != [] {
      RatiosCall(fl, f, calls[1..], g);
    }
  }

  lemma TopShares(fl: Flow, g: FunctionId)
    requires WellFormed(fl) && Top(fl, g)
    ensures Shares(fl, g) == 0.0
  {
    var m := RatioEdges(fl);
    forall k | 0 <= k < |fl.order|
      ensures !Calls(m, fl.order[k], g)
    {
      var f := fl.order[k];
      assert f in Ids(fl.order);
      RatiosCall(fl, f, fl.calls[f], g);
    }
    InNone(m, fl.order, g);
  }

  // A function that others call is shared as it should be when some of the calls were
  // counted more than zero times, or when there is only one.

  predicate Shared(fl: Flow, g: FunctionId)
    requires WellFormed(fl)
  {
    Incoming(fl, g) > 0.0 || Callers(fl, g) == 1.0
  }

  ghost function TopSet(fl: Flow): set<FunctionId> {
    set f | f in fl.calls && Top(fl, f)
  }

  function Tops(fl: Flow): seq<FunctionId> {
    Only(fl.order, set f | f in fl.calls && Top(fl, f))
  }

  lemma {:induction false} OnesHas(f: FunctionId, calls: seq<CallData>, i: nat) returns (k: nat)
    requires i < |calls| && calls[i].callee != f && calls[i].count.Some?
    ensures k < |Ones(f, calls)| && Ones(f, calls)[k] == Edge(calls[i].callee, 1.0)
  {
    if i == 0 {
      k := 0;
    } else {
      var k' := OnesHas(f, calls[1..], i - 1);
      k := if calls[0].callee == f || calls[0].count == None then k' else k' + 1;
    }
  }

  lemma {:induction false} OnesWeighted(f: FunctionId, calls: seq<CallData>)
    ensures Weighted(Ones(f, calls))
  {
    if calls != [] {
      OnesWeighted(f, calls[1..]);
    }
  }

  /** Every function that others call has a call whose count is known. */
  predicate EachCounted(fl: Flow) {
    forall g :: g in fl.calls && !Top(fl, g) ==> SomeCounted(fl, g)
  }

  predicate SomeCounted(fl: Flow, g: FunctionId) {
    exists a, i :: a in fl.calls && a != g && 0 <= i < |fl.calls[a]| && fl.calls[a][i].callee == g
      && fl.calls[a][i].count.Some?
  }

  lemma CallersAtLeast(fl: Flow, g: FunctionId)
    requires WellFormed(fl) && SomeCounted(fl, g)
    ensures Callers(fl, g) >= 1.0
  {
    var m := OneEdges(fl);
    forall f | f in fl.calls
      ensures Weighted(m[f])
    {
      OnesWeighted(f, fl.calls[f]);
    }
    InPart(m, fl.order, g);
    var a, i :| a in fl.calls && a != g && 0 <= i < |fl.calls[a]| && fl.calls[a][i].callee == g
                && fl.calls[a][i].count.Some?;
    var k := OnesHas(a, fl.calls[a], i);
    assert a in Ids(fl.order);
    var j :| 0 <= j < |fl.order| && fl.order[j] == a;
    assert m[fl.order[j]][k].callee == g;
  }

  /** Every function that others call is shared as it should be, or has one counted call
      at most. */
  predicate AtMostOnce(fl: Flow)
    requires WellFormed(fl)
  {
    forall g :: g in fl.calls && !Top(fl, g) ==> Incoming(fl, g) > 0.0 || Callers(fl, g) <= 1.0
  }

  lemma TotalsBalance(fl: Flow)
    requires WellFormed(fl) && Acyclic(fl)
    ensures Within(fl.order, fl.calls.Keys) && Totals(fl).Keys == RatioEdges(fl).Keys == fl.calls.Keys
    ensures Excess(RatioEdges(fl), fl.order, fl.order, Totals(fl)) == Sum(fl.order, fl.time)
  {
    TotalsSolve(fl);
    Balance(RatioEdges(fl), fl.order, fl.time, Totals(fl));
  }

  /** What the calls leave of the totals, over all functions that others call; negative
      where they take more than there is. */
  ghost function Lost(fl: Flow): real
    requires WellFormed(fl) && Acyclic(fl)
  {
    TotalsBalance(fl);
    0.0 - Surplus(RatioEdges(fl), fl.order, fl.order, Totals(fl), TopSet(fl))
  }

  /** For all counts and times: the totals of the functions that nobody else calls are
      the time of the whole profile but for what is lost on the way. */
  lemma LossExactly(fl: Flow)
    requires WellFormed(fl) && Acyclic(fl)
    ensures Within(Tops(fl), fl.calls.Keys) && Within(fl.order, fl.time.Keys)
    ensures Sum(Tops(fl), Totals(fl)) == Sum(fl.order, fl.time) - Lost(fl)
  {
    var m, tops := RatioEdges(fl), TopSet(fl);
    TotalsBalance(fl);
    forall i | 0 <= i < |fl.order| && fl.order[i] in tops
      ensures In(m, fl.order, fl.order[i]) == 0.0
    {
      TopShares(fl, fl.order[i]);
    }
    hide In, Totals, RatioEdges, Acyclic;
    ExcessSurplus(m, fl.order, fl.order, Totals(fl), tops);
  }

  /** What the calls to g take of its total beyond that total. */
  ghost function Gain(fl: Flow, g: FunctionId): real
    requires WellFormed(fl) && Acyclic(fl) && g in fl.calls
  {
    Over(RatioEdges(fl), fl.order, g, Totals(fl))
  }

  lemma GainIs(fl: Flow, g: FunctionId)
    requires WellFormed(fl) && Acyclic(fl) && CountsNonNegative(fl) && g in fl.calls
    ensures Gain(fl, g) == Times((if Incoming(fl, g) > 0.0 then 1.0 else Callers(fl, g)) - 1.0, Total(fl, g))
  {
    RatioSum(fl, g);
    assert Shares(fl, g) == In(RatioEdges(fl), fl.order, g) && Total(fl, g) == Totals(fl)[g];
    hide In, RatioEdges, Totals, Total, Shares, Incoming, Callers, Times;
  }

  lemma OverSign(share: real, total: real)
    ensures Times(share - 1.0, total) == 0.0 <==> share == 1.0 || total == 0.0
    ensures share >= 1.0 && total >= 0.0 ==> Times(share - 1.0, total) >= 0.0
    ensures share <= 1.0 && total >= 0.0 ==> Times(share - 1.0, total) <= 0.0
  {
    if share != 1.0 && total != 0.0 {
      NonzeroProduct(share - 1.0, total);
    }
  }

  lemma NonzeroProduct(a: real, b: real)
    requires a != 0.0 && b != 0.0
    ensures a * b != 0.0
  {
    assert a * b / b == a;
  }

  /** The totals of the functions that nobody else calls add up to the time of the whole
      profile. */
  lemma Conserved(fl: Flow)
    requires WellFormed(fl) && Acyclic(fl) && CountsNonNegative(fl)
    requires forall g :: g in fl.calls && !Top(fl, g) ==> Shared(fl, g)
    ensures Within(Tops(fl), fl.calls.Keys)
    ensures Sum(Tops(fl), Totals(fl)) == Sum(fl.order, fl.time)
  {
    hide Total, Totals, Acyclic, Gain, Lost, Shared, Sum, Tops;
    forall g | g in fl.calls && !Top(fl, g)
      ensures Gain(fl, g) == 0.0
    {
      SharedGain(fl, g);
    }
    LossExactly(fl);
    LostNone(fl, true);
  }

  predicate Called(fl: Flow, g: FunctionId) {
    g in fl.calls && !Top(fl, g)
  }

  /** Where nobody loses, or nobody gains, nothing is lost exactly when nobody does either. */
  lemma LostNone(fl: Flow, more: bool)
    requires WellFormed(fl) && Acyclic(fl)
    requires forall g :: Called(fl, g) ==> if more then Gain(fl, g) >= 0.0 else Gain(fl, g) <= 0.0
    ensures Lost(fl) == 0.0 <==> forall g :: Called(fl, g) ==> Gain(fl, g) == 0.0
  {
    TotalsBalance(fl);
    var m, t, tops := RatioEdges(fl), Totals(fl), TopSet(fl);
    assert forall g :: Called(fl, g) <==> g in Ids(fl.order) && g !in tops;
    assert forall g :: g in fl.calls ==> Gain(fl, g) == Over(m, fl.order, g, t);
    hide Over, Total, Totals, RatioEdges, In, Acyclic, Gain, Top, Excess;
    SurplusNone(m, fl.order, fl.order, t, tops, more);
    assert NoneOver(m, fl.order, fl.order, t, tops) <==> forall g :: Called(fl, g) ==> Gain(fl, g) == 0.0;
  }

  lemma SharedGain(fl: Flow, g: FunctionId)
    requires WellFormed(fl) && Acyclic(fl) && CountsNonNegative(fl) && g in fl.calls && Shared(fl, g)
    ensures Gain(fl, g) == 0.0
  {
    hide Total, Acyclic, Gain, Incoming, Callers, Times;
    GainIs(fl, g);
    OverSign(1.0, Total(fl, g));
  }

  // What is idle.

  /** The calls of f to others that bring anything: whose ratio is not zero. */
  function Bringing(fl: Flow, f: FunctionId, calls: seq<CallData>): seq<FunctionId>
    requires WellFormed(fl)
  {
    if calls == [] then []
    else if calls[0].callee != f && RatioOf(fl, calls[0]) > 0.0 then [calls[0].callee] + Bringing(fl, f, calls[1..])
    else Bringing(fl, f, calls[1..])
  }

  function BringGraph(fl: Flow): Graph
    requires WellFormed(fl)
  {
    map f | f in fl.calls :: Bringing(fl, f, fl.calls[f])
  }

  /** No time is spent in f or in anything that calls with a ratio lead to from f. */
  ghost predicate Idle(fl: Flow, f: FunctionId)
    requires WellFormed(fl)
  {
    forall h :: Reach(BringGraph(fl), f, h) ==> h in fl.time && fl.time[h] == 0.0
  }

  lemma {:induction false} BringingHas(fl: Flow, f: FunctionId, calls: seq<CallData>, g: FunctionId)
    requires WellFormed(fl)
    ensures g in Bringing(fl, f, calls)
      <==> exists i :: 0 <= i < |calls| && calls[i].callee == g && g != f && RatioOf(fl, calls[i]) > 0.0
  {
    if calls != [] {
      BringingHas(fl, f, calls[1..], g);
      if i :| 0 <= i < |calls| && calls[i].callee == g && g != f && RatioOf(fl, calls[i]) > 0.0 {
        assert i > 0 ==> calls[1..][i - 1] == calls[i];
      }
      assert forall i :: 0 <= i < |calls| - 1 ==> calls[1..][i] == calls[i + 1];
    }
  }

  lemma IdleStep(fl: Flow, f: FunctionId)
    requires WellFormed(fl) && f in fl.calls
    ensures Idle(fl, f) <==> fl.time[f] == 0.0 && forall c :: c in BringGraph(fl)[f] ==> Idle(fl, c)
  {
    var g := BringGraph(fl);
    ReachSelf(g, f);
    forall c | c in g[f]
      ensures c in g && Reach(g, f, c)
    {
      BringingHas(fl, f, fl.calls[f], c);
      ReachEdge(g, f, c);
    }
    if Idle(fl, f) {
      forall c, h | c in g[f] && Reach(g, c, h)
        ensures h in fl.time && fl.time[h] == 0.0
      {
        ReachTrans(g, f, c, h);
      }
    }
    if fl.time[f] == 0.0 && forall c :: c in g[f] ==> Idle(fl, c) {
      forall h | Reach(g, f, h)
        ensures h in fl.time && fl.time[h] == 0.0
      {
        if h != f {
          var c := FirstStep(g, f, h);
          assert Idle(fl, c);
        }
      }
    }
  }

  lemma FirstStep(g: Graph, a: FunctionId, b: FunctionId) returns (c: FunctionId)
    requires Reach(g, a, b) && a != b
    ensures a in g && c in g[a] && Reach(g, c, b)
  {
    var p :| IsPath(g, p) && p[0] == a && p[|p| - 1] == b;
    c := p[1];
    assert p[0 + 1] in g[p[0]];
    assert IsPath(g, p[1..]);
  }

  lemma {:induction false} ThroughZero(fl: Flow, f: FunctionId, i: nat)
    requires WellFormed(fl) && Acyclic(fl) && f in fl.calls && i <= |fl.calls[f]| && TimesNonNegative(fl)
    ensures Through(fl, f, i) == 0.0
      <==> forall j :: i <= j < |fl.calls[f]| && fl.calls[f][j].callee != f && RatioOf(fl, fl.calls[f][j]) > 0.0 ==>
        Total(fl, fl.calls[f][j].callee) == 0.0
    decreases |fl.calls[f]| - i
  {
    hide Below, Acyclic;
    if i < |fl.calls[f]| {
      var c := fl.calls[f][i];
      ThroughZero(fl, f, i + 1);
      TotalNonNegative(fl, f, i + 1);
      if c.callee != f {
        TotalNonNegative(fl, c.callee, 0);
        ProductZero(RatioOf(fl, c), Total(fl, c.callee));
      }
    }
  }

  lemma ProductZero(a: real, b: real)
    requires a >= 0.0 && b >= 0.0
    ensures Times(a, b) >= 0.0 && (Times(a, b) == 0.0 <==> a == 0.0 || b == 0.0)
  {
    if a > 0.0 && b > 0.0 {
      NonzeroProduct(a, b);
    }
  }

  /** A total is zero exactly when there is nothing to bring. */
  lemma {:induction false} ZeroExactly(fl: Flow, f: FunctionId)
    requires WellFormed(fl) && Acyclic(fl) && f in fl.calls && TimesNonNegative(fl)
    ensures Total(fl, f) == 0.0 <==> Idle(fl, f)
    decreases Below(fl, f)
  {
    IdleStep(fl, f);
    ThroughZero(fl, f, 0);
    TotalNonNegative(fl, f, 0);
    forall c | c in BringGraph(fl)[f]
      ensures c in fl.calls && (Total(fl, c) == 0.0 <==> Idle(fl, c))
    {
      BringingHas(fl, f, fl.calls[f], c);
      var i :| 0 <= i < |fl.calls[f]| && fl.calls[f][i].callee == c && c != f && RatioOf(fl, fl.calls[f][i]) > 0.0;
      BelowSmaller(fl, f, i);
      ZeroExactly(fl, c);
    }
    ZeroStep(fl, f);
  }

  lemma ZeroStep(fl: Flow, f: FunctionId)
    requires WellFormed(fl) && Acyclic(fl) && f in fl.calls && TimesNonNegative(fl)
    ensures Total(fl, f) == 0.0
      <==> fl.time[f] == 0.0 && forall c :: c in BringGraph(fl)[f] ==> c in fl.calls && Total(fl, c) == 0.0
  {
    ThroughZero(fl, f, 0);
    TotalNonNegative(fl, f, 0);
    hide Below, Acyclic, RatioOf, Through;
    assert Total(fl, f) == fl.time[f] + Through(fl, f, 0);
    forall j | 0 <= j < |fl.calls[f]| && fl.calls[f][j].callee != f && RatioOf(fl, fl.calls[f][j]) > 0.0
      ensures fl.calls[f][j].callee in BringGraph(fl)[f]
    {
      BringingHas(fl, f, fl.calls[f], fl.calls[f][j].callee);
    }
    forall c | c in BringGraph(fl)[f]
      ensures exists j ::
        0 <= j < |fl.calls[f]| && fl.calls[f][j].callee == c && c != f && RatioOf(fl, fl.calls[f][j]) > 0.0
    {
      BringingHas(fl, f, fl.calls[f], c);
    }
  }

  /** With times of at least zero, and as long as losses and gains cannot cancel out,
      just that holds exactly when whatever is not shared as it should be is idle. They
      cannot where every function that others call has a counted call, or where none has
      several that were all counted zero times. */
  lemma ConservedExactly(fl: Flow)
    requires WellFormed(fl) && Acyclic(fl) && CountsNonNegative(fl) && TimesNonNegative(fl)
    requires EachCounted(fl) || AtMostOnce(fl)
    ensures Within(Tops(fl), fl.calls.Keys)
    ensures Sum(Tops(fl), Totals(fl)) == Sum(fl.order, fl.time)
      <==> forall g :: g in fl.calls && !Top(fl, g) && !Shared(fl, g) ==> Idle(fl, g)
  {
    hide Total, Totals, Acyclic, Gain, Lost, Shared, Sum, Tops, Idle, SomeCounted, Incoming, Callers;
    var more := EachCounted(fl);
    forall g | Called(fl, g)
      ensures Gain(fl, g) == 0.0 <==> Shared(fl, g) || Idle(fl, g)
      ensures if more then Gain(fl, g) >= 0.0 else Gain(fl, g) <= 0.0
    {
      OneGain(fl, g, more);
    }
    LossExactly(fl);
    LostNone(fl, more);
  }

  lemma TotalIs(fl: Flow, f: FunctionId)
    requires WellFormed(fl) && Acyclic(fl) && f in fl.calls && TimesNonNegative(fl)
    ensures Total(fl, f) >= 0.0
  {
    TotalNonNegative(fl, f, 0);
  }

  lemma OneGain(fl: Flow, g: FunctionId, more: bool)
    requires WellFormed(fl) && Acyclic(fl) && CountsNonNegative(fl) && TimesNonNegative(fl) && g in fl.calls
    requires if more then SomeCounted(fl, g) else Incoming(fl, g) > 0.0 || Callers(fl, g) <= 1.0
    ensures Gain(fl, g) == 0.0 <==> Shared(fl, g) || Idle(fl, g)
    ensures if more then Gain(fl, g) >= 0.0 else Gain(fl, g) <= 0.0
  {
    hide Gain, Incoming, Callers, Idle, Acyclic, Times, Total, SomeCounted;
    if more {
      CallersAtLeast(fl, g);
    }
    GainIs(fl, g);
    ZeroExactly(fl, g);
    TotalIs(fl, g);
    OverSign(if Incoming(fl, g) > 0.0 then 1.0 else Callers(fl, g), Total(fl, g));
  }

  /** No total is more than the time of the whole profile. */
  lemma NoMoreThanWhole(fl: Flow, f: FunctionId)
    requires WellFormed(fl) && Acyclic(fl) && CountsNonNegative(fl) && TimesNonNegative(fl) && f in fl.calls
    requires AtMostOnce(fl)
    ensures Within(fl.order, fl.time.Keys)
    ensures Total(fl, f) <= Sum(fl.order, fl.time)
  {
    var m, t, fs := RatioEdges(fl), Totals(fl), Only(fl.order, Below(fl, f));
    TotalsSolve(fl);
    BelowSolves(fl, f);
    OnlyDistinct(fl.order, Below(fl, f));
    Balance(m, fs, fl.time, t);
    forall i | 0 <= i < |fs|
      ensures t[fs[i]] >= 0.0 && In(m, fs, fs[i]) <= 1.0
    {
      BelowShares(fl, f, fs[i]);
      TotalNonNegative(fl, fs[i], 0);
    }
    NotBelowItself(fl, f);
    ReachSelf(CallGraph(fl), f);
    assert f in fs;
    ExcessPart(m, fs, fs, t, f);
    SumFewer(fl.order, Below(fl, f), fl.time);
  }

  /** The functions below f call only each other. */
  lemma BelowSolves(fl: Flow, f: FunctionId)
    requires WellFormed(fl) && Acyclic(fl) && f in fl.calls
    ensures Solves(RatioEdges(fl), Only(fl.order, Below(fl, f)), fl.time, Totals(fl))
  {
    var m, t, fs := RatioEdges(fl), Totals(fl), Only(fl.order, Below(fl, f));
    TotalsSolve(fl);
    forall a | a in fs
      ensures a in fl.calls && CalleesIn(m[a], Ids(fs))
    {
      BelowClosed(fl, f, a);
      RatiosInside(fl, a, fl.calls[a], Ids(fs));
    }
    hide RatioEdges, Totals, Below, Acyclic, Only, CalleesIn;
    FewerSolve(m, fl.order, fs, fl.time, t);
  }

  lemma FewerSolve(m: Edges, all: seq<FunctionId>, fs: seq<FunctionId>, own: Values, t: Values)
    requires Solves(m, all, own, t)
    requires forall f :: f in fs ==> f in all && f in m && CalleesIn(m[f], Ids(fs))
    ensures Solves(m, fs, own, t)
  {
    forall i | 0 <= i < |fs|
      ensures fs[i] in m && CalleesIn(m[fs[i]], Ids(fs))
      ensures fs[i] in own && fs[i] in t && CalleesIn(m[fs[i]], t.Keys) && t[fs[i]] == own[fs[i]] + Out(m[fs[i]], t)
    {
      assert fs[i] in fs;
      var k := IndexOf(all, fs[i]);
      assert all[k] in m;
    }
  }

  lemma BelowClosed(fl: Flow, f: FunctionId, a: FunctionId)
    requires WellFormed(fl) && a in Below(fl, f)
    ensures forall j :: 0 <= j < |fl.calls[a]| ==> fl.calls[a][j].callee in Ids(Only(fl.order, Below(fl, f)))
  {
    forall j | 0 <= j < |fl.calls[a]|
      ensures fl.calls[a][j].callee in Ids(Only(fl.order, Below(fl, f)))
    {
      var c, g := fl.calls[a][j].callee, CallGraph(fl);
      assert g[a][j] == c;
      ReachEdge(g, a, c);
      ReachTrans(g, f, a, c);
      assert c in Ids(fl.order);
    }
  }

  lemma {:induction false} RatiosInside(fl: Flow, f: FunctionId, calls: seq<CallData>, keys: set<FunctionId>)
    requires WellFormed(fl) && forall i :: 0 <= i < |calls| ==> calls[i].callee in keys
    ensures CalleesIn(Ratios(fl, f, calls), keys)
  {
    if calls != [] {
      RatiosInside(fl, f, calls[1..], keys);
    }
  }

  lemma BelowShares(fl: Flow, f: FunctionId, g: FunctionId)
    requires WellFormed(fl) && CountsNonNegative(fl) && g in fl.calls
    requires !Top(fl, g) ==> Incoming(fl, g) > 0.0 || Callers(fl, g) <= 1.0
    ensures Within(Only(fl.order, Below(fl, f)), fl.calls.Keys)
    ensures In(RatioEdges(fl), Only(fl.order, Below(fl, f)), g) <= 1.0
  {
    RatiosAreWeights(fl);
    InFewer(RatioEdges(fl), fl.order, Below(fl, f), g);
    if Top(fl, g) { TopShares(fl, g); } else { RatioSum(fl, g); }
  }

  /** Nothing below f calls f, but f itself. */
  lemma NotBelowItself(fl: Flow, f: FunctionId)
    requires WellFormed(fl) && Acyclic(fl) && f in fl.calls
    ensures Within(Only(fl.order, Below(fl, f)), fl.calls.Keys)
    ensures In(RatioEdges(fl), Only(fl.order, Below(fl, f)), f) == 0.0
  {
    var m, fs := RatioEdges(fl), Only(fl.order, Below(fl, f));
    forall i | 0 <= i < |fs|
      ensures fs[i] in fl.calls && !Calls(m, fs[i], f)
    {
      var a := fs[i];
      assert a in fs;
      forall j | 0 <= j < |fl.calls[a]| && fl.calls[a][j].callee == f
        ensures a == f
      {
        var g := CallGraph(fl);
        assert g[a][j] == f;
        ReachEdge(g, a, f);
        assert Mutual(g, f, a);
      }
      RatiosCall(fl, a, fl.calls[a], f);
    }
    InNone(m, fs, f);
  }

  function Twice(): Flow {
    Flow([1, 2, 3], map[1 := 0.0, 2 := 0.0, 3 := 1.0],
         map[1 := [CallData(3, Some(0.0))], 2 := [CallData(3, Some(0.0))], 3 := []])
  }

  lemma TwiceGraph()
    ensures CallGraph(Twice()) == map[1 := [3], 2 := [3], 3 := []]
  {
    var g := CallGraph(Twice());
    assert g.Keys == {1, 2, 3};
    assert g[1] == [3] && g[2] == [3] && g[3] == [];
  }

  lemma TwiceAcyclic()
    ensures WellFormed(Twice()) && Acyclic(Twice())
  {
    TwiceGraph();
    var g := CallGraph(Twice());
    hide CallGraph;
    forall a, b | Mutual(g, a, b)
      ensures a == b
    {
      ClosedContainsReachable(g, {b, 3}, b, a);
      ClosedContainsReachable(g, {a, 3}, a, b);
    }
  }

  lemma TwiceTops()
    ensures Tops(Twice()) == [1, 2]
  {
    var fl := Twice();
    assert fl.calls[1][0].callee == 3;
    var tops := set f | f in fl.calls && Top(fl, f);
    assert tops == {1, 2};
    assert [1, 2, 3][1..] == [2, 3] && [2, 3][1..] == [3] && [3][1..] == [];
    assert Only([3], tops) == [];
    assert Only([2, 3], tops) == [2];
  }

  lemma TwiceUncounted()
    ensures WellFormed(Twice()) && Incoming(Twice(), 3) == 0.0
  {
    var fl := Twice();
    var m := CountEdges(fl);
    assert m[1] == m[2] == [Edge(3, 0.0)] && m[3] == [];
    hide Counts, WellFormed;
    assert [1, 2, 3][1..] == [2, 3] && [2, 3][1..] == [3] && [3][1..] == [];
    assert In(m, [3], 3) == 0.0 && In(m, [2, 3], 3) == 0.0;
  }

  lemma TwiceTotals()
    ensures WellFormed(Twice()) && Acyclic(Twice())
    ensures Total(Twice(), 1) == 1.0 && Total(Twice(), 2) == 1.0
  {
    TwiceAcyclic();
    TwiceUncounted();
    var fl := Twice();
    hide Incoming, WellFormed, Acyclic;
    assert Total(fl, 3) == 1.0;
    assert Through(fl, 1, 1) == 0.0 && Through(fl, 2, 1) == 0.0;
  }

  /** Two functions call a third, never counted: each takes the whole of its time. */
  lemma ZeroCountsDouble()
    ensures WellFormed(Twice()) && Acyclic(Twice()) && Sum(Twice().order, Twice().time) == 1.0
    ensures Within(Tops(Twice()), Totals(Twice()).Keys) && Sum(Tops(Twice()), Totals(Twice())) == 2.0
  {
    TwiceTops();
    TwiceTotals();
    var fl := Twice();
    hide Total, Tops, Acyclic;
    assert Sum([3], fl.time) == 1.0 && Sum([2, 3], fl.time) == 1.0;
    assert Sum([2], Totals(fl)) == 1.0;
  }
}
