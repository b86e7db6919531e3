/** Sums over the weighted calls of a set of functions. */
module WeightedGraphs {
  import opened Sets
  import opened Graphs

  datatype Edge = Edge(callee: FunctionId, weight: real)

  /** For every function its weighted calls. */
  type Edges = map<FunctionId, seq<Edge>>

  type Values = map<FunctionId, real>

  predicate Within(fs: seq<FunctionId>, keys: set<FunctionId>) {
    forall i :: 0 <= i < |fs| ==> fs[i] in keys
  }

  lemma IndexOf(fs: seq<FunctionId>, f: FunctionId) returns (k: nat)
    requires f in fs
    ensures k < |fs| && fs[k] == f
  {
    k :| 0 <= k < |fs| && fs[k] == f;
  }

  /** All calls in es go to functions in keys. */
  predicate CalleesIn(es: seq<Edge>, keys: set<FunctionId>) {
    forall i :: 0 <= i < |es| ==> es[i].callee in keys
  }

  predicate AllCalleesIn(m: Edges, fs: seq<FunctionId>, keys: set<FunctionId>) {
    Within(fs, m.Keys) && forall i :: 0 <= i < |fs| ==> CalleesIn(m[fs[i]], keys)
  }

  predicate Weighted(es: seq<Edge>) {
    forall i :: 0 <= i < |es| ==> es[i].weight >= 0.0
  }

  predicate NonNegative(m: Edges) {
    forall f :: f in m ==> Weighted(m[f])
  }

  predicate Calls(m: Edges, f: FunctionId, g: FunctionId) {
    f in m && exists i :: 0 <= i < |m[f]| && m[f][i].callee == g
  }

  function Ids(fs: seq<FunctionId>): set<FunctionId> {
    set f | f in fs
  }

  function Sum(fs: seq<FunctionId>, t: Values): real
    requires Within(fs, t.Keys)
  {
    if fs == [] then 0.0 else t[fs[0]] + Sum(fs[1..], t)
  }

  /** What the calls in es bring, each callee's value scaled by the call's weight. */
  function Out(es: seq<Edge>, t: Values): real
    requires CalleesIn(es, t.Keys)
  {
    if es == [] then 0.0 else es[0].weight * t[es[0].callee] + Out(es[1..], t)
  }

  /** The weight of the calls in es that go to g. */
  function Into(es: seq<Edge>, g: FunctionId): real {
    if es == [] then 0.0 else (if es[0].callee == g then es[0].weight else 0.0) + Into(es[1..], g)
  }

  /** The weight of all calls from functions in fs to g. */
  function In(m: Edges, fs: seq<FunctionId>, g: FunctionId): real
    requires Within(fs, m.Keys)
  {
    if fs == [] then 0.0 else Into(m[fs[0]], g) + In(m, fs[1..], g)
  }

  function SumOut(m: Edges, fs: seq<FunctionId>, t: Values): real
    requires AllCalleesIn(m, fs, t.Keys)
  {
    if fs == [] then 0.0 else Out(m[fs[0]], t) + SumOut(m, fs[1..], t)
  }

  function SumInto(es: seq<Edge>, gs: seq<FunctionId>, t: Values): real
    requires Within(gs, t.Keys)
  {
    if gs == [] then 0.0 else Into(es, gs[0]) * t[gs[0]] + SumInto(es, gs[1..], t)
  }

  function SumIn(m: Edges, fs: seq<FunctionId>, gs: seq<FunctionId>, t: Values): real
    requires Within(fs, m.Keys)
    requires Within(gs, t.Keys)
  {
    if gs == [] then 0.0 else In(m, fs, gs[0]) * t[gs[0]] + SumIn(m, fs, gs[1..], t)
  }

  // Products that a proof may hide.

  function Times(a: real, b: real): real {
    a * b
  }

  // Exchanging the order of summation.

  lemma Distribute(a: real, b: real, c: real)
    ensures (a + b) * c == a * c + b * c
  {
  }

  /** One more call adds its share to one of the sums. */
  lemma {:induction false} AddEdge(e: Edge, es: seq<Edge>, gs: seq<FunctionId>, t: Values)
    requires Distinct(gs) && e.callee in t
    requires Within(gs, t.Keys)
    ensures SumInto([e] + es, gs, t) == SumInto(es, gs, t) + (if e.callee in gs then e.weight * t[e.callee] else 0.0)
  {
    if gs != [] {
      AddEdge(e, es, gs[1..], t);
      assert ([e] + es)[1..] == es;
      Distribute(if e.callee == gs[0] then e.weight else 0.0, Into(es, gs[0]), t[gs[0]]);
    }
  }

  lemma {:induction false} NoEdges(gs: seq<FunctionId>, t: Values)
    requires Within(gs, t.Keys)
    ensures SumInto([], gs, t) == 0.0
  {
    if gs != [] {
      NoEdges(gs[1..], t);
    }
  }

  lemma {:induction false} OutIsInto(es: seq<Edge>, gs: seq<FunctionId>, t: Values)
    requires Distinct(gs)
    requires Within(gs, t.Keys)
    requires CalleesIn(es, Ids(gs))
    ensures Out(es, t) == SumInto(es, gs, t)
  {
    if es == [] {
      NoEdges(gs, t);
    } else {
      OutIsInto(es[1..], gs, t);
      AddEdge(es[0], es[1..], gs, t);
      assert [es[0]] + es[1..] == es;
    }
  }

  lemma {:induction false} SumInSplit(m: Edges, fs: seq<FunctionId>, gs: seq<FunctionId>, t: Values)
    requires fs != [] && Within(fs, m.Keys)
    requires Within(gs, t.Keys)
    ensures SumIn(m, fs, gs, t) == SumInto(m[fs[0]], gs, t) + SumIn(m, fs[1..], gs, t)
  {
    if gs != [] {
      SumInSplit(m, fs, gs[1..], t);
      Distribute(Into(m[fs[0]], gs[0]), In(m, fs[1..], gs[0]), t[gs[0]]);
    }
  }

  lemma {:induction false} SumInNone(m: Edges, gs: seq<FunctionId>, t: Values)
    requires Within(gs, t.Keys)
    ensures SumIn(m, [], gs, t) == 0.0
  {
    if gs != [] {
      SumInNone(m, gs[1..], t);
    }
  }

  /** What all calls bring is the same summed by caller and by callee. */
  lemma {:induction false} Exchange(m: Edges, fs: seq<FunctionId>, gs: seq<FunctionId>, t: Values)
    requires Distinct(gs) && Within(gs, t.Keys)
    requires AllCalleesIn(m, fs, Ids(gs))
    ensures SumOut(m, fs, t) == SumIn(m, fs, gs, t)
  {
    if fs == [] {
      SumInNone(m, gs, t);
    } else {
      Exchange(m, fs[1..], gs, t);
      OutIsInto(m[fs[0]], gs, t);
      SumInSplit(m, fs, gs, t);
    }
  }

  // A value for every function: its own and what its calls bring.

  /** The functions in fs call only each other, and each has its own value and what
      its calls bring. */
  predicate Solves(m: Edges, fs: seq<FunctionId>, own: Values, t: Values) {
    && AllCalleesIn(m, fs, Ids(fs)) && Within(fs, own.Keys) && Within(fs, t.Keys)
    && forall i :: 0 <= i < |fs| ==> CalleesIn(m[fs[i]], t.Keys) && t[fs[i]] == own[fs[i]] + Out(m[fs[i]], t)
  }

  lemma {:induction false} SumSolution(m: Edges, fs: seq<FunctionId>, own: Values, t: Values)
    requires Within(fs, own.Keys) && Within(fs, t.Keys) && AllCalleesIn(m, fs, t.Keys)
    requires forall i :: 0 <= i < |fs| ==> t[fs[i]] == own[fs[i]] + Out(m[fs[i]], t)
    ensures Sum(fs, t) == Sum(fs, own) + SumOut(m, fs, t)
  {
    if fs != [] {
      SumSolution(m, fs[1..], own, t);
    }
  }

  /** What each value contributes that no call takes on. */
  function Excess(m: Edges, fs: seq<FunctionId>, gs: seq<FunctionId>, t: Values): real
    requires Within(fs, m.Keys)
    requires Within(gs, t.Keys)
  {
    if gs == [] then 0.0 else (1.0 - In(m, fs, gs[0])) * t[gs[0]] + Excess(m, fs, gs[1..], t)
  }

  lemma {:induction false} ExcessIs(m: Edges, fs: seq<FunctionId>, gs: seq<FunctionId>, t: Values)
    requires Within(fs, m.Keys)
    requires Within(gs, t.Keys)
    ensures Excess(m, fs, gs, t) == Sum(gs, t) - SumIn(m, fs, gs, t)
  {
    if gs != [] {
      ExcessIs(m, fs, gs[1..], t);
      Distribute(1.0, -In(m, fs, gs[0]), t[gs[0]]);
    }
  }

  /** Among functions that call only each other the values, each as far as it is not
      passed on, add up to what the functions have of their own. */
  lemma Balance(m: Edges, fs: seq<FunctionId>, own: Values, t: Values)
    requires Distinct(fs) && Solves(m, fs, own, t)
    ensures Excess(m, fs, fs, t) == Sum(fs, own)
  {
    Exchange(m, fs, fs, t);
    SumSolution(m, fs, own, t);
    ExcessIs(m, fs, fs, t);
  }

  // Comparing sums.

  lemma {:induction false} IntoPart(es: seq<Edge>, g: FunctionId)
    requires Weighted(es)
    ensures Into(es, g) >= 0.0
    ensures forall i :: 0 <= i < |es| && es[i].callee == g ==> es[i].weight <= Into(es, g)
  {
    if es != [] {
      IntoPart(es[1..], g);
      forall i | 0 <= i < |es| && es[i].callee == g
        ensures es[i].weight <= Into(es, g)
      {
        if i > 0 {
          assert es[1..][i - 1] == es[i];
        }
      }
    }
  }

  lemma WeightedCalls(m: Edges, f: FunctionId)
    requires NonNegative(m) && f in m
    ensures Weighted(m[f])
  {
  }

  lemma {:induction false} InPart(m: Edges, fs: seq<FunctionId>, g: FunctionId)
    requires NonNegative(m) && Within(fs, m.Keys)
    ensures In(m, fs, g) >= 0.0
    ensures forall k, i :: 0 <= k < |fs| && 0 <= i < |m[fs[k]]| && m[fs[k]][i].callee == g ==>
      m[fs[k]][i].weight <= In(m, fs, g)
  {
    if fs != [] {
      InPart(m, fs[1..], g);
      WeightedCalls(m, fs[0]);
      IntoPart(m[fs[0]], g);
    }
  }

  lemma {:induction false} IntoNone(es: seq<Edge>, g: FunctionId)
    requires forall i :: 0 <= i < |es| ==> es[i].callee != g
    ensures Into(es, g) == 0.0
  {
    if es != [] {
      IntoNone(es[1..], g);
    }
  }

  /** Nothing comes in where nobody calls. */
  lemma {:induction false} InNone(m: Edges, fs: seq<FunctionId>, g: FunctionId)
    requires Within(fs, m.Keys) && forall i :: 0 <= i < |fs| ==> !Calls(m, fs[i], g)
    ensures In(m, fs, g) == 0.0
  {
    if fs != [] {
      InNone(m, fs[1..], g);
      assert !Calls(m, fs[0], g);
      IntoNone(m[fs[0]], g);
    }
  }

  /** Fewer callers bring in no more. */
  lemma {:induction false} InFewer(m: Edges, fs: seq<FunctionId>, keep: set<FunctionId>, g: FunctionId)
    requires NonNegative(m) && Within(fs, m.Keys)
    ensures Within(Only(fs, keep), m.Keys)
    ensures In(m, Only(fs, keep), g) <= In(m, fs, g)
  {
    if fs != [] {
      InFewer(m, fs[1..], keep, g);
      WeightedCalls(m, fs[0]);
      if fs[0] in keep {
        OnlyRest(fs, keep);
      } else {
        assert Only(fs, keep) == Only(fs[1..], keep);
      }
      IntoPart(m[fs[0]], g);
    }
  }

  /** The functions of fs that are in keep, in the same order. */
  function Only(fs: seq<FunctionId>, keep: set<FunctionId>): (r: seq<FunctionId>)
    ensures forall f :: f in r <==> f in fs && f in keep
  {
    if fs == [] then [] else (if fs[0] in keep then [fs[0]] else []) + Only(fs[1..], keep)
  }

  lemma OnlyRest(fs: seq<FunctionId>, keep: set<FunctionId>)
    requires fs != [] && fs[0] in keep
    ensures Only(fs, keep)[0] == fs[0] && Only(fs, keep)[1..] == Only(fs[1..], keep)
  {
  }

  lemma SumOnly(fs: seq<FunctionId>, keep: set<FunctionId>, t: Values)
    requires fs != [] && fs[0] in t && Within(Only(fs[1..], keep), t.Keys)
    ensures Within(Only(fs, keep), t.Keys)
    ensures Sum(Only(fs, keep), t) == (if fs[0] in keep then t[fs[0]] else 0.0) + Sum(Only(fs[1..], keep), t)
  {
    if fs[0] in keep {
      OnlyRest(fs, keep);
    } else {
      assert Only(fs, keep) == Only(fs[1..], keep);
    }
  }

  lemma {:induction false} OnlyDistinct(fs: seq<FunctionId>, keep: set<FunctionId>)
    requires Distinct(fs)
    ensures Distinct(Only(fs, keep))
  {
    if fs != [] {
      OnlyDistinct(fs[1..], keep);
      assert forall i :: 1 <= i < |fs| ==> fs[i] != fs[0];
    }
  }

  lemma {:induction false} SumFewer(fs: seq<FunctionId>, keep: set<FunctionId>, t: Values)
    requires Within(fs, t.Keys) && forall i :: 0 <= i < |fs| ==> t[fs[i]] >= 0.0
    ensures Within(Only(fs, keep), t.Keys)
    ensures Sum(Only(fs, keep), t) <= Sum(fs, t)
  {
    if fs != [] {
      assert fs[0] in t && t[fs[0]] >= 0.0;
      SumFewer(fs[1..], keep, t);
      if fs[0] in keep {
        OnlyRest(fs, keep);
      } else {
        assert Only(fs, keep) == Only(fs[1..], keep);
      }
    }
  }

  lemma Nonneg(a: real, b: real)
    requires a >= 0.0 && b >= 0.0
    ensures a * b >= 0.0
  {
  }

  /** Where no more than the whole is passed on, one value is no more than the excess. */
  lemma {:induction false} ExcessPart(m: Edges, fs: seq<FunctionId>, gs: seq<FunctionId>, t: Values, g: FunctionId)
    requires Within(fs, m.Keys)
    requires Within(gs, t.Keys) && forall i :: 0 <= i < |gs| ==> t[gs[i]] >= 0.0 && In(m, fs, gs[i]) <= 1.0
    ensures Excess(m, fs, gs, t) >= 0.0
    ensures g in gs && In(m, fs, g) == 0.0 ==> t[g] <= Excess(m, fs, gs, t)
  {
    if gs != [] {
      ExcessPart(m, fs, gs[1..], t, g);
      Nonneg(1.0 - In(m, fs, gs[0]), t[gs[0]]);
    }
  }

  // What is passed on beyond, or short of, what there is.

  /** What the calls to g take of its value beyond that value. */
  function Over(m: Edges, fs: seq<FunctionId>, g: FunctionId, t: Values): real
    requires Within(fs, m.Keys) && g in t
  {
    Times(In(m, fs, g) - 1.0, t[g])
  }

  /** The same over all functions in gs but the tops. */
  function Surplus(m: Edges, fs: seq<FunctionId>, gs: seq<FunctionId>, t: Values, tops: set<FunctionId>): real
    requires Within(fs, m.Keys) && Within(gs, t.Keys)
  {
    if gs == [] then 0.0
    else (if gs[0] in tops then 0.0 else Over(m, fs, gs[0], t)) + Surplus(m, fs, gs[1..], t, tops)
  }

  predicate NothingInto(m: Edges, fs: seq<FunctionId>, gs: seq<FunctionId>, tops: set<FunctionId>)
    requires Within(fs, m.Keys)
  {
    forall i :: 0 <= i < |gs| && gs[i] in tops ==> In(m, fs, gs[i]) == 0.0
  }

  lemma {:induction false} ExcessSurplus(m: Edges, fs: seq<FunctionId>, gs: seq<FunctionId>, t: Values,
                                         tops: set<FunctionId>)
    requires Within(fs, m.Keys) && Within(gs, t.Keys) && NothingInto(m, fs, gs, tops)
    ensures Within(Only(gs, tops), t.Keys)
    ensures Sum(Only(gs, tops), t) == Excess(m, fs, gs, t) + Surplus(m, fs, gs, t, tops)
  {
    if gs != [] {
      var share, total := In(m, fs, gs[0]), t[gs[0]];
      assert gs[0] in tops ==> share == 0.0;
      hide In;
      assert forall i :: 0 <= i < |gs| - 1 ==> gs[1..][i] == gs[i + 1];
      ExcessSurplus(m, fs, gs[1..], t, tops);
      SumOnly(gs, tops, t);
      assert (share - 1.0) * total == -((1.0 - share) * total);
      assert gs[0] in tops ==> (1.0 - share) * total == total;
      assert Excess(m, fs, gs, t) == (1.0 - share) * total + Excess(m, fs, gs[1..], t);
      hide Excess, Sum, Only, NothingInto;
    }
  }

  /** What is passed on is, function by function, at least or at most what there is. */
  predicate OneWay(m: Edges, fs: seq<FunctionId>, gs: seq<FunctionId>, t: Values, tops: set<FunctionId>, more: bool)
    requires Within(fs, m.Keys) && Within(gs, t.Keys)
  {
    forall i :: 0 <= i < |gs| && gs[i] !in tops ==>
      if more then Over(m, fs, gs[i], t) >= 0.0 else Over(m, fs, gs[i], t) <= 0.0
  }

  predicate NoneOver(m: Edges, fs: seq<FunctionId>, gs: seq<FunctionId>, t: Values, tops: set<FunctionId>)
    requires Within(fs, m.Keys) && Within(gs, t.Keys)
  {
    forall i :: 0 <= i < |gs| && gs[i] !in tops ==> Over(m, fs, gs[i], t) == 0.0
  }

  /** Then it is right on the whole exactly when it is for every function. */
  lemma {:induction false} SurplusNone(m: Edges, fs: seq<FunctionId>, gs: seq<FunctionId>, t: Values,
                                       tops: set<FunctionId>, more: bool)
    requires Within(fs, m.Keys) && Within(gs, t.Keys) && OneWay(m, fs, gs, t, tops, more)
    ensures if more then Surplus(m, fs, gs, t, tops) >= 0.0 else Surplus(m, fs, gs, t, tops) <= 0.0
    ensures Surplus(m, fs, gs, t, tops) == 0.0 <==> NoneOver(m, fs, gs, t, tops)
  {
    hide Over;
    if gs != [] {
      assert forall i :: 1 <= i < |gs| ==> gs[i] == gs[1..][i - 1];
      assert forall i :: 0 <= i < |gs| - 1 ==> gs[1..][i] == gs[i + 1];
      SurplusNone(m, fs, gs[1..], t, tops, more);
    }
  }
}
