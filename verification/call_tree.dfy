/** The call tree of a profile: totals from the leaves to the roots, and calls that are
    folded into their parents. */
module CallTree {
  import opened Sets
  import opened SetSums
  import opened CallForest

  type Counters = map<string, real>

  datatype Call = Call(name: string, data: Counters, total: Counters, folded: bool)

  type Calls = map<Stack, Call>

  type Children = map<Stack, set<Stack>>

  /** Children are looked up in a dictionary whose default is the empty set. */
  function At(children: Children, s: Stack): set<Stack> {
    if s in children then children[s] else {}
  }

  function Value(c: Counters, k: string): real {
    if k in c then c[k] else 0.0
  }

  function IsFolded(name: string): bool {
    name == ".plt"
  }

  function FoldedSet(calls: Calls): set<Stack> {
    set s | s in calls && IsFolded(calls[s].name)
  }

  function Full(ids: set<Stack>, children: Children): Children {
    map s | s in ids :: At(children, s)
  }

  function DataOf(calls: Calls, k: string): map<Stack, real> {
    map s | s in calls :: Value(calls[s].data, k)
  }

  function TotalOf(calls: Calls, k: string): map<Stack, real> {
    map s | s in calls :: Value(calls[s].total, k)
  }

  /** No call comes back. */
  predicate Deeper(children: Children) {
    forall s, x :: s in children && x in children[s] ==> |x| > |s|
  }

  // What a call has once its total has been built; before tells what the calls had.

  ghost predicate TotalBuilt(before: Calls, calls: Calls, s: Stack, k: string)
    requires s in calls && s in before && calls.Keys == before.Keys
  {
    Value(calls[s].total, k) == Value(before[s].data, k) + Sum(Kids(calls.Keys, s), TotalOf(calls, k))
  }

  ghost predicate DataBuilt(before: Calls, calls: Calls, s: Stack, k: string)
    requires s in calls && s in before && calls.Keys == before.Keys
  {
    Value(calls[s].data, k) == Value(before[s].data, k)
      + if k == "calls" then 0.0 else Sum(Kids(calls.Keys, s) * FoldedSet(calls), DataOf(calls, k))
  }

  ghost predicate Built(before: Calls, calls: Calls, children: Children, s: Stack) {
    && calls.Keys == before.Keys && s in calls
    && (forall k :: TotalBuilt(before, calls, s, k))
    && (forall k :: DataBuilt(before, calls, s, k))
    && calls[s].folded == IsFolded(calls[s].name)
    && FoldsTo(Kids(calls.Keys, s), FoldedSet(calls), Full(calls.Keys, children), At(children, s))
  }

  /** Nothing has been done to a call yet. */
  ghost predicate Fresh(before: Calls, calls: Calls, children: Children, s: Stack) {
    && calls.Keys == before.Keys && s in calls
    && calls[s].data == before[s].data && At(children, s) == Kids(calls.Keys, s)
  }

  predicate SameNames(before: Calls, calls: Calls) {
    calls.Keys == before.Keys && forall s :: s in calls ==> calls[s].name == before[s].name
  }

  predicate SameKeys(calls: Calls, keys: set<string>) {
    forall s :: s in calls ==> s != [] && calls[s].data.Keys == keys
  }

  /** Changing one call leaves what was built of a call that does not make it. */
  lemma BuiltStays(before: Calls, calls: Calls, children: Children, s: Stack, c: Call, x: set<Stack>, p: Stack)
    requires Built(before, calls, children, p) && p != s && s in calls && s !in Kids(calls.Keys, p)
    requires c.name == calls[s].name
    ensures Built(before, calls[s := c], children[s := x], p)
  {
    var calls', children', ids := calls[s := c], children[s := x], calls.Keys;
    assert calls'.Keys == ids && FoldedSet(calls') == FoldedSet(calls);
    forall k
      ensures TotalBuilt(before, calls', p, k) && DataBuilt(before, calls', p, k)
    {
      assert TotalBuilt(before, calls, p, k) && DataBuilt(before, calls, p, k);
      Agree(Kids(ids, p), TotalOf(calls, k), TotalOf(calls', k));
      Agree(Kids(ids, p) * FoldedSet(calls), DataOf(calls, k), DataOf(calls', k));
    }
    forall y
      ensures HandedUp(Kids(ids, p), FoldedSet(calls), Full(ids, children), y)
        <==> HandedUp(Kids(ids, p), FoldedSet(calls), Full(ids, children'), y)
    {
      assert forall z :: z in Kids(ids, p) ==> At(children', z) == At(children, z);
    }
  }

  // The order in which calls are visited.

  function SetOf(ordered: seq<Stack>): set<Stack> {
    set s | s in ordered
  }

  /** Every call once, and after all the calls it makes. */
  ghost predicate ChildrenFirst(ids: set<Stack>, ordered: seq<Stack>) {
    && Distinct(ordered) && SetOf(ordered) == ids
    && forall i :: 0 <= i < |ordered| ==> Kids(ids, ordered[i]) <= SetOf(ordered[..i])
  }

  /** Midway: what has been ordered, and what is still to visit. */
  ghost predicate Ordering(ids: set<Stack>, ordered: seq<Stack>, toVisit: seq<Stack>) {
    && Distinct(ordered) && Distinct(toVisit) && SetOf(ordered) !! SetOf(toVisit)
    && Roots(ids) <= SetOf(ordered) + SetOf(toVisit) <= ids
    && (forall s :: s in SetOf(ordered) + SetOf(toVisit) && s !in Roots(ids) ==> Parent(s) in SetOf(ordered))
    && KidsSeen(ids, ordered, SetOf(toVisit))
  }

  /** The calls that an ordered call makes come before it or are still to visit. */
  ghost predicate KidsSeen(ids: set<Stack>, ordered: seq<Stack>, toVisit: set<Stack>) {
    forall i :: 0 <= i < |ordered| ==> Kids(ids, ordered[i]) <= SetOf(ordered[..i]) + toVisit
  }

  lemma {:induction false} AllOrdered(ids: set<Stack>, seen: set<Stack>, s: Stack)
    requires Roots(ids) <= seen && s in ids
    requires forall x :: x in seen ==> Kids(ids, x) <= seen
    ensures s in seen
    decreases |s|
  {
    if s !in Roots(ids) {
      AllOrdered(ids, seen, Parent(s));
      assert s in Kids(ids, Parent(s));
    }
  }

  lemma OrderingStarts(ids: set<Stack>, toVisit: seq<Stack>)
    requires Distinct(toVisit) && SetOf(toVisit) == Roots(ids)
    ensures Ordering(ids, [], toVisit)
  {
    assert SetOf([]) == {};
  }

  lemma OrderingEnds(ids: set<Stack>, ordered: seq<Stack>)
    requires Ordering(ids, ordered, [])
    ensures ChildrenFirst(ids, ordered)
  {
    assert SetOf([]) == {};
    forall x | x in SetOf(ordered)
      ensures Kids(ids, x) <= SetOf(ordered)
    {
      var i :| 0 <= i < |ordered| && ordered[i] == x;
    }
    forall s | s in ids
      ensures s in SetOf(ordered)
    {
      AllOrdered(ids, SetOf(ordered), s);
    }
  }

  lemma OrderingStep(ids: set<Stack>, ordered: seq<Stack>, toVisit: seq<Stack>, s: Stack, kids: seq<Stack>)
    requires Ordering(ids, ordered, toVisit + [s]) && Distinct(kids) && SetOf(kids) == Kids(ids, s)
    ensures s in ids && s !in SetOf(ordered)
    ensures Ordering(ids, [s] + ordered, toVisit + kids)
  {
    assert SetOf(toVisit + [s]) == SetOf(toVisit) + {s} by {
      assert forall x :: x in toVisit + [s] <==> x in toVisit || x == s;
    }
    assert SetOf([s] + ordered) == SetOf(ordered) + {s};
    assert SetOf(toVisit + kids) == SetOf(toVisit) + Kids(ids, s);
    assert (toVisit + [s])[|toVisit|] == s;
    assert forall i :: 0 <= i < |toVisit| ==> (toVisit + [s])[i] == toVisit[i];
    forall t | t in Kids(ids, s)
      ensures t !in SetOf(ordered) + SetOf(toVisit) + {s}
    {
      assert t !in Roots(ids) && Parent(t) == s;
    }
    DistinctJoin(toVisit, [s], kids);
    KidsStep(ids, ordered, SetOf(toVisit), s);
    hide KidsSeen;
    assert Distinct([s] + ordered) by {
      assert forall i :: 0 <= i < |ordered| ==> ordered[i] in SetOf(ordered);
    }
  }

  lemma DistinctJoin(a: seq<Stack>, b: seq<Stack>, c: seq<Stack>)
    requires Distinct(a + b) && Distinct(c) && SetOf(a) !! SetOf(c)
    ensures Distinct(a + c)
  {
    assert forall i :: 0 <= i < |a| ==> (a + b)[i] == a[i] && a[i] in SetOf(a);
    assert forall i :: 0 <= i < |c| ==> c[i] in SetOf(c);
  }

  lemma KidsStep(ids: set<Stack>, ordered: seq<Stack>, toVisit: set<Stack>, s: Stack)
    requires KidsSeen(ids, ordered, toVisit + {s})
    ensures KidsSeen(ids, [s] + ordered, toVisit + Kids(ids, s))
  {
    var more := [s] + ordered;
    forall i | 0 <= i < |more|
      ensures Kids(ids, more[i]) <= SetOf(more[..i]) + (toVisit + Kids(ids, s))
    {
      if i > 0 {
        assert more[..i] == [s] + ordered[..i - 1];
        assert Kids(ids, ordered[i - 1]) <= SetOf(ordered[..i - 1]) + (toVisit + {s});
      }
    }
  }

  // Building a total.

  // Midway through the calls that s makes, those in done added: its counters, and its
  // children so far.

  ghost predicate SumsSoFar(before: Calls, calls: Calls, s: Stack, done: set<Stack>, total: Counters, data: Counters) {
    && calls.Keys == before.Keys && s in calls && done <= Kids(calls.Keys, s)
    && (forall k :: Value(total, k) == Value(before[s].data, k) + Sum(done, TotalOf(calls, k)))
    && (forall k :: Value(data, k) == Value(before[s].data, k)
          + if k == "calls" then 0.0 else Sum(done * FoldedSet(calls), DataOf(calls, k)))
  }

  ghost predicate ChildrenSoFar(ids: set<Stack>, folded: set<Stack>, children: Children, s: Stack, done: set<Stack>,
                                mine: set<Stack>)
  {
    forall x :: x in mine <==>
      ((x in Kids(ids, s) && x !in done * folded) || HandedUp(done, folded, Full(ids, children), x))
  }

  /** Counters whose values have been added up, except for some. */
  predicate Added(a: Counters, b: Counters, but: set<string>, r: Counters) {
    r.Keys == a.Keys && forall k :: k in a ==> r[k] == a[k] + if k in but then 0.0 else Value(b, k)
  }

  /** The totals with the counters of one more call. */
  ghost predicate Counted(totals: Counters, data: Counters, more: Counters) {
    forall k :: Value(more, k) == Value(totals, k) + Value(data, k)
  }

  lemma NothingSoFar(before: Calls, calls: Calls, children: Children, s: Stack)
    requires Fresh(before, calls, children, s)
    ensures SumsSoFar(before, calls, s, {}, calls[s].data, calls[s].data)
    ensures ChildrenSoFar(calls.Keys, FoldedSet(calls), children, s, {}, At(children, s))
  {
    assert {} * FoldedSet(calls) == {};
  }

  lemma SumsStep(before: Calls, calls: Calls, s: Stack, done: set<Stack>, c: Stack,
                 total: Counters, data: Counters, total': Counters, data': Counters)
    requires SumsSoFar(before, calls, s, done, total, data)
    requires c in Kids(calls.Keys, s) && c !in done
    requires total.Keys == data.Keys == calls[c].data.Keys == calls[c].total.Keys
    requires Added(total, calls[c].total, {}, total')
    requires if c in FoldedSet(calls) then Added(data, calls[c].data, {"calls"}, data') else data' == data
    ensures SumsSoFar(before, calls, s, done + {c}, total', data')
  {
    forall k
      ensures Value(total', k) == Value(before[s].data, k) + Sum(done + {c}, TotalOf(calls, k))
      ensures Value(data', k) == Value(before[s].data, k)
                + if k == "calls" then 0.0 else Sum((done + {c}) * FoldedSet(calls), DataOf(calls, k))
    {
      AddOne(done, TotalOf(calls, k), calls.Keys, c);
      AddOne(done, DataOf(calls, k), FoldedSet(calls), c);
      hide Sum, FoldedSet, Kids;
    }
  }

  lemma AddOne(done: set<Stack>, v: map<Stack, real>, which: set<Stack>, c: Stack)
    requires done + {c} <= v.Keys && c !in done
    ensures Sum((done + {c}) * which, v) == Sum(done * which, v) + if c in which then v[c] else 0.0
    ensures done <= which ==> Sum(done * which, v) == Sum(done, v)
    ensures done + {c} <= which ==> Sum((done + {c}) * which, v) == Sum(done + {c}, v)
  {
    assert done <= which ==> done * which == done;
    assert done + {c} <= which ==> (done + {c}) * which == done + {c};
    if c in which {
      Take((done + {c}) * which, v, c);
      assert (done + {c}) * which - {c} == done * which;
    } else {
      assert (done + {c}) * which == done * which;
    }
  }

  lemma HandedDeeper(ids: set<Stack>, folded: set<Stack>, children: Children, s: Stack, done: set<Stack>, x: Stack)
    requires done <= Kids(ids, s) && Deeper(children) && HandedUp(done, folded, Full(ids, children), x)
    ensures |x| > |s| + 1
  {
    var b :| b in done && b in folded && b in Full(ids, children) && x in Full(ids, children)[b];
  }

  lemma ChildrenStep(ids: set<Stack>, folded: set<Stack>, children: Children, s: Stack, done: set<Stack>, c: Stack,
                     mine: set<Stack>, mine': set<Stack>)
    requires ChildrenSoFar(ids, folded, children, s, done, mine)
    requires done <= Kids(ids, s) && c in Kids(ids, s) && c !in done && Deeper(children)
    requires mine' == if c in folded then mine - {c} + At(children, c) else mine
    ensures ChildrenSoFar(ids, folded, children, s, done + {c}, mine')
  {
    var done', full := done + {c}, Full(ids, children);
    forall x
      ensures HandedUp(done', folded, full, x)
         <==> HandedUp(done, folded, full, x) || (c in folded && x in At(children, c))
    {
      if c in folded && x in At(children, c) {
        assert c in done' && c in full && x in full[c];
      }
    }
    if HandedUp(done, folded, full, c) {
      HandedDeeper(ids, folded, children, s, done, c);
    }
    hide HandedUp;
  }

  lemma SumsEnd(before: Calls, calls: Calls, s: Stack, total: Counters, data: Counters, calls': Calls)
    requires SumsSoFar(before, calls, s, Kids(calls.Keys, s), total, data)
    requires calls' == calls[s := Call(calls[s].name, data, total, IsFolded(calls[s].name))]
    ensures calls'.Keys == calls.Keys && FoldedSet(calls') == FoldedSet(calls)
    ensures forall k :: TotalBuilt(before, calls', s, k)
    ensures forall k :: DataBuilt(before, calls', s, k)
  {
    var ids := calls.Keys;
    var kids := Kids(ids, s);
    assert calls'.Keys == ids && FoldedSet(calls') == FoldedSet(calls) && s !in kids;
    forall k
      ensures TotalBuilt(before, calls', s, k) && DataBuilt(before, calls', s, k)
    {
      Agree(kids, TotalOf(calls, k), TotalOf(calls', k));
      Agree(kids * FoldedSet(calls), DataOf(calls, k), DataOf(calls', k));
      hide Sum;
    }
  }

  lemma ChildrenEnd(ids: set<Stack>, folded: set<Stack>, children: Children, s: Stack, mine: set<Stack>)
    requires ChildrenSoFar(ids, folded, children, s, Kids(ids, s), mine) && Deeper(children)
    ensures Deeper(children[s := mine])
    ensures FoldsTo(Kids(ids, s), folded, Full(ids, children[s := mine]), mine)
  {
    var kids, full, full' := Kids(ids, s), Full(ids, children), Full(ids, children[s := mine]);
    forall y
      ensures HandedUp(kids, folded, full, y) <==> HandedUp(kids, folded, full', y)
    {
      assert forall z :: z in kids ==> At(children[s := mine], z) == At(children, z);
    }
    forall x | x in mine
      ensures |x| > |s|
    {
      if HandedUp(kids, folded, full, x) {
        HandedDeeper(ids, folded, children, s, kids, x);
      }
    }
    hide HandedUp;
  }

  lemma BuildEnds(before: Calls, calls: Calls, children: Children, s: Stack, total: Counters, data: Counters,
                  mine: set<Stack>)
    requires SumsSoFar(before, calls, s, Kids(calls.Keys, s), total, data)
    requires ChildrenSoFar(calls.Keys, FoldedSet(calls), children, s, Kids(calls.Keys, s), mine) && Deeper(children)
    ensures Built(before, calls[s := Call(calls[s].name, data, total, IsFolded(calls[s].name))], children[s := mine], s)
    ensures Deeper(children[s := mine])
  {
    SumsEnd(before, calls, s, total, data, calls[s := Call(calls[s].name, data, total, IsFolded(calls[s].name))]);
    ChildrenEnd(calls.Keys, FoldedSet(calls), children, s, mine);
    hide TotalBuilt, DataBuilt, FoldsTo, Kids, FoldedSet, Full, Deeper, ChildrenSoFar;
  }

  lemma DoneKids(before: Calls, calls: Calls, s: Stack, done: set<Stack>, total: Counters, data: Counters)
    requires SumsSoFar(before, calls, s, done, total, data)
    ensures done <= Kids(calls.Keys, s)
  {
  }

  // Building all totals, in the order found.

  ghost predicate HasKeys(c: Call, keys: set<string>) {
    c.data.Keys == c.total.Keys == keys
  }

  /** The first n calls of the order have what they should, the others are as before. */
  ghost predicate Progress(before: Calls, calls: Calls, children: Children, keys: set<string>, ordered: seq<Stack>,
                           n: nat) {
    && SameNames(before, calls) && Deeper(children) && n <= |ordered| && SetOf(ordered) == calls.Keys
    && (forall i :: 0 <= i < n ==> Built(before, calls, children, ordered[i]) && HasKeys(calls[ordered[i]], keys))
    && (forall i :: n <= i < |ordered| ==>
      Fresh(before, calls, children, ordered[i]) && calls[ordered[i]].data.Keys == keys)
  }

  lemma ProgressReady(before: Calls, calls: Calls, children: Children, keys: set<string>, ordered: seq<Stack>, n: nat)
    requires Progress(before, calls, children, keys, ordered, n) && n < |ordered| && ChildrenFirst(calls.Keys, ordered)
    ensures Fresh(before, calls, children, ordered[n]) && Deeper(children) && Ready(calls, keys, ordered[n])
  {
    var s := ordered[n];
    assert s in SetOf(ordered);
    assert Fresh(before, calls, children, ordered[n]);
    forall c | c in Kids(calls.Keys, s)
      ensures c in calls && HasKeys(calls[c], keys) && calls[c].folded == IsFolded(calls[c].name)
    {
      assert c in SetOf(ordered[..n]);
      var i :| 0 <= i < n && ordered[i] == c;
      assert Built(before, calls, children, ordered[i]);
    }
  }

  lemma ProgressStep(before: Calls, calls: Calls, children: Children, keys: set<string>, ordered: seq<Stack>, n: nat,
                     c: Call, mine: set<Stack>)
    requires Progress(before, calls, children, keys, ordered, n) && n < |ordered| && ChildrenFirst(calls.Keys, ordered)
    requires ordered[n] in calls && c.name == calls[ordered[n]].name && HasKeys(c, keys)
    requires Built(before, calls[ordered[n] := c], children[ordered[n] := mine], ordered[n])
    requires Deeper(children[ordered[n] := mine])
    ensures Progress(before, calls[ordered[n] := c], children[ordered[n] := mine], keys, ordered, n + 1)
  {
    hide Built, Fresh, Deeper, Kids;
    var s, calls', children' := ordered[n], calls[ordered[n] := c], children[ordered[n] := mine];
    assert calls'.Keys == calls.Keys;
    forall i | 0 <= i < n
      ensures Built(before, calls', children', ordered[i])
    {
      NotMadeBefore(calls.Keys, ordered, i, n);
      BuiltStays(before, calls, children, s, c, mine, ordered[i]);
    }
    forall i | n + 1 <= i < |ordered|
      ensures Fresh(before, calls', children', ordered[i])
    {
      FreshStays(before, calls, children, s, c, mine, ordered[i]);
    }
  }

  lemma NotMadeBefore(ids: set<Stack>, ordered: seq<Stack>, i: nat, n: nat)
    requires ChildrenFirst(ids, ordered) && i < n < |ordered|
    ensures ordered[n] !in Kids(ids, ordered[i])
  {
    assert Kids(ids, ordered[i]) <= SetOf(ordered[..i]);
    assert forall j :: 0 <= j < i ==> ordered[..i][j] == ordered[j];
  }

  lemma FreshStays(before: Calls, calls: Calls, children: Children, s: Stack, c: Call, mine: set<Stack>, p: Stack)
    requires Fresh(before, calls, children, p) && p != s && s in calls
    ensures Fresh(before, calls[s := c], children[s := mine], p)
  {
    assert calls[s := c].Keys == calls.Keys;
  }

  lemma OrderInside(ids: set<Stack>, ordered: seq<Stack>)
    requires ChildrenFirst(ids, ordered)
    ensures Distinct(ordered) && SetOf(ordered) == ids && forall i :: 0 <= i < |ordered| ==> ordered[i] in ids
  {
    assert forall i :: 0 <= i < |ordered| ==> ordered[i] in SetOf(ordered);
  }

  ghost predicate AllBuilt(before: Calls, calls: Calls, children: Children) {
    && SameNames(before, calls)
    && forall s :: s in calls ==> Built(before, calls, children, s)
  }

  lemma ProgressEnds(before: Calls, calls: Calls, children: Children, keys: set<string>, ordered: seq<Stack>)
    requires Progress(before, calls, children, keys, ordered, |ordered|)
    ensures AllBuilt(before, calls, children)
  {
    hide Built;
    forall s | s in calls
      ensures Built(before, calls, children, s)
    {
      assert s in SetOf(ordered);
      var i :| 0 <= i < |ordered| && ordered[i] == s;
    }
  }

  /** Every counter of the totals, over all calls in some. */
  ghost predicate Totals(before: Calls, some: set<Stack>, totals: Counters) {
    some <= before.Keys && forall k :: Value(totals, k) == Sum(some, DataOf(before, k))
  }

  lemma TotalsStep(before: Calls, ordered: seq<Stack>, n: nat, totals: Counters, more: Counters)
    requires Distinct(ordered) && n < |ordered| && ordered[n] in before && Totals(before, SetOf(ordered[..n]), totals)
    requires Counted(totals, before[ordered[n]].data, more)
    ensures Totals(before, SetOf(ordered[..n + 1]), more)
  {
    var some, some' := SetOf(ordered[..n]), SetOf(ordered[..n + 1]);
    assert ordered[..n + 1] == ordered[..n] + [ordered[n]];
    assert some' == some + {ordered[n]} && ordered[n] !in some;
    assert some' - {ordered[n]} == some;
    forall k
      ensures Value(more, k) == Sum(some', DataOf(before, k))
    {
      Take(some', DataOf(before, k), ordered[n]);
    }
  }

  // What that means for the profile as a whole.

  /** The totals of the roots add up to the counters of all calls. */
  lemma RootsHaveAll(before: Calls, calls: Calls, children: Children, k: string)
    requires AllBuilt(before, calls, children)
    ensures Roots(calls.Keys) <= calls.Keys
    ensures Sum(Roots(calls.Keys), TotalOf(calls, k)) == Sum(calls.Keys, DataOf(before, k))
  {
    var ids := calls.Keys;
    forall s | s in ids
      ensures TotalOf(calls, k)[s] == DataOf(before, k)[s] + Sum(Kids(ids, s) * ids, TotalOf(calls, k))
    {
      assert Built(before, calls, children, s) && TotalBuilt(before, calls, s, k);
      assert Kids(ids, s) * ids == Kids(ids, s);
    }
    CallForest.Conserved(ids, ids, DataOf(before, k), TotalOf(calls, k));
    RootsAre(ids);
    assert AllKids(ids, ids) * ids == AllKids(ids, ids);
  }

  /** The calls that printing the tree comes to. */
  ghost function PrintedCalls(calls: Calls, children: Children): set<Stack> {
    set s | s in calls && Printed(Roots(calls.Keys), Full(calls.Keys, children), s)
  }

  /** Folding loses nothing but how often the folded calls were made: the counters of
      the calls still printed add up to those of all calls. */
  lemma FoldingLosesNothing(before: Calls, calls: Calls, children: Children, k: string)
    requires AllBuilt(before, calls, children) && k != "calls"
    ensures Sum(PrintedCalls(calls, children), DataOf(calls, k)) == Sum(calls.Keys, DataOf(before, k))
  {
    var ids, folded := calls.Keys, FoldedSet(calls);
    forall s | s in ids
      ensures DataOf(calls, k)[s] == DataOf(before, k)[s] + Sum(Kids(ids, s) * folded, DataOf(calls, k))
    {
      assert Built(before, calls, children, s) && DataBuilt(before, calls, s, k);
    }
    CallForest.Conserved(ids, folded, DataOf(before, k), DataOf(calls, k));
    PrintedAre(before, calls, children);
    assert PrintedCalls(calls, children) == ids - (AllKids(ids, ids) * folded) by {
      RootsAre(ids);
    }
  }

  /** The calls that are folded and have a parent to be folded into. */
  function FoldedAway(before: Calls): set<Stack> {
    FoldedSet(before) - Roots(before.Keys)
  }

  /** How often calls were made is kept for the printed ones as it was: their counters miss
      those of the calls folded away, so they add up exactly when those are 0 in sum. */
  lemma FoldingLosesCalls(before: Calls, calls: Calls, children: Children)
    requires AllBuilt(before, calls, children)
    ensures Sum(PrintedCalls(calls, children), DataOf(calls, "calls"))
         + Sum(FoldedAway(before), DataOf(before, "calls"))
         == Sum(calls.Keys, DataOf(before, "calls"))
    ensures Sum(PrintedCalls(calls, children), DataOf(calls, "calls")) == Sum(calls.Keys, DataOf(before, "calls"))
       <==> Sum(FoldedAway(before), DataOf(before, "calls")) == 0.0
  {
    hide AllBuilt, FoldedAway, PrintedCalls;
    var away, printed := FoldedAway(before), PrintedCalls(calls, children);
    PrintedOrAway(before, calls, children);
    CallsKept(before, calls, children);
    Agree(printed, DataOf(calls, "calls"), DataOf(before, "calls"));
    Union(printed, away, DataOf(before, "calls"));
  }

  lemma PrintedOrAway(before: Calls, calls: Calls, children: Children)
    requires AllBuilt(before, calls, children)
    ensures PrintedCalls(calls, children) + FoldedAway(before) == calls.Keys == before.Keys
    ensures PrintedCalls(calls, children) !! FoldedAway(before)
  {
    hide Built, PrintedCalls;
    PrintedAre(before, calls, children);
    assert FoldedSet(calls) == FoldedSet(before);
    forall s | s in PrintedCalls(calls, children) + FoldedAway(before)
      ensures s in calls
    {
    }
  }

  lemma CallsKept(before: Calls, calls: Calls, children: Children)
    requires AllBuilt(before, calls, children)
    ensures forall s :: s in calls.Keys ==> DataOf(calls, "calls")[s] == DataOf(before, "calls")[s]
  {
    hide TotalBuilt, FoldsTo;
    forall s | s in calls.Keys
      ensures DataOf(calls, "calls")[s] == DataOf(before, "calls")[s]
    {
      assert Built(before, calls, children, s) && DataBuilt(before, calls, s, "calls");
    }
  }

  lemma {:induction false} NothingInSum(keys: set<Stack>, m: map<Stack, real>)
    requires keys <= m.Keys && forall s :: s in keys ==> m[s] >= 0.0
    ensures Sum(keys, m) >= 0.0
    ensures Sum(keys, m) == 0.0 <==> forall s :: s in keys ==> m[s] == 0.0
    decreases keys
  {
    if keys != {} {
      var s :| s in keys;
      Take(keys, m, s);
      NothingInSum(keys - {s}, m);
    }
  }

  /** With no negative counters: exactly when no call folded away was ever counted. */
  lemma FoldingKeepsCallsExactly(before: Calls, calls: Calls, children: Children)
    requires AllBuilt(before, calls, children)
    requires forall s :: s in before ==> Value(before[s].data, "calls") >= 0.0
    ensures Sum(PrintedCalls(calls, children), DataOf(calls, "calls")) == Sum(calls.Keys, DataOf(before, "calls"))
       <==> forall s :: s in FoldedAway(before) ==> Value(before[s].data, "calls") == 0.0
  {
    FoldingLosesCalls(before, calls, children);
    NothingInSum(FoldedAway(before), DataOf(before, "calls"));
    assert forall s :: s in FoldedAway(before) ==> DataOf(before, "calls")[s] == Value(before[s].data, "calls");
  }

  function Counter(n: real): Counters {
    map["calls" := n]
  }

  /** A call that makes a folded one, before and after the totals are built. */
  function FoldedOnce(): Calls {
    map[["f"] := Call("f", Counter(1.0), Counter(0.0), false),
        ["f", ".plt"] := Call(".plt", Counter(1.0), Counter(0.0), false)]
  }

  function FoldedOnceBuilt(): Calls {
    map[["f"] := Call("f", Counter(1.0), Counter(2.0), false),
        ["f", ".plt"] := Call(".plt", Counter(1.0), Counter(1.0), true)]
  }

  /** Both were called once; printed is one call, called once. */
  lemma FoldedOnceLost()
    ensures AllBuilt(FoldedOnce(), FoldedOnceBuilt(), map[])
    ensures Sum(FoldedOnce().Keys, DataOf(FoldedOnce(), "calls")) == 2.0
    ensures Sum(PrintedCalls(FoldedOnceBuilt(), map[]), DataOf(FoldedOnceBuilt(), "calls")) == 1.0
  {
    hide AllBuilt, PrintedCalls, FoldedAway;
    FoldedOnceIsBuilt();
    FoldedOnceAway();
    FoldingLosesCalls(FoldedOnce(), FoldedOnceBuilt(), map[]);
    var f, plt, data := ["f"], ["f", ".plt"], DataOf(FoldedOnce(), "calls");
    SumOne(f, data);
    SumOne(plt, data);
    Union({f}, {plt}, data);
  }

  lemma FoldedOnceAway()
    ensures FoldedAway(FoldedOnce()) == {["f", ".plt"]} && FoldedOnce().Keys == {["f"]} + {["f", ".plt"]}
    ensures FoldedOnceBuilt().Keys == FoldedOnce().Keys
  {
    var f, plt := ["f"], ["f", ".plt"];
    assert Parent(plt) == f && Parent(f) == [];
    assert f in FoldedOnce().Keys;
    assert Roots(FoldedOnce().Keys) == {f};
    assert FoldedSet(FoldedOnce()) == {plt};
  }

  lemma SumOne(s: Stack, m: map<Stack, real>)
    requires s in m
    ensures Sum({s}, m) == m[s]
  {
    Take({s}, m, s);
    assert {s} - {s} == {};
  }

  lemma FoldedOnceIsBuilt()
    ensures AllBuilt(FoldedOnce(), FoldedOnceBuilt(), map[])
  {
    var f, plt, calls := ["f"], ["f", ".plt"], FoldedOnceBuilt();
    var ids := calls.Keys;
    assert Parent(plt) == f && Parent(f) == [];
    assert ids == {f, plt} && Kids(ids, f) == {plt} && Kids(ids, plt) == {};
    assert FoldedSet(calls) == {plt} && {plt} * {plt} == {plt};
    FoldedOnceSums();
    hide Kids, FoldedSet, TotalBuilt, DataBuilt, HandedUp;
    assert Built(FoldedOnce(), calls, map[], f) by {
      FoldedOnceFolds(f);
    }
    assert Built(FoldedOnce(), calls, map[], plt) by {
      FoldedOnceFolds(plt);
    }
  }

  lemma FoldedOnceFolds(s: Stack)
    requires s in FoldedOnceBuilt()
    ensures var calls := FoldedOnceBuilt();
      FoldsTo(Kids(calls.Keys, s), FoldedSet(calls), Full(calls.Keys, map[]), At(map[], s))
  {
    var f, plt, calls := ["f"], ["f", ".plt"], FoldedOnceBuilt();
    assert Parent(plt) == f && Parent(f) == [];
    assert calls.Keys == {f, plt} && FoldedSet(calls) == {plt};
  }

  lemma FoldedOnceSums()
    ensures forall s, k :: s in FoldedOnceBuilt() ==>
      TotalBuilt(FoldedOnce(), FoldedOnceBuilt(), s, k) && DataBuilt(FoldedOnce(), FoldedOnceBuilt(), s, k)
  {
    var f, plt, calls := ["f"], ["f", ".plt"], FoldedOnceBuilt();
    var ids := calls.Keys;
    assert Parent(plt) == f && Parent(f) == [];
    assert ids == {f, plt} && Kids(ids, f) == {plt} && Kids(ids, plt) == {};
    assert FoldedSet(calls) == {plt} && {plt} * {plt} == {plt};
    hide Kids, FoldedSet;
    forall s, k | s in calls
      ensures TotalBuilt(FoldedOnce(), calls, s, k) && DataBuilt(FoldedOnce(), calls, s, k)
    {
      SumOne(plt, TotalOf(calls, k));
      SumOne(plt, DataOf(calls, k));
    }
  }

  /** Printed are the roots and whatever is not folded; no call is printed folded away. */
  lemma PrintedAre(before: Calls, calls: Calls, children: Children)
    requires AllBuilt(before, calls, children)
    ensures forall s :: s in PrintedCalls(calls, children)
                   <==> s in calls && (s in Roots(calls.Keys) || s !in FoldedSet(calls))
  {
    var ids, folded, full := calls.Keys, FoldedSet(calls), Full(calls.Keys, children);
    forall s | s in ids
      ensures FoldsTo(Kids(ids, s), folded, full, full[s])
    {
      assert Built(before, calls, children, s);
    }
    assert Folds(ids, folded, full);
    forall s
      ensures s in PrintedCalls(calls, children) <==> s in calls && (s in Roots(ids) || s !in folded)
    {
      PrintedExactly(ids, folded, full, s);
    }
  }

  class Profile {
    const keys: set<string>
    var calls: Calls
    var children: Children
    var roots: set<Stack>
    var totals: Counters

    /** Nothing has been built yet, and the children of every stack are known. */
    ghost predicate Valid()
      reads this
    {
      && SameKeys(calls, keys)
      && (forall s, t :: t in At(children, s) <==> t in Kids(calls.Keys, s))
      && totals == map[]
    }

    constructor (keys: set<string>)
      ensures Valid() && this.keys == keys && calls == map[]
    {
      this.keys := keys;
      calls, children, roots, totals := map[], map[], {}, map[];
    }

    /** A line of the trace: the counters of one stack, which may have come before. */
    method AddLine(stack: Stack, name: string, data: Counters)
      requires Valid() && stack != [] && data.Keys == keys
      modifies this`calls, this`children
      ensures Valid() && calls.Keys == old(calls).Keys + {stack}
      ensures forall s :: s in old(calls) && s != stack ==> calls[s] == old(calls)[s]
      ensures stack in old(calls) ==> Added(old(calls)[stack].data, data, {}, calls[stack].data)
      ensures stack !in old(calls) ==> calls[stack].data == data && calls[stack].name == name
    {
      if stack in calls {
        var sum := AddAll(calls[stack].data, data, {});
        calls := calls[stack := calls[stack].(data := sum)];
      } else {
        calls := calls[stack := Call(name, data, map[], false)];
        var parent := Parent(stack);
        children := children[parent := At(children, parent) + {stack}];
        forall s, t
          ensures t in At(children, s) <==> t in Kids(calls.Keys, s)
        {
          assert t in Kids(old(calls).Keys, s) <==> t in At(old(children), s);
        }
      }
    }

    /** For every counter in b. */
    static method AddAll(a: Counters, b: Counters, but: set<string>) returns (r: Counters)
      requires b.Keys <= a.Keys
      ensures Added(a, b, but, r)
    {
      r := a;
      var rest := b.Keys;
      while rest != {}
        invariant rest <= b.Keys && r.Keys == a.Keys
        invariant forall k :: k in a ==> r[k] == if k in rest || k in but then a[k] else a[k] + Value(b, k)
        decreases rest
      {
        var k :| k in rest;
        rest := rest - {k};
        if k !in but {
          r := r[k := r[k] + b[k]];
        }
      }
    }

    /** The calls that no call makes. */
    method FindRoots()
      requires Valid()
      modifies this`roots
      ensures roots == Roots(calls.Keys)
    {
      roots := calls.Keys;
      var rest := calls.Keys;
      while rest != {}
        invariant rest <= calls.Keys
        invariant roots == calls.Keys - AllKids(calls.Keys, calls.Keys - rest)
        decreases rest
      {
        var parent :| parent in rest;
        rest := rest - {parent};
        roots := roots - At(children, parent);
      }
      RootsAre(calls.Keys);
      assert calls.Keys - rest == calls.Keys;
    }

    static method Elements(s: set<Stack>) returns (r: seq<Stack>)
      ensures Distinct(r) && SetOf(r) == s
    {
      r := [];
      var rest := s;
      while rest != {}
        invariant rest <= s && Distinct(r) && SetOf(r) == s - rest
        decreases rest
      {
        var x :| x in rest;
        rest := rest - {x};
        assert forall i :: 0 <= i < |r| ==> r[i] in SetOf(r);
        assert SetOf(r + [x]) == SetOf(r) + {x} by {
          assert forall y :: y in r + [x] <==> y in r || y == x;
        }
        r := r + [x];
      }
    }

    lemma KidsKnown(s: Stack)
      requires Valid()
      ensures At(children, s) == Kids(calls.Keys, s)
    {
    }

    /** The calls in an order in which every call comes once, after those it makes. */
    method OrderCalls() returns (ordered: seq<Stack>)
      requires Valid() && roots == Roots(calls.Keys)
      ensures ChildrenFirst(calls.Keys, ordered)
    {
      hide Ordering, Kids, Roots, ChildrenFirst, At, Distinct;
      ordered := [];
      var toVisit := Elements(roots);
      OrderingStarts(calls.Keys, toVisit);
      ghost var ids := calls.Keys;
      while toVisit != []
        invariant Ordering(ids, ordered, toVisit)
        decreases ids - SetOf(ordered)
      {
        ghost var all := toVisit;
        var last := |toVisit| - 1;
        var stack := toVisit[last];
        toVisit := toVisit[..last];
        assert all == toVisit + [stack];
        KidsKnown(stack);
        var kids := Elements(At(children, stack));
        OrderingStep(ids, ordered, toVisit, stack, kids);
        assert SetOf([stack] + ordered) == SetOf(ordered) + {stack};
        assert ids - SetOf([stack] + ordered) == ids - SetOf(ordered) - {stack};
        ordered := [stack] + ordered;
        toVisit := toVisit + kids;
      }
      OrderingEnds(ids, ordered);
    }

    /** The total of a call, when all calls it makes have theirs, and the folding of
        those of them that are folded. */
    method BuildTotal(stack: Stack, ghost before: Calls)
      requires Fresh(before, calls, children, stack) && Deeper(children)
      requires Ready(calls, keys, stack)
      modifies this`calls, this`children, this`totals
      ensures stack in calls && calls[stack].name == old(calls)[stack].name
      ensures calls == old(calls)[stack := calls[stack]]
      ensures children == old(children)[stack := At(children, stack)]
      ensures Built(before, calls, children, stack) && Deeper(children)
      ensures calls[stack].data.Keys == calls[stack].total.Keys == keys
      ensures stack in before && Counted(old(totals), before[stack].data, totals)
    {
      ghost var ids, folded := calls.Keys, FoldedSet(calls);
      NothingSoFar(before, calls, children, stack);
      hide SumsSoFar, ChildrenSoFar, Kids, Deeper, Built, Full, FoldedSet, Sum, Counted, Ready;
      var data := calls[stack].data;
      totals := AddToTotals(totals, data);
      var total := data;
      var mine := At(children, stack);
      var rest := mine;
      assert Kids(ids, stack) - rest == {};
      while rest != {}
        invariant rest <= Kids(ids, stack) && calls == old(calls) && children == old(children)
        invariant Counted(old(totals), before[stack].data, totals)
        invariant total.Keys == data.Keys == keys
        invariant SumsSoFar(before, calls, stack, Kids(ids, stack) - rest, total, data)
        invariant ChildrenSoFar(ids, folded, children, stack, Kids(ids, stack) - rest, mine)
        decreases rest
      {
        var c :| c in rest;
        ghost var done := Kids(ids, stack) - rest;
        rest := rest - {c};
        assert Kids(ids, stack) - rest == done + {c};
        total, data, mine := AddKid(stack, c, total, data, mine, before, done);
      }
      assert Kids(ids, stack) - rest == Kids(ids, stack);
      BuildEnds(before, calls, children, stack, total, data, mine);
      var fold := IsFolded(calls[stack].name);
      calls := calls[stack := Call(calls[stack].name, data, total, fold)];
      children := children[stack := mine];
    }

    /** The body of the loop over the calls that a call makes. */
    method AddKid(stack: Stack, c: Stack, total0: Counters, data0: Counters, mine0: set<Stack>,
                  ghost before: Calls, ghost done: set<Stack>)
      returns (total: Counters, data: Counters, mine: set<Stack>)
      requires Ready(calls, keys, stack) && Deeper(children) && total0.Keys == data0.Keys == keys
      requires c in Kids(calls.Keys, stack) && c !in done
      requires SumsSoFar(before, calls, stack, done, total0, data0)
      requires ChildrenSoFar(calls.Keys, FoldedSet(calls), children, stack, done, mine0)
      ensures total.Keys == data.Keys == keys
      ensures SumsSoFar(before, calls, stack, done + {c}, total, data)
      ensures ChildrenSoFar(calls.Keys, FoldedSet(calls), children, stack, done + {c}, mine)
    {
      KidReady(calls, keys, stack, c);
      DoneKids(before, calls, stack, done, total0, data0);
      hide SumsSoFar, ChildrenSoFar, Kids, Deeper, Ready;
      data, mine := data0, mine0;
      total := AddAll(total0, calls[c].total, {});
      if calls[c].folded {
        data := AddAll(data, calls[c].data, {"calls"});
        mine := mine - {c} + At(children, c);
      }
      SumsStep(before, calls, stack, done, c, total0, data0, total, data);
      ChildrenStep(calls.Keys, FoldedSet(calls), children, stack, done, c, mine0, mine);
    }

    /** Counters that are not known yet are zero. */
    static method AddToTotals(totals: Counters, data: Counters) returns (r: Counters)
      ensures Counted(totals, data, r)
    {
      r := totals;
      var rest := data.Keys;
      while rest != {}
        invariant rest <= data.Keys
        invariant forall k :: Value(r, k) == Value(totals, k) + if k in rest then 0.0 else Value(data, k)
        decreases rest
      {
        var k :| k in rest;
        rest := rest - {k};
        r := r[k := Value(r, k) + data[k]];
      }
    }

    /** Everything there is to do once all lines have been read. */
    method BuildTotals()
      requires Valid()
      modifies this
      ensures roots == Roots(calls.Keys) && calls.Keys == old(calls).Keys
      ensures AllBuilt(old(calls), calls, children) && Totals(old(calls), calls.Keys, totals)
    {
      hide Progress, Totals, Built, Deeper, Fresh, Ready, Counted, Roots, Kids, At, SameNames, SameKeys, AllBuilt;
      FindRoots();
      var ordered := OrderCalls();
      ghost var before := calls;
      ProgressStarts(ordered);
      OrderInside(before.Keys, ordered);
      for i := 0 to |ordered|
        invariant Progress(before, calls, children, keys, ordered, i)
        invariant Totals(before, SetOf(ordered[..i]), totals)
        invariant roots == Roots(before.Keys) && calls.Keys == before.Keys
      {
        ghost var calls0, children0, totals0 := calls, children, totals;
        ProgressReady(before, calls, children, keys, ordered, i);
        BuildTotal(ordered[i], before);
        ProgressStep(before, calls0, children0, keys, ordered, i, calls[ordered[i]], At(children, ordered[i]));
        TotalsStep(before, ordered, i, totals0, totals);
      }
      ProgressEnds(before, calls, children, keys, ordered);
      assert ordered[..|ordered|] == ordered;
    }

    lemma ProgressStarts(ordered: seq<Stack>)
      requires Valid() && ChildrenFirst(calls.Keys, ordered)
      ensures Progress(calls, calls, children, keys, ordered, 0) && Totals(calls, SetOf(ordered[..0]), totals)
    {
      forall s | s in ordered
        ensures Fresh(calls, calls, children, s) && calls[s].data.Keys == keys
      {
        assert s in SetOf(ordered);
        assert forall t :: t in At(children, s) <==> t in Kids(calls.Keys, s);
      }
      forall s, x | s in children && x in children[s]
        ensures |x| > |s|
      {
        assert x in At(children, s);
      }
      assert SetOf(ordered[..0]) == {};
    }
  }

  /** All calls have the same counters, and those that s makes have their totals. */
  ghost predicate Ready(calls: Calls, keys: set<string>, s: Stack) {
    && s in calls && calls[s].data.Keys == keys
    && forall c :: c in Kids(calls.Keys, s) ==>
      calls[c].data.Keys == keys && calls[c].total.Keys == keys && calls[c].folded == IsFolded(calls[c].name)
  }

  lemma KidReady(calls: Calls, keys: set<string>, s: Stack, c: Stack)
    requires Ready(calls, keys, s) && c in Kids(calls.Keys, s)
    ensures calls[c].data.Keys == keys && calls[c].total.Keys == keys && calls[c].folded == (c in FoldedSet(calls))
  {
  }
}
