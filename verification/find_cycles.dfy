/** Finding the cycles of a call graph: Tarjan's algorithm, started afresh with
    empty tables at every function no earlier search has visited. */
module FindCycles {
  import opened Numbers
  import opened Sets
  import opened Graphs
  import opened TarjanInvariants

  /** A cycle made from recursive function calls. */
  class Cycle {
    var functions: set<FunctionId>

    constructor ()
      ensures functions == {}
    {
      functions := {};
    }

    /** The function joins this cycle, whatever cycle it was in before. Members of the
        former cycle would be added while the function is not a member here, but it has
        just become one. */
    method AddFunction(member: Function)
      requires member.id !in functions
      modifies this`functions, member`cycle
      ensures functions == old(functions) + {member.id}
      ensures member.cycle == this
    {
      functions := functions + {member.id};
      if member.cycle != null {
        var others := member.cycle.functions;
        while others != {}
          invariant functions == old(functions) + {member.id}
          decreases others
        {
          ghost var some := Member(others);
          var other :| other in others;
          others := others - {other};
          if member.id !in functions {
            // Here other would be added.
            assert false;
          }
        }
      }
      member.cycle := this;
    }
  }

  class Function {
    const id: FunctionId
    var calls: seq<FunctionId>
    var cycle: Cycle?

    constructor (id: FunctionId, calls: seq<FunctionId>)
      ensures this.id == id && this.calls == calls && cycle == null
    {
      this.id, this.calls, cycle := id, calls, null;
    }
  }

  /** The dictionaries one search works on. */
  class Search {
    var orders: map<FunctionId, nat>
    var lowlinks: map<FunctionId, nat>
    var stack: seq<FunctionId>
    var visited: set<FunctionId>

    constructor (visited: set<FunctionId>)
      ensures orders == map[] && lowlinks == map[] && stack == [] && this.visited == visited
    {
      orders, lowlinks, stack := map[], map[], [];
      this.visited := visited;
    }

    ghost function Now(): Tables
      reads this
    {
      Tables(orders, stack)
    }
  }

  /** Calls of v lead back to v through some other function. */
  ghost predicate Cyclic(g: Graph, v: FunctionId) {
    exists w :: w in g && w != v && Mutual(g, v, w)
  }

  /** The lowlinks of these functions are the same in both dictionaries. */
  ghost predicate Agree(these: set<FunctionId>, m1: map<FunctionId, nat>, m2: map<FunctionId, nat>) {
    forall u :: u in these && u in m1 ==> u in m2 && m2[u] == m1[u]
  }

  lemma AgreeNew(these: set<FunctionId>, m: map<FunctionId, nat>, v: FunctionId, low: nat)
    requires v !in these
    ensures Agree(these, m, m[v := low])
  {
  }

  lemma AgreeTrans(these: set<FunctionId>, more: set<FunctionId>, m1: map<FunctionId, nat>, m2: map<FunctionId, nat>,
                   m3: map<FunctionId, nat>)
    requires these <= more && Agree(these, m1, m2) && Agree(more, m2, m3)
    ensures Agree(these, m1, m3)
  {
  }

  /** The calls that lead to known functions, in order. */
  function Known(calls: seq<FunctionId>, ids: set<FunctionId>): seq<FunctionId> {
    if calls == [] then []
    else
      var last := |calls| - 1;
      Known(calls[..last], ids) + if calls[last] in ids then [calls[last]] else []
  }

  lemma {:induction false} KnownOnly(calls: seq<FunctionId>, ids: set<FunctionId>, w: FunctionId)
    ensures w in Known(calls, ids) <==> w in calls && w in ids
  {
    if calls != [] {
      var last := |calls| - 1;
      assert calls == calls[..last] + [calls[last]];
      KnownOnly(calls[..last], ids, w);
    }
  }

  lemma PushDone(t: Tables, v: FunctionId, order: nat)
    requires v !in t.orders
    ensures forall u :: Done(Push(t, v, order), u) <==> Done(t, u)
  {
    InStackAfterPush(t, v, order);
  }

  /** The bookkeeping that following one more call relies on. */
  lemma FollowingFacts(g: Graph, t0: Tables, t: Tables, v: FunctionId, i: nat, low: nat, next: nat,
                       gray: set<FunctionId>, now: nat)
    requires Inv(g, t, gray, now) && v in gray && (forall x :: x in gray - {v} ==> Reach(g, x, v))
    requires Following(g, t0, t, v, i, low, next)
    ensures v in t.orders && t0.orders.Keys < t.orders.Keys <= g.Keys
    ensures forall u :: u in t.stack ==> u in t.orders
    ensures i < |g[v]| ==> g[v][i] in g && (forall x :: x in gray ==> Reach(g, x, g[v][i]))
    ensures i < |g[v]| && g[v][i] in t.orders && g[v][i] !in t.stack ==> Done(t, g[v][i])
  {
    hide Reach, ReachesGray, Forward, Backward, Explored, Bounded, Attained;
    assert v in t.orders && v !in t0.orders;
    if i < |g[v]| {
      var w := g[v][i];
      ReachEdge(g, v, w);
      forall x | x in gray
        ensures Reach(g, x, w)
      {
        if x != v {
          ReachTrans(g, x, v, w);
        }
      }
    }
  }

  lemma FollowingEnds(g: Graph, t0: Tables, t: Tables, v: FunctionId, low: nat, order: nat,
                      gray: set<FunctionId>, next: nat)
    requires Inv(g, t0, gray, order) && Inv(g, t, gray + {v}, next)
    requires v in g && Following(g, t0, t, v, |g[v]|, low, order)
    ensures Followed(g, t, |t0.stack|, v, low) && NoGrayAbove(t, |t0.stack|, gray)
    ensures t.stack[..|t0.stack|] == t0.stack
    ensures Extends(t0, t, order) && v in t.orders && t.orders[v] == order && low <= order
    ensures |t0.stack| < |t.stack| && v !in t0.stack
  {
    hide Reach, ReachesGray, Forward, Backward, Explored, Attained;
    var pos := |t0.stack|;
    assert Push(t0, v, order).stack[pos] == v == t.stack[pos];
    assert v !in gray by {
      if v in gray {
        var k := StackPosition(t0, v);
      }
    }
    forall i | pos <= i < |t.stack|
      ensures t.stack[i] !in gray
    {
      if t.stack[i] in gray {
        var k := StackPosition(t0, t.stack[i]);
        assert false;
      }
    }
  }

  lemma PopFacts(g: Graph, t: Tables, gray: set<FunctionId>, next: nat, pos: nat)
    requires Inv(g, t, gray, next) && pos <= |t.stack|
    ensures forall i :: pos <= i < |t.stack| ==> t.stack[i] in g
    ensures forall i, j :: pos <= i < j < |t.stack| ==> t.stack[i] != t.stack[j]
    ensures Above(t, pos) == set w | w in t.stack[pos..]
    ensures forall u :: u in Above(t, pos) ==> !Done(t, u)
    ensures forall u :: Done(Pop(t, pos), u) <==> Done(t, u) || u in Above(t, pos)
  {
    hide Reach, ReachesGray, Forward, Backward, Explored;
    StackDistinct(g, t, gray, next);
    InStackAfterPop(t, pos);
    forall i | pos <= i < |t.stack|
      ensures t.stack[i] in g
    {
      assert t.stack[i] in t.orders;
    }
    assert forall i :: pos <= i < |t.stack| ==> t.stack[i] == t.stack[pos..][i - pos];
  }

  /** A component is cyclic just when it has more than one member. */
  lemma ComponentFacts(g: Graph, v: FunctionId, members: seq<FunctionId>)
    requires v in g && (set w | w in members) == Scc(g, v)
    requires forall j, k :: 0 <= j < k < |members| ==> members[j] != members[k]
    ensures forall u :: u in members ==> Scc(g, u) == Scc(g, v)
    ensures forall u :: u in members ==> (Cyclic(g, u) <==> |members| > 1)
  {
    hide Reach;
    ReachSelf(g, v);
    assert v in Scc(g, v);
    forall u | u in members
      ensures Scc(g, u) == Scc(g, v)
      ensures Cyclic(g, u) <==> |members| > 1
    {
      assert u in Scc(g, v);
      SccShared(g, v, u);
      if |members| > 1 {
        var w := if members[0] == u then members[1] else members[0];
        assert w in Scc(g, v) && w in Scc(g, u);
      }
      if Cyclic(g, u) {
        var w :| w in g && w != u && Mutual(g, u, w);
        assert w in Scc(g, u) && w in members;
      }
    }
  }

  lemma FollowingDone(g: Graph, t0: Tables, t1: Tables, t2: Tables, v: FunctionId, i: nat, low: nat, lowW: nat,
                      order: nat, now: nat)
    requires v in g && i < |g[v]| && Following(g, t0, t1, v, i, low, order) && Explores(g, t1, t2, g[v][i], lowW, now)
    ensures t1.orders.Keys <= t2.orders.Keys
    ensures forall u :: Done(t0, u) ==> Done(t1, u)
    ensures forall u :: Done(t1, u) ==> Done(t2, u)
  {
    hide Done, Bounded, Attained;
    PushDone(t0, v, order);
    ExtendsDone(Push(t0, v, order), t1, order + 1);
    ExtendsDone(t1, t2, now);
  }

  lemma PopExplores(g: Graph, t0: Tables, t: Tables, pos: nat, v: FunctionId, order: nat)
    requires Extends(t0, t, order) && Followed(g, t, pos, v, order) && pos == |t0.stack|
    requires t.stack[..pos] == t0.stack && v !in t0.orders && t.orders[v] == order
    requires v !in t0.stack
    ensures Explores(g, t0, Pop(t, pos), v, order, order)
    ensures forall u :: Done(t0, u) ==> Done(t, u)
    ensures forall u :: Done(t, u) ==> Done(Pop(t, pos), u)
  {
    ExtendsDone(t0, t, order);
  }

  lemma StayExplores(g: Graph, t0: Tables, t: Tables, pos: nat, v: FunctionId, low: nat, order: nat)
    requires Extends(t0, t, order) && Followed(g, t, pos, v, low) && pos == |t0.stack|
    requires low < order == t.orders[v]
    ensures Explores(g, t0, t, v, low, order)
  {
    assert v in t.stack;
  }

  /** The whole component of a done function is done. */
  lemma DoneComponent(g: Graph, t: Tables, gray: set<FunctionId>, next: nat, u: FunctionId)
    requires Inv(g, t, gray, next) && Done(t, u)
    ensures u in Scc(g, u)
    ensures forall w :: w in Scc(g, u) ==> Done(t, w) && w in g
  {
    hide Reach, ReachesGray, Forward, Backward, Done;
    assert u in g by {
      assert Done(t, u);
      DoneKnown(t, u);
    }
    ReachSelf(g, u);
    forall w | w in Scc(g, u)
      ensures Done(t, w) && w in g
    {
      DoneReaches(g, t, gray, u, w);
    }
  }

  lemma DoneKnown(t: Tables, u: FunctionId)
    requires Done(t, u)
    ensures u in t.orders
  {
  }

  /** The cycle of every function, and the functions making up each of these cycles. */
  datatype Cycles = Cycles(cycleOf: map<FunctionId, Cycle?>, membersOf: map<FunctionId, set<FunctionId>>) {
    ghost function members(u: FunctionId): set<FunctionId> {
      if u in membersOf then membersOf[u] else {}
    }
  }

  /** If v is cyclic, its component has one cycle, common to its members and made of them. */
  ghost predicate Settles(g: Graph, c: Cycles, v: FunctionId) {
    Cyclic(g, v) ==>
      && v in c.cycleOf && c.cycleOf[v] != null
      && c.members(v) == Scc(g, v)
      && forall w :: w in Scc(g, v) ==> w in c.cycleOf && c.cycleOf[w] == c.cycleOf[v]
  }

  /** A search step from tables t1 to t2 gives every function done in between its
      cycle; it leaves alone all other functions and those in no cycle. */
  ghost predicate Assigns(g: Graph, t1: Tables, t2: Tables, before: Cycles, after: Cycles) {
    && before.cycleOf.Keys == after.cycleOf.Keys
    && (forall u :: u in after.cycleOf && Done(t2, u) && !Done(t1, u) ==> Settles(g, after, u))
    && forall u :: u in after.cycleOf && (!Done(t2, u) || Done(t1, u) || !Cyclic(g, u)) ==>
      after.cycleOf[u] == before.cycleOf[u] && after.members(u) == before.members(u)
  }

  lemma SettlesKept(g: Graph, before: Cycles, after: Cycles, u: FunctionId)
    requires Settles(g, before, u) && u in Scc(g, u)
    requires forall w :: w in Scc(g, u) ==>
      w in before.cycleOf && w in after.cycleOf && after.cycleOf[w] == before.cycleOf[w]
      && after.members(w) == before.members(w)
    ensures Settles(g, after, u)
  {
    hide Mutual, Cyclic;
  }

  lemma AssignsNothing(g: Graph, t1: Tables, t2: Tables, c: Cycles)
    requires forall u :: Done(t2, u) <==> Done(t1, u)
    ensures Assigns(g, t1, t2, c, c)
  {
  }

  lemma AssignsTrans(g: Graph, t0: Tables, t1: Tables, t2: Tables, c0: Cycles, c1: Cycles, c2: Cycles,
                     gray: set<FunctionId>, next: nat)
    requires c0.cycleOf.Keys == g.Keys
    requires Inv(g, t1, gray, next)
    requires forall u :: Done(t0, u) ==> Done(t1, u)
    requires forall u :: Done(t1, u) ==> Done(t2, u)
    requires Assigns(g, t0, t1, c0, c1) && Assigns(g, t1, t2, c1, c2)
    ensures Assigns(g, t0, t2, c0, c2)
  {
    hide Inv, Done, Settles, Scc, Cyclic;
    forall u | u in c2.cycleOf && Done(t2, u) && !Done(t0, u)
      ensures Settles(g, c2, u)
    {
      if Done(t1, u) {
        DoneComponent(g, t1, gray, next, u);
        SettlesKept(g, c1, c2, u);
      }
    }
  }

  /** The members, and no other function, have a common new cycle made of them. */
  ghost predicate Gathers(members: seq<FunctionId>, before: Cycles, after: Cycles) {
    && before.cycleOf.Keys == after.cycleOf.Keys
    && (forall u :: u in after.cycleOf && u !in members ==>
      after.cycleOf[u] == before.cycleOf[u] && after.members(u) == before.members(u))
    && (forall u, w :: u in members && w in members && u in after.cycleOf && w in after.cycleOf ==>
      after.cycleOf[u] == after.cycleOf[w])
    && forall u :: u in members && u in after.cycleOf ==>
      after.cycleOf[u] != null && after.members(u) == set w | w in members
  }

  /** Giving the members of a component of two or more a common new cycle assigns
      every newly done function its cycle. */
  lemma CloseAssigns(g: Graph, t: Tables, gray: set<FunctionId>, next: nat, pos: nat, v: FunctionId,
                     members: seq<FunctionId>, before: Cycles, after: Cycles)
    requires Inv(g, t, gray, next) && v in g && pos < |t.stack| && members == t.stack[pos..]
    requires Above(t, pos) == Scc(g, v)
    requires before.cycleOf.Keys == after.cycleOf.Keys == g.Keys
    requires if |members| > 1 then Gathers(members, before, after) else before == after
    ensures Assigns(g, t, Pop(t, pos), before, after)
  {
    hide Inv, Mutual, Scc, Done, Cyclic;
    PopFacts(g, t, gray, next, pos);
    ComponentFacts(g, v, members);
    forall u | u in after.cycleOf && (!Done(Pop(t, pos), u) || Done(t, u) || !Cyclic(g, u))
      ensures after.cycleOf[u] == before.cycleOf[u] && after.members(u) == before.members(u)
    {
      assert u in members ==> u in Above(t, pos);
    }
    forall u | u in after.cycleOf && Done(Pop(t, pos), u) && !Done(t, u)
      ensures Settles(g, after, u)
    {
      assert u in members;
      assert Scc(g, u) == set w | w in members;
    }
  }

  /** The visited functions have their cycles, and functions in no cycle have none. */
  ghost predicate AllSettled(g: Graph, c: Cycles, visited: set<FunctionId>) {
    && c.cycleOf.Keys == g.Keys
    && (forall u :: u in visited && u in g ==> Settles(g, c, u))
    && forall u :: u in g && !Cyclic(g, u) ==> c.cycleOf[u] == null
  }

  lemma StartSettled(g: Graph, c: Cycles)
    requires c.cycleOf.Keys == g.Keys && forall u :: u in g ==> c.cycleOf[u] == null
    ensures AllSettled(g, c, {})
  {
  }

  lemma SearchStarts(g: Graph)
    requires Closed(g)
    ensures Inv(g, Tables(map[], []), {}, 0)
  {
  }

  /** When a search returns its stack is empty: every discovered function is done. */
  lemma SearchEnds(g: Graph, t: Tables, next: nat)
    requires Inv(g, t, {}, next)
    ensures t.stack == [] && forall u :: Done(t, u) <==> u in t.orders
    ensures t.orders.Keys <= g.Keys
  {
    if t.stack != [] {
      assert t.stack[0] in t.stack;
      var x := GrayWitness(g, t, {}, t.stack[0]);
    }
  }

  /** A search that visits some functions again settles them again, and the
      cycles it does not touch are those of other components. */
  lemma SearchSettles(g: Graph, t: Tables, next: nat, visited: set<FunctionId>, before: Cycles, after: Cycles,
                      id: FunctionId, low: nat)
    requires Inv(g, t, {}, next) && AllSettled(g, before, visited) && visited <= g.Keys
    requires Explores(g, Tables(map[], []), t, id, low, 0)
    requires Assigns(g, Tables(map[], []), t, before, after)
    ensures id in t.orders && t.orders.Keys <= g.Keys
    ensures AllSettled(g, after, visited + t.orders.Keys)
  {
    hide Inv, Reach, Settles, Bounded, Attained, Cyclic;
    SearchEnds(g, t, next);
    forall u | u in visited + t.orders.Keys
      ensures Settles(g, after, u)
    {
      if u !in t.orders {
        ReachSelf(g, u);
        forall w | w in Scc(g, u)
          ensures !Done(t, w) && w in g
        {
          if Done(t, w) {
            InvDoneReaches(g, t, next, w, u);
          }
        }
        SettlesKept(g, before, after, u);
      }
    }
  }

  lemma InvDoneReaches(g: Graph, t: Tables, next: nat, w: FunctionId, u: FunctionId)
    requires Inv(g, t, {}, next) && Done(t, w) && Reach(g, w, u)
    ensures Done(t, u)
  {
    DoneReaches(g, t, {}, w, u);
  }

  /** When all functions are settled, sharing a cycle is being mutually reachable. */
  lemma EndsRight(g: Graph, c: Cycles)
    requires AllSettled(g, c, g.Keys)
    ensures forall a :: a in g ==> (c.cycleOf[a] != null <==> Cyclic(g, a))
    ensures forall a :: a in g && c.cycleOf[a] != null ==> c.members(a) == Scc(g, a)
    ensures forall a, b ::
      a in g && b in g && a != b && c.members(a) == c.members(b) && c.cycleOf[a] == c.cycleOf[b] ==>
      (c.cycleOf[a] != null <==> Mutual(g, a, b))
    ensures forall a, b :: a in g && b in g && a != b && Mutual(g, a, b) ==> c.cycleOf[a] == c.cycleOf[b]
  {
    hide Reach;
    forall a, b | a in g && b in g && a != b && Mutual(g, a, b)
      ensures c.cycleOf[a] == c.cycleOf[b] && c.cycleOf[a] != null
    {
      assert Cyclic(g, a) && b in Scc(g, a);
    }
    forall a, b | a in g && b in g && a != b && c.members(a) == c.members(b) && c.cycleOf[a] == c.cycleOf[b]
                  && c.cycleOf[a] != null
      ensures Mutual(g, a, b)
    {
      ReachSelf(g, b);
      assert b in Scc(g, b);
    }
  }

  class Profile {
    var functions: map<FunctionId, Function>
    var cycles: seq<Cycle>

    ghost predicate Valid()
      reads this`functions
    {
      forall id :: id in functions ==> functions[id].id == id
    }

    ghost function Calls(): Graph
      reads this`functions, functions.Values`calls
    {
      map id | id in functions :: functions[id].calls
    }

    ghost function Current(): Cycles
      reads this`functions, functions.Values`cycle, (set id | id in functions :: functions[id].cycle)`functions
    {
      Cycles(map id | id in functions :: functions[id].cycle,
             map id | id in functions :: if functions[id].cycle == null then {} else functions[id].cycle.functions)
    }

    /** The component of v, on the stack from position pos on, has been found. */
    method Close(s: Search, v: FunctionId, pos: nat, ghost g: Graph, ghost gray: set<FunctionId>, ghost next: nat)
      requires Valid() && g == Calls()
      requires Inv(g, s.Now(), gray + {v}, next)
      requires v in g && pos < |s.stack| && v in s.orders && Followed(g, s.Now(), pos, v, s.orders[v])
      requires NoGrayAbove(s.Now(), pos, gray)
      modifies s`stack, functions.Values`cycle
      ensures Valid() && g == Calls()
      ensures s.stack == old(s.stack)[..pos] && Inv(g, s.Now(), gray, next)
      ensures Assigns(g, old(s.Now()), s.Now(), old(Current()), Current())
    {
      hide Inv, Followed, Assigns, Done, Scc, Above, Gathers, NoGrayAbove;
      ghost var t, before := s.Now(), Current();
      TopIsScc(g, t, gray, next, pos, v);
      PopKeeps(g, t, gray, next, pos, v);
      PopFacts(g, t, gray + {v}, next, pos);
      var members := s.stack[pos..];
      s.stack := s.stack[..pos];
      if |members| > 1 {
        MakeCycle(members);
      }
      CloseAssigns(g, t, gray + {v}, next, pos, v, members, before, Current());
    }

    /** All members, and no other function, get a new cycle made of them. */
    method MakeCycle(members: seq<FunctionId>)
      requires Valid()
      requires forall k :: 0 <= k < |members| ==> members[k] in functions
      requires forall j, k :: 0 <= j < k < |members| ==> members[j] != members[k]
      modifies functions.Values`cycle
      ensures Valid() && Calls() == old(Calls())
      ensures Gathers(members, old(Current()), Current())
    {
      hide Gathers, Calls;
      ghost var before := Current();
      var cycle := new Cycle();
      AddAll(cycle, members);
      ghost var after := Current();
      forall u | u in functions && u !in members
        ensures after.cycleOf[u] == before.cycleOf[u] && after.membersOf[u] == before.membersOf[u]
      {
        assert functions[u].cycle == old(functions[u].cycle) && functions[u].cycle != cycle;
        assert functions[u].cycle != null ==> functions[u].cycle.functions == old(functions[u].cycle.functions);
      }
      GathersNew(members, before, after, cycle, cycle.functions);
    }

    lemma GathersNew(members: seq<FunctionId>, before: Cycles, after: Cycles, cycle: Cycle, all: set<FunctionId>)
      requires before.cycleOf.Keys == after.cycleOf.Keys == after.membersOf.Keys == before.membersOf.Keys
      requires all == set w | w in members
      requires forall u :: u in members && u in after.cycleOf ==> after.cycleOf[u] == cycle && after.membersOf[u] == all
      requires forall u :: u in after.cycleOf && u !in members ==>
        after.cycleOf[u] == before.cycleOf[u] && after.membersOf[u] == before.membersOf[u]
      ensures Gathers(members, before, after)
    {
    }

    method AddAll(cycle: Cycle, members: seq<FunctionId>)
      requires Valid() && cycle.functions == {}
      requires forall k :: 0 <= k < |members| ==> members[k] in functions
      requires forall j, k :: 0 <= j < k < |members| ==> members[j] != members[k]
      modifies cycle, functions.Values`cycle
      ensures Valid() && Calls() == old(Calls())
      ensures cycle.functions == set w | w in members
      ensures forall u :: u in members ==> functions[u].cycle == cycle
      ensures forall u :: u in functions && u !in members ==> functions[u].cycle == old(functions[u].cycle)
    {
      for i := 0 to |members|
        invariant Valid() && Calls() == old(Calls())
        invariant cycle.functions == set w | w in members[..i]
        invariant forall k :: 0 <= k < i ==> functions[members[k]].cycle == cycle
        invariant forall u :: u in functions && u !in members ==> functions[u].cycle == old(functions[u].cycle)
      {
        assert members[..i + 1] == members[..i] + [members[i]];
        assert functions[members[i]].id == members[i];
        cycle.AddFunction(functions[members[i]]);
      }
      assert members[..|members|] == members;
    }

    lemma CallsInside()
      ensures Calls().Keys == functions.Keys
    {
    }

    lemma CallsOf(v: FunctionId)
      requires Valid()
      ensures Calls().Keys == functions.Keys == Current().cycleOf.Keys
      ensures v in functions ==> Calls()[v] == functions[v].calls
    {
    }

    /** v is met for the first time. */
    method Discover(s: Search, v: FunctionId, order: nat)
      modifies s
      ensures s.Now() == Push(old(s.Now()), v, order)
      ensures s.lowlinks == old(s.lowlinks)[v := order] && s.visited == old(s.visited) + {v}
      ensures Calls() == old(Calls()) && Current() == old(Current())
    {
      s.visited := s.visited + {v};
      s.orders := s.orders[v := order];
      s.lowlinks := s.lowlinks[v := order];
      s.stack := s.stack + [v];
    }

    method Lower(s: Search, v: FunctionId, low: nat)
      requires v in s.lowlinks
      modifies s`lowlinks
      ensures s.lowlinks == old(s.lowlinks)[v := Min(old(s.lowlinks)[v], low)]
      ensures Calls() == old(Calls()) && Current() == old(Current())
    {
      s.lowlinks := s.lowlinks[v := Min(s.lowlinks[v], low)];
    }

    method Tarjan(s: Search, v: FunctionId, order: nat, ghost g: Graph, ghost gray: set<FunctionId>)
      returns (next: nat)
      requires Valid() && g == Calls()
      requires Inv(g, s.Now(), gray, order)
      requires v in g && v !in s.orders
      requires forall x :: x in gray ==> Reach(g, x, v)
      requires s.orders.Keys <= s.visited
      modifies s, functions.Values`cycle
      decreases g.Keys - s.orders.Keys, 0
      ensures Valid() && g == Calls()
      ensures order < next && Inv(g, s.Now(), gray, next)
      ensures v in s.lowlinks && Explores(g, old(s.Now()), s.Now(), v, s.lowlinks[v], order)
      ensures Agree(old(s.orders).Keys, old(s.lowlinks), s.lowlinks)
      ensures s.visited == old(s.visited) + s.orders.Keys
      ensures Assigns(g, old(s.Now()), s.Now(), old(Current()), Current())
    {
      hide Inv, Explores, Following, Followed, Assigns, Extends, Done, Reach, NoGrayAbove, Current, Valid, Calls, Agree;
      CallsOf(v);
      ghost var t0, c0 := s.Now(), Current();
      var pos := |s.stack|;
      AgreeNew(t0.orders.Keys, s.lowlinks, v, order);
      Discover(s, v, order);
      next := order + 1;
      FollowingStarts(g, t0, gray, v, order);
      PushDone(t0, v, order);
      AssignsNothing(g, t0, s.Now(), c0);
      var calls := functions[v].calls;
      for i := 0 to |calls|
        invariant Valid() && g == Calls()
        invariant order < next && Inv(g, s.Now(), gray + {v}, next)
        invariant v in s.lowlinks && Following(g, t0, s.Now(), v, i, s.lowlinks[v], order)
        invariant Agree(old(s.orders).Keys, old(s.lowlinks), s.lowlinks)
        invariant s.visited == old(s.visited) + s.orders.Keys
        invariant Assigns(g, t0, s.Now(), c0, Current())
      {
        FollowingFacts(g, t0, s.Now(), v, i, s.lowlinks[v], order, gray + {v}, next);
        ghost var known, lowlinks := s.orders.Keys - {v}, s.lowlinks;
        next := Follow(s, v, calls[i], next, g, gray, t0, i, order, c0);
        AgreeTrans(t0.orders.Keys, known, old(s.lowlinks), lowlinks, s.lowlinks);
      }
      ghost var t, atEnd := s.Now(), Current();
      FollowingEnds(g, t0, t, v, s.lowlinks[v], order, gray, next);
      if s.lowlinks[v] == s.orders[v] {
        Close(s, v, pos, g, gray, next);
        PopExplores(g, t0, t, pos, v, order);
        AssignsTrans(g, t0, t, s.Now(), c0, atEnd, Current(), gray + {v}, next);
      } else {
        StayKeeps(g, t, gray, next, pos, v, s.lowlinks[v]);
        StayExplores(g, t0, t, pos, v, s.lowlinks[v], order);
      }
    }

    /** The body of the loop over the calls of v: its i-th call is to callee. */
    method Follow(s: Search, v: FunctionId, callee: FunctionId, order: nat, ghost g: Graph, ghost gray: set<FunctionId>,
                  ghost t0: Tables, ghost i: nat, ghost orderOfV: nat, ghost c0: Cycles)
      returns (next: nat)
      requires Valid() && g == Calls() && c0.cycleOf.Keys == g.Keys
      requires v in g && i < |g[v]| && callee == g[v][i] && orderOfV < order
      requires Inv(g, s.Now(), gray + {v}, order) && v in s.lowlinks
      requires Following(g, t0, s.Now(), v, i, s.lowlinks[v], orderOfV)
      requires forall x :: x in gray ==> Reach(g, x, v)
      requires s.orders.Keys <= s.visited
      requires Assigns(g, t0, s.Now(), c0, Current())
      modifies s, functions.Values`cycle
      decreases g.Keys - s.orders.Keys, 2
      ensures Valid() && g == Calls()
      ensures order <= next && Inv(g, s.Now(), gray + {v}, next)
      ensures v in s.lowlinks && Following(g, t0, s.Now(), v, i + 1, s.lowlinks[v], orderOfV)
      ensures Agree(old(s.orders).Keys - {v}, old(s.lowlinks), s.lowlinks)
      ensures old(s.orders).Keys <= s.orders.Keys
      ensures s.visited == old(s.visited) + s.orders.Keys
      ensures Assigns(g, t0, s.Now(), c0, Current())
    {
      hide Inv, Explores, Following, Assigns, Extends, Done, Reach, Current, Valid, Calls;
      next := order;
      if callee !in s.orders {
        next := FollowUnseen(s, v, callee, order, g, gray, t0, i, orderOfV, c0);
      } else {
        ghost var t1, low := s.Now(), s.lowlinks[v];
        FollowingFacts(g, t0, t1, v, i, low, orderOfV, gray + {v}, order);
        if callee in s.stack {
          FollowBack(g, t0, t1, gray + {v}, v, i, low, orderOfV, order);
          Lower(s, v, s.orders[callee]);
        } else {
          FollowDone(g, t0, t1, gray + {v}, v, i, low, orderOfV, order);
        }
      }
    }

    /** The call meets callee for the first time. */
    method FollowUnseen(s: Search, v: FunctionId, callee: FunctionId, order: nat, ghost g: Graph,
                        ghost gray: set<FunctionId>, ghost t0: Tables, ghost i: nat, ghost orderOfV: nat,
                        ghost c0: Cycles)
      returns (next: nat)
      requires Valid() && g == Calls() && c0.cycleOf.Keys == g.Keys
      requires v in g && i < |g[v]| && callee == g[v][i] && orderOfV < order
      requires Inv(g, s.Now(), gray + {v}, order) && v in s.lowlinks
      requires Following(g, t0, s.Now(), v, i, s.lowlinks[v], orderOfV)
      requires forall x :: x in gray ==> Reach(g, x, v)
      requires s.orders.Keys <= s.visited && callee !in s.orders
      requires Assigns(g, t0, s.Now(), c0, Current())
      modifies s, functions.Values`cycle
      decreases g.Keys - s.orders.Keys, 1
      ensures Valid() && g == Calls()
      ensures order <= next && Inv(g, s.Now(), gray + {v}, next)
      ensures v in s.lowlinks && Following(g, t0, s.Now(), v, i + 1, s.lowlinks[v], orderOfV)
      ensures Agree(old(s.orders).Keys - {v}, old(s.lowlinks), s.lowlinks)
      ensures old(s.orders).Keys <= s.orders.Keys
      ensures s.visited == old(s.visited) + s.orders.Keys
      ensures Assigns(g, t0, s.Now(), c0, Current())
    {
      hide Inv, Explores, Following, Assigns, Extends, Done, Reach, Current, Valid, Calls;
      ghost var t1, low, before := s.Now(), s.lowlinks[v], Current();
      FollowingFacts(g, t0, t1, v, i, low, orderOfV, gray + {v}, order);
      next := Tarjan(s, callee, order, g, gray + {v});
      FollowNew(g, t0, t1, s.Now(), gray + {v}, v, i, low, s.lowlinks[callee], orderOfV, order, next);
      FollowingDone(g, t0, t1, s.Now(), v, i, low, s.lowlinks[callee], orderOfV, order);
      AssignsTrans(g, t0, t1, s.Now(), c0, before, Current(), gray + {v}, order);
      Lower(s, v, s.lowlinks[callee]);
    }

    /** Calls to functions that are not in the profile are dropped. */
    method Validate()
      requires Valid()
      modifies functions.Values`calls
      ensures Valid() && Closed(Calls())
      ensures forall id :: id in functions ==> functions[id].calls == Known(old(functions[id].calls), functions.Keys)
    {
      var rest := functions.Keys;
      while rest != {}
        invariant rest <= functions.Keys
        invariant forall id :: id in rest ==> functions[id].calls == old(functions[id].calls)
        invariant forall id :: id in functions && id !in rest ==>
          functions[id].calls == Known(old(functions[id].calls), functions.Keys)
        decreases rest
      {
        ghost var some := Member(rest);
        var id :| id in rest;
        rest := rest - {id};
        var kept := [];
        var calls := functions[id].calls;
        for i := 0 to |calls|
          invariant kept == Known(calls[..i], functions.Keys)
        {
          assert calls[..i + 1][..i] == calls[..i];
          if calls[i] in functions {
            kept := kept + [calls[i]];
          }
        }
        assert calls[..|calls|] == calls;
        functions[id].calls := kept;
      }
      forall v, w | v in Calls() && w in Calls()[v]
        ensures w in Calls()
      {
        KnownOnly(old(functions[v].calls), functions.Keys, w);
      }
    }

    /** Afterwards two functions share a cycle just when each reaches the other; the
        cycle is made of exactly its component, and functions that no other function
        leads back to have none. */
    method FindCycles()
      requires Valid() && Closed(Calls())
      requires forall id :: id in functions ==> functions[id].cycle == null
      modifies this`cycles, functions.Values`cycle
      ensures Valid() && Calls() == old(Calls())
      ensures forall a, b :: a in functions && b in functions && a != b ==>
        (functions[a].cycle != null && functions[a].cycle == functions[b].cycle <==> Mutual(Calls(), a, b))
      ensures forall a :: a in functions ==> (functions[a].cycle != null <==> Cyclic(Calls(), a))
      ensures forall a :: a in functions && functions[a].cycle != null ==>
        functions[a].cycle.functions == Scc(Calls(), a) && functions[a].cycle in cycles
      ensures forall c :: c in cycles ==> exists a :: a in functions && functions[a].cycle == c
      ensures forall i, j :: 0 <= i < j < |cycles| ==> cycles[i] != cycles[j]
    {
      hide Inv, Explores, Assigns, Mutual;
      SearchAll();
      ghost var g := Calls();
      EndsRight(g, Current());
      forall a, b | a in functions && b in functions && a != b
        ensures functions[a].cycle != null && functions[a].cycle == functions[b].cycle <==> Mutual(g, a, b)
      {
        assert Current().cycleOf[a] == functions[a].cycle && Current().cycleOf[b] == functions[b].cycle;
        assert functions[a].cycle != null && functions[a].cycle == functions[b].cycle ==>
          Current().members(a) == Current().members(b);
      }
      CollectCycles();
    }

    /** Searches from every function that no earlier search has visited. */
    method SearchAll()
      requires Valid() && Closed(Calls())
      requires forall id :: id in functions ==> functions[id].cycle == null
      modifies functions.Values`cycle
      ensures Valid() && Calls() == old(Calls())
      ensures AllSettled(Calls(), Current(), Calls().Keys)
    {
      ghost var g := Calls();
      StartSettled(g, Current());
      CallsInside();
      hide Inv, Explores, Assigns, AllSettled, Current, Calls, Valid, Agree, Closed;
      var visited := {};
      var rest := functions.Keys;
      while rest != {}
        invariant Valid() && g == Calls() && rest <= functions.Keys
        invariant functions.Keys - rest <= visited <= g.Keys
        invariant AllSettled(g, Current(), visited)
        decreases rest
      {
        ghost var some := Member(rest);
        var id :| id in rest;
        rest := rest - {id};
        if id !in visited {
          visited := SearchFrom(id, visited, g);
        }
      }
      assert visited == g.Keys;
    }

    /** One search, with tables of its own, that starts at id. */
    method SearchFrom(id: FunctionId, visited: set<FunctionId>, ghost g: Graph) returns (visited': set<FunctionId>)
      requires Valid() && g == Calls() && Closed(g) && id in g && visited <= g.Keys
      requires AllSettled(g, Current(), visited)
      modifies functions.Values`cycle
      ensures Valid() && g == Calls()
      ensures visited + {id} <= visited' <= g.Keys
      ensures AllSettled(g, Current(), visited')
    {
      hide Reach, Explores, Assigns, AllSettled, Current, Calls, Valid, Agree, Closed;
      ghost var before := Current();
      var s := new Search(visited);
      SearchStarts(g);
      assert Inv(g, s.Now(), {}, 0) && s.Now() == Tables(map[], []);
      var next := Tarjan(s, id, 0, g, {});
      SearchSettles(g, s.Now(), next, visited, before, Current(), id, s.lowlinks[id]);
      visited' := s.visited;
    }

    method CollectCycles()
      modifies this`cycles
      ensures forall a :: a in functions && functions[a].cycle != null ==> functions[a].cycle in cycles
      ensures forall c :: c in cycles ==> exists a :: a in functions && functions[a].cycle == c
      ensures forall i, j :: 0 <= i < j < |cycles| ==> cycles[i] != cycles[j]
    {
      var found: seq<Cycle> := [];
      var rest := functions.Keys;
      while rest != {}
        invariant rest <= functions.Keys
        invariant forall a :: a in functions.Keys - rest && functions[a].cycle != null ==> functions[a].cycle in found
        invariant forall c :: c in found ==> exists a :: a in functions && functions[a].cycle == c
        invariant forall i, j :: 0 <= i < j < |found| ==> found[i] != found[j]
        decreases rest
      {
        ghost var some := Member(rest);
        var id :| id in rest;
        rest := rest - {id};
        var cycle := functions[id].cycle;
        if cycle != null && cycle !in found {
          assert functions[id].cycle == cycle;
          found := found + [cycle];
        }
      }
      cycles := found;
    }
  }
}
