/** What the tables of one Tarjan search mean between any two steps, and why
    a vertex whose lowlink is its own order closes a component. */
module TarjanInvariants {
  import opened Numbers
  import opened Graphs

  /** The tables of one search: discovery orders, and the stack bottom first. */
  datatype Tables = Tables(orders: map<FunctionId, nat>, stack: seq<FunctionId>)

  /** u has been taken off the stack. */
  ghost predicate Done(t: Tables, u: FunctionId) {
    u in t.orders && u !in t.stack
  }

  /** The stack lists discovered functions in order of discovery; the functions
      whose calls are being followed (the gray ones) are on it. */
  ghost predicate Shape(g: Graph, t: Tables, gray: set<FunctionId>, next: nat) {
    && t.orders.Keys <= g.Keys
    && (forall u :: u in t.orders ==> t.orders[u] < next)
    && (forall i :: 0 <= i < |t.stack| ==> t.stack[i] in t.orders)
    && (forall i, j :: 0 <= i < j < |t.stack| ==> t.orders[t.stack[i]] < t.orders[t.stack[j]])
    && (forall u :: u in gray ==> u in t.stack)
  }

  /** Calls of functions that are not gray lead to discovered functions, calls
      of done functions to done functions. */
  ghost predicate Explored(g: Graph, t: Tables, gray: set<FunctionId>) {
    && (forall u, w :: u in t.orders && u !in gray && u in g && w in g[u] ==> w in t.orders)
    && (forall u, w :: Done(t, u) && u in g && w in g[u] ==> Done(t, w))
  }

  /** Functions lower on the stack reach those above them. */
  ghost predicate Forward(g: Graph, t: Tables) {
    forall i, j :: 0 <= i < j < |t.stack| ==> Reach(g, t.stack[i], t.stack[j])
  }

  /** Some gray function no younger than y is reachable from y. */
  ghost predicate ReachesGray(g: Graph, t: Tables, gray: set<FunctionId>, y: FunctionId) {
    exists x :: x in gray && x in t.orders && y in t.orders && t.orders[x] <= t.orders[y] && Reach(g, y, x)
  }

  lemma GrayWitness(g: Graph, t: Tables, gray: set<FunctionId>, y: FunctionId) returns (x: FunctionId)
    requires ReachesGray(g, t, gray, y)
    ensures x in gray && x in t.orders && y in t.orders && t.orders[x] <= t.orders[y] && Reach(g, y, x)
  {
    x :| x in gray && x in t.orders && y in t.orders && t.orders[x] <= t.orders[y] && Reach(g, y, x);
  }

  lemma GrayWitnessed(g: Graph, t: Tables, gray: set<FunctionId>, y: FunctionId, x: FunctionId)
    requires x in gray && x in t.orders && y in t.orders && t.orders[x] <= t.orders[y] && Reach(g, y, x)
    ensures ReachesGray(g, t, gray, y)
  {
  }

  ghost predicate Backward(g: Graph, t: Tables, gray: set<FunctionId>) {
    forall y :: y in t.stack ==> ReachesGray(g, t, gray, y)
  }

  ghost predicate Inv(g: Graph, t: Tables, gray: set<FunctionId>, next: nat) {
    Closed(g) && Shape(g, t, gray, next) && Explored(g, t, gray) && Forward(g, t) && Backward(g, t, gray)
  }

  /** t2 continues t1: known orders stay, new ones are at least next, and the
      stack of t1 is a prefix of the one of t2. */
  ghost predicate Extends(t1: Tables, t2: Tables, next: nat) {
    && t1.orders.Keys <= t2.orders.Keys
    && (forall u :: u in t1.orders ==> t2.orders[u] == t1.orders[u])
    && (forall u :: u in t2.orders && u !in t1.orders ==> next <= t2.orders[u])
    && t1.stack <= t2.stack
    && (forall i :: |t1.stack| <= i < |t2.stack| ==> t2.stack[i] !in t1.orders)
  }

  lemma ExtendsDone(t1: Tables, t2: Tables, next: nat)
    requires Extends(t1, t2, next)
    ensures forall u :: Done(t1, u) ==> Done(t2, u)
  {
    forall u | Done(t1, u)
      ensures Done(t2, u)
    {
      forall k | 0 <= k < |t2.stack|
        ensures t2.stack[k] != u
      {
        if k < |t1.stack| {
          assert t1.stack[k] in t1.stack;
        }
      }
    }
  }

  /** v reaches a function on the stack whose order is low. */
  ghost predicate Attained(g: Graph, t: Tables, v: FunctionId, low: nat) {
    exists y :: y in t.stack && y in t.orders && t.orders[y] == low && Reach(g, v, y)
  }

  /** No call from the stack above position from reaches below position base under low. */
  ghost predicate Bounded(g: Graph, t: Tables, base: nat, from: nat, low: nat)
    requires base <= from
  {
    forall i, k, w ::
      from <= i < |t.stack| && t.stack[i] in g && w in g[t.stack[i]]
      && 0 <= k < base && w == t.stack[k] && w in t.orders
      ==> low <= t.orders[w]
  }

  /** The tables after discovering v. */
  function Push(t: Tables, v: FunctionId, order: nat): Tables {
    Tables(t.orders[v := order], t.stack + [v])
  }

  lemma InStackAfterPush(t: Tables, v: FunctionId, order: nat)
    ensures forall u :: u in Push(t, v, order).stack <==> u in t.stack || u == v
  {
    var s := t.stack + [v];
    assert s[|t.stack|] == v;
    forall u | u in t.stack
      ensures u in s
    {
      var i :| 0 <= i < |t.stack| && t.stack[i] == u;
      assert s[i] == u;
    }
  }

  lemma PushExplored(g: Graph, t: Tables, gray: set<FunctionId>, v: FunctionId, next: nat)
    requires Explored(g, t, gray) && v !in t.orders
    ensures Explored(g, Push(t, v, next), gray + {v})
  {
    var t' := Push(t, v, next);
    InStackAfterPush(t, v, next);
    forall u, w | Done(t', u) && u in g && w in g[u]
      ensures Done(t', w)
    {
      assert Done(t, u);
      assert Done(t, w);
    }
  }

  lemma PushForward(g: Graph, t: Tables, gray: set<FunctionId>, v: FunctionId, next: nat)
    requires Forward(g, t) && Backward(g, t, gray)
    requires forall x :: x in gray ==> Reach(g, x, v)
    ensures Forward(g, Push(t, v, next))
  {
    var t' := Push(t, v, next);
    forall i, j | 0 <= i < j < |t'.stack|
      ensures Reach(g, t'.stack[i], t'.stack[j])
    {
      if j == |t.stack| {
        var x := t.stack[i];
        assert ReachesGray(g, t, gray, x);
        var y :| y in gray && y in t.orders && x in t.orders && t.orders[y] <= t.orders[x] && Reach(g, x, y);
        ReachTrans(g, x, y, v);
      }
    }
  }

  lemma PushBackward(g: Graph, t: Tables, gray: set<FunctionId>, v: FunctionId, next: nat)
    requires Backward(g, t, gray) && v in g && v !in t.orders
    ensures Backward(g, Push(t, v, next), gray + {v})
  {
    var t', gray' := Push(t, v, next), gray + {v};
    InStackAfterPush(t, v, next);
    ReachSelf(g, v);
    forall y | y in t'.stack
      ensures ReachesGray(g, t', gray', y)
    {
      if y == v {
        assert v in gray' && t'.orders[v] <= t'.orders[v];
      } else {
        assert ReachesGray(g, t, gray, y);
        var x :| x in gray && x in t.orders && y in t.orders && t.orders[x] <= t.orders[y] && Reach(g, y, x);
        assert x in gray' && t'.orders[x] <= t'.orders[y];
      }
    }
  }

  lemma PushShape(g: Graph, t: Tables, gray: set<FunctionId>, v: FunctionId, next: nat)
    requires Shape(g, t, gray, next) && v in g && v !in t.orders
    ensures Shape(g, Push(t, v, next), gray + {v}, next + 1)
    ensures Extends(t, Push(t, v, next), next)
  {
    var t' := Push(t, v, next);
    InStackAfterPush(t, v, next);
    forall i, j | 0 <= i < j < |t'.stack|
      ensures t'.orders[t'.stack[i]] < t'.orders[t'.stack[j]]
    {
      assert t'.stack[i] == t.stack[i] && t.stack[i] in t.orders;
    }
  }

  /** Discovering v keeps the invariant, with v gray. */
  lemma PushKeeps(g: Graph, t: Tables, gray: set<FunctionId>, v: FunctionId, next: nat)
    requires Inv(g, t, gray, next)
    requires v in g && v !in t.orders
    requires forall x :: x in gray ==> Reach(g, x, v)
    ensures Inv(g, Push(t, v, next), gray + {v}, next + 1)
    ensures Extends(t, Push(t, v, next), next)
    ensures Attained(g, Push(t, v, next), v, next)
  {
    hide Shape, Explored, Forward, Backward, Extends;
    PushShape(g, t, gray, v, next);
    PushExplored(g, t, gray, v, next);
    PushForward(g, t, gray, v, next);
    PushBackward(g, t, gray, v, next);
    InStackAfterPush(t, v, next);
    ReachSelf(g, v);
    assert v in Push(t, v, next).stack;
  }

  /** All calls of v have been followed: v sits at position pos of the stack and
      no call from v or above it reaches below v with an order under low. */
  ghost predicate Followed(g: Graph, t: Tables, pos: nat, v: FunctionId, low: nat) {
    && pos < |t.stack| && t.stack[pos] == v && v in g && v in t.orders
    && (forall w :: w in g[v] ==> w in t.orders)
    && Attained(g, t, v, low) && low <= t.orders[v]
    && Bounded(g, t, pos, pos, low)
  }

  /** The part of the stack from position pos on, as a set. */
  ghost function Above(t: Tables, pos: nat): set<FunctionId>
    requires pos <= |t.stack|
  {
    set i | pos <= i < |t.stack| :: t.stack[i]
  }

  ghost predicate NoGrayAbove(t: Tables, pos: nat, gray: set<FunctionId>) {
    forall i :: pos <= i < |t.stack| ==> t.stack[i] !in gray
  }

  lemma StackPosition(t: Tables, u: FunctionId) returns (k: nat)
    requires u in t.stack
    ensures k < |t.stack| && t.stack[k] == u
  {
    k :| 0 <= k < |t.stack| && t.stack[k] == u;
  }

  /** With lowlink equal to order, a call from the top of the stack down to v stays
      there or leads to a done function. */
  lemma TopIsClosed(g: Graph, t: Tables, gray: set<FunctionId>, next: nat, pos: nat, v: FunctionId,
                    s: FunctionId, w: FunctionId)
    requires Shape(g, t, gray + {v}, next) && Explored(g, t, gray + {v})
    requires Followed(g, t, pos, v, t.orders[v])
    requires NoGrayAbove(t, pos, gray)
    requires s in Above(t, pos) && s in g && w in g[s]
    ensures w in Above(t, pos) || Done(t, w)
  {
    var i :| pos <= i < |t.stack| && t.stack[i] == s;
    assert w in t.orders;
    if w in t.stack {
      var k := StackPosition(t, w);
      if k < pos {
        assert false;
      }
    }
  }

  lemma TopReaches(g: Graph, t: Tables, gray: set<FunctionId>, next: nat, pos: nat, v: FunctionId,
                   a: FunctionId, b: FunctionId)
    requires Shape(g, t, gray + {v}, next) && Explored(g, t, gray + {v})
    requires Followed(g, t, pos, v, t.orders[v])
    requires NoGrayAbove(t, pos, gray)
    requires a in Above(t, pos) && Reach(g, a, b)
    ensures b in Above(t, pos) || Done(t, b)
  {
    var inside := Above(t, pos) + set u | u in t.orders && Done(t, u);
    forall s, w | s in inside && s in g && w in g[s]
      ensures w in inside
    {
      if s in Above(t, pos) {
        TopIsClosed(g, t, gray, next, pos, v, s, w);
      } else {
        assert Done(t, s);
        assert Done(t, w);
      }
    }
    ClosedContainsReachable(g, inside, a, b);
  }

  /** Done functions reach only done functions. */
  lemma DoneReaches(g: Graph, t: Tables, gray: set<FunctionId>, a: FunctionId, b: FunctionId)
    requires Explored(g, t, gray)
    requires Done(t, a) && Reach(g, a, b)
    ensures Done(t, b)
  {
    var inside := set u | u in t.orders && Done(t, u);
    forall s, w | s in inside && s in g && w in g[s]
      ensures w in inside
    {
      assert Done(t, s);
      assert Done(t, w);
    }
    ClosedContainsReachable(g, inside, a, b);
  }

  lemma TopMemberReturns(g: Graph, t: Tables, gray: set<FunctionId>, next: nat, pos: nat, v: FunctionId, y: FunctionId)
    requires Shape(g, t, gray + {v}, next) && Explored(g, t, gray + {v}) && ReachesGray(g, t, gray + {v}, y)
    requires Followed(g, t, pos, v, t.orders[v])
    requires NoGrayAbove(t, pos, gray)
    requires y in Above(t, pos)
    ensures Reach(g, y, v)
  {
    hide Explored, Followed;
    var x :| x in gray + {v} && x in t.orders && t.orders[x] <= t.orders[y] && Reach(g, y, x);
    if x != v {
      TopReaches(g, t, gray, next, pos, v, y, x);
    }
  }

  /** The stack from v up is the strongly connected component of v. */
  lemma TopIsScc(g: Graph, t: Tables, gray: set<FunctionId>, next: nat, pos: nat, v: FunctionId)
    requires Inv(g, t, gray + {v}, next)
    requires Followed(g, t, pos, v, t.orders[v])
    requires NoGrayAbove(t, pos, gray)
    ensures Above(t, pos) == Scc(g, v)
  {
    hide Shape, Explored, Reach;
    forall y | y in Above(t, pos)
      ensures y in Scc(g, v)
    {
      var i :| pos <= i < |t.stack| && t.stack[i] == y;
      TopMemberReturns(g, t, gray, next, pos, v, y);
      if i == pos {
        ReachSelf(g, v);
      } else {
        assert Reach(g, t.stack[pos], t.stack[i]);
      }
      ReachInside(g, y, v);
    }
    forall z | z in Scc(g, v)
      ensures z in Above(t, pos)
    {
      assert t.stack[pos] in Above(t, pos);
      TopReaches(g, t, gray, next, pos, v, v, z);
      if Done(t, z) {
        DoneReaches(g, t, gray + {v}, z, v);
      }
    }
  }

  /** The tables after taking v and all above it off the stack. */
  function Pop(t: Tables, pos: nat): Tables
    requires pos <= |t.stack|
  {
    t.(stack := t.stack[..pos])
  }

  lemma InStackAfterPop(t: Tables, pos: nat)
    requires pos <= |t.stack|
    requires forall i, j :: 0 <= i < j < |t.stack| ==> t.stack[i] != t.stack[j]
    ensures forall u :: u in Pop(t, pos).stack <==> u in t.stack && u !in Above(t, pos)
  {
    forall u | u in t.stack && u !in Above(t, pos)
      ensures u in Pop(t, pos).stack
    {
      var k := StackPosition(t, u);
      assert k < pos;
      assert Pop(t, pos).stack[k] == u;
    }
    forall u | u in Pop(t, pos).stack
      ensures u in t.stack && u !in Above(t, pos)
    {
      var k := StackPosition(Pop(t, pos), u);
      assert t.stack[k] == u;
    }
  }

  lemma StackDistinct(g: Graph, t: Tables, gray: set<FunctionId>, next: nat)
    requires Shape(g, t, gray, next)
    ensures forall i, j :: 0 <= i < j < |t.stack| ==> t.stack[i] != t.stack[j]
  {
  }

  lemma PopExplored(g: Graph, t: Tables, gray: set<FunctionId>, next: nat, pos: nat, v: FunctionId)
    requires Shape(g, t, gray + {v}, next) && Explored(g, t, gray + {v})
    requires Followed(g, t, pos, v, t.orders[v])
    requires NoGrayAbove(t, pos, gray)
    ensures Explored(g, Pop(t, pos), gray)
  {
    var t' := Pop(t, pos);
    StackDistinct(g, t, gray + {v}, next);
    InStackAfterPop(t, pos);
    forall u, w | Done(t', u) && u in g && w in g[u]
      ensures Done(t', w)
    {
      if u in Above(t, pos) {
        TopIsClosed(g, t, gray, next, pos, v, u, w);
      } else {
        assert Done(t, u);
        assert Done(t, w);
      }
    }
  }

  lemma PopBackward(g: Graph, t: Tables, gray: set<FunctionId>, next: nat, pos: nat, v: FunctionId)
    requires Shape(g, t, gray + {v}, next) && Backward(g, t, gray + {v})
    requires pos < |t.stack| && t.stack[pos] == v
    ensures Backward(g, Pop(t, pos), gray)
  {
    hide Reach, ReachesGray;
    var t' := Pop(t, pos);
    forall y | y in t'.stack
      ensures ReachesGray(g, t', gray, y)
    {
      var k := StackPosition(t', y);
      assert t.stack[k] == y && y in t.stack;
      var x := GrayWitness(g, t, gray + {v}, y);
      GrayWitnessed(g, t', gray, y, x);
    }
  }

  lemma PopShape(g: Graph, t: Tables, gray: set<FunctionId>, next: nat, pos: nat, v: FunctionId)
    requires Shape(g, t, gray + {v}, next)
    requires pos < |t.stack| && NoGrayAbove(t, pos, gray)
    ensures Shape(g, Pop(t, pos), gray, next)
  {
    var t' := Pop(t, pos);
    forall u | u in gray
      ensures u in t'.stack
    {
      var k := StackPosition(t, u);
      assert t'.stack[k] == u;
    }
  }

  /** Closing the component of v keeps the invariant. */
  lemma PopKeeps(g: Graph, t: Tables, gray: set<FunctionId>, next: nat, pos: nat, v: FunctionId)
    requires Inv(g, t, gray + {v}, next)
    requires Followed(g, t, pos, v, t.orders[v])
    requires NoGrayAbove(t, pos, gray)
    ensures Inv(g, Pop(t, pos), gray, next)
  {
    hide Shape, Explored, Backward;
    PopShape(g, t, gray, next, pos, v);
    PopExplored(g, t, gray, next, pos, v);
    PopBackward(g, t, gray, next, pos, v);
  }

  lemma StayBackward(g: Graph, t: Tables, gray: set<FunctionId>, next: nat, pos: nat, v: FunctionId, low: nat)
    requires Shape(g, t, gray + {v}, next) && Backward(g, t, gray + {v})
    requires v in t.orders && Attained(g, t, v, low) && low < t.orders[v]
    ensures Backward(g, t, gray)
  {
    hide Reach, ReachesGray;
    var z :| z in t.stack && z in t.orders && t.orders[z] == low && Reach(g, v, z);
    var older := GrayWitness(g, t, gray + {v}, z);
    ReachTrans(g, v, z, older);
    forall y | y in t.stack
      ensures ReachesGray(g, t, gray, y)
    {
      var x := GrayWitness(g, t, gray + {v}, y);
      if x == v {
        ReachTrans(g, y, v, older);
        x := older;
      }
      GrayWitnessed(g, t, gray, y, x);
    }
  }

  /** With a smaller lowlink v stays on the stack and stops being gray. */
  lemma StayKeeps(g: Graph, t: Tables, gray: set<FunctionId>, next: nat, pos: nat, v: FunctionId, low: nat)
    requires Inv(g, t, gray + {v}, next)
    requires Followed(g, t, pos, v, low) && low < t.orders[v]
    ensures Inv(g, t, gray, next)
  {
    hide Backward, Forward;
    StayBackward(g, t, gray, next, pos, v, low);
  }

  /** What following v comes to: from t1 to t2, with the given lowlink for v. */
  ghost predicate Explores(g: Graph, t1: Tables, t2: Tables, v: FunctionId, low: nat, next: nat) {
    && Extends(t1, t2, next)
    && v in t2.orders && low <= t2.orders[v]
    && (v !in t2.stack ==> t2.stack == t1.stack && low == t2.orders[v])
    && (v in t2.stack ==>
      Attained(g, t2, v, low) && low < t2.orders[v] && Bounded(g, t2, |t1.stack|, |t1.stack|, low))
  }

  /** Midway through the calls of v (which sits on top of t0's stack): i of them followed. */
  ghost predicate Following(g: Graph, t0: Tables, t: Tables, v: FunctionId, i: nat, low: nat, next: nat) {
    && v in g && i <= |g[v]| && v !in t0.orders
    && Extends(Push(t0, v, next), t, next + 1)
    && (forall j :: 0 <= j < i ==> g[v][j] in t.orders)
    && v in t.orders && low <= t.orders[v] && Attained(g, t, v, low)
    && Bounded(g, t, |t0.stack|, |t0.stack| + 1, low)
    && LowAgainst(g, t0, t, v, i, low)
  }

  /** low accounts for those of the i calls that go back into the stack of t0. */
  ghost predicate LowAgainst(g: Graph, t0: Tables, t: Tables, v: FunctionId, i: nat, low: nat)
    requires v in g && i <= |g[v]|
  {
    forall j, k :: 0 <= j < i && 0 <= k < |t0.stack| && g[v][j] == t0.stack[k] ==>
      t0.stack[k] in t.orders && low <= t.orders[t0.stack[k]]
  }

  lemma FollowingStarts(g: Graph, t0: Tables, gray: set<FunctionId>, v: FunctionId, next: nat)
    requires Inv(g, t0, gray, next) && v in g && v !in t0.orders
    requires forall x :: x in gray ==> Reach(g, x, v)
    ensures Inv(g, Push(t0, v, next), gray + {v}, next + 1)
    ensures Following(g, t0, Push(t0, v, next), v, 0, next, next)
  {
    PushKeeps(g, t0, gray, v, next);
  }

  /** A call to a function already on the stack. */
  lemma FollowBack(g: Graph, t0: Tables, t: Tables, gray: set<FunctionId>, v: FunctionId, i: nat, low: nat, next: nat,
                   now: nat)
    requires Inv(g, t, gray, now)
    requires Following(g, t0, t, v, i, low, next) && i < |g[v]| && g[v][i] in t.stack
    ensures g[v][i] in t.orders
    ensures Following(g, t0, t, v, i + 1, Min(low, t.orders[g[v][i]]), next)
  {
    hide Reach, Backward, Forward, Explored;
    var w := g[v][i];
    ReachEdge(g, v, w);
    assert Attained(g, t, v, t.orders[w]);
  }

  /** A call to a function whose component is complete. */
  lemma FollowDone(g: Graph, t0: Tables, t: Tables, gray: set<FunctionId>, v: FunctionId, i: nat, low: nat, next: nat,
                   now: nat)
    requires Inv(g, t, gray, now)
    requires Following(g, t0, t, v, i, low, next) && i < |g[v]| && Done(t, g[v][i])
    ensures Following(g, t0, t, v, i + 1, low, next)
  {
    hide Reach, Backward, Forward, Explored;
    forall k | 0 <= k < |t0.stack|
      ensures g[v][i] != t0.stack[k]
    {
      assert t0.stack[k] == Push(t0, v, next).stack[k] == t.stack[k];
    }
  }

  lemma ExtendsTrans(t1: Tables, t2: Tables, t3: Tables, n1: nat, n2: nat)
    requires Extends(t1, t2, n1) && Extends(t2, t3, n2) && n1 <= n2
    ensures Extends(t1, t3, n1)
  {
  }

  lemma AttainedKept(g: Graph, t1: Tables, t2: Tables, v: FunctionId, low: nat, next: nat)
    requires Extends(t1, t2, next) && Attained(g, t1, v, low)
    ensures Attained(g, t2, v, low)
  {
    var y :| y in t1.stack && y in t1.orders && t1.orders[y] == low && Reach(g, v, y);
    var k := StackPosition(t1, y);
    assert t2.stack[k] == y;
    assert y in t2.stack && t2.orders[y] == low;
  }

  lemma BoundedKept(g: Graph, t1: Tables, t2: Tables, base: nat, from: nat, low: nat, w: FunctionId, lowW: nat,
                    next: nat)
    requires base <= from <= |t1.stack|
    requires Bounded(g, t1, base, from, low) && Extends(t1, t2, next)
    requires forall k :: 0 <= k < |t1.stack| ==> t1.stack[k] in t1.orders
    requires t2.stack == t1.stack || Bounded(g, t2, |t1.stack|, |t1.stack|, lowW)
    ensures Bounded(g, t2, base, from, Min(low, lowW))
  {
    forall i, k, x | from <= i < |t2.stack| && t2.stack[i] in g && x in g[t2.stack[i]] && 0 <= k < base
                     && x == t2.stack[k] && x in t2.orders
      ensures Min(low, lowW) <= t2.orders[x]
    {
      assert t2.stack[k] == t1.stack[k] && t1.stack[k] in t1.orders;
      if i < |t1.stack| {
        assert t2.stack[i] == t1.stack[i];
      }
    }
  }

  /** A call to a function met for the first time, after following it in turn. */
  lemma FollowNew(g: Graph, t0: Tables, t1: Tables, t2: Tables, gray: set<FunctionId>, v: FunctionId, i: nat,
                  low: nat, lowW: nat, next: nat, now: nat, later: nat)
    requires Inv(g, t1, gray, now) && next < now && Inv(g, t2, gray, later)
    requires Following(g, t0, t1, v, i, low, next) && i < |g[v]| && g[v][i] !in t1.orders
    requires Explores(g, t1, t2, g[v][i], lowW, now)
    ensures Following(g, t0, t2, v, i + 1, Min(low, lowW), next)
  {
    hide Reach, Backward, Forward, Explored, Bounded, Extends, LowAgainst;
    var w := g[v][i];
    FollowNewOrders(g, t0, t1, t2, v, i, low, lowW, next, now);
    ExtendsTrans(Push(t0, v, next), t1, t2, next + 1, now);
    ExtendsOrders(Push(t0, v, next), t1, t2, next + 1, now);
    BoundedKept(g, t1, t2, |t0.stack|, |t0.stack| + 1, low, w, lowW, now);
    AttainedKept(g, t1, t2, v, low, now);
    if lowW < low {
      ReachEdge(g, v, w);
      AttainedThrough(g, t2, v, w, lowW);
    }
  }

  lemma FollowNewOrders(g: Graph, t0: Tables, t1: Tables, t2: Tables, v: FunctionId, i: nat, low: nat, lowW: nat,
                        next: nat, now: nat)
    requires Following(g, t0, t1, v, i, low, next) && i < |g[v]|
    requires Explores(g, t1, t2, g[v][i], lowW, now)
    requires g[v][i] !in t1.orders && forall k :: 0 <= k < |t1.stack| ==> t1.stack[k] in t1.orders
    ensures forall j :: 0 <= j < i + 1 ==> g[v][j] in t2.orders
    ensures LowAgainst(g, t0, t2, v, i + 1, Min(low, lowW))
  {
    hide Inv, Reach, Backward, Forward, Explored, Bounded, Attained;
    ExtendsOrders(Push(t0, v, next), t1, t2, next + 1, now);
    forall k | 0 <= k < |t0.stack|
      ensures t0.stack[k] in t1.orders
    {
      assert t1.stack[k] == Push(t0, v, next).stack[k];
    }
    forall j | 0 <= j < i + 1
      ensures g[v][j] in t2.orders
    {
      if j < i {
        assert g[v][j] in t1.orders;
      }
    }
  }

  lemma ExtendsOrders(t1: Tables, t2: Tables, t3: Tables, n1: nat, n2: nat)
    requires Extends(t1, t2, n1) && Extends(t2, t3, n2)
    ensures t1.stack <= t2.stack <= t3.stack
    ensures t1.orders.Keys <= t2.orders.Keys <= t3.orders.Keys
    ensures forall u :: u in t1.orders ==> u in t2.orders && t2.orders[u] == t1.orders[u]
    ensures forall u :: u in t2.orders ==> u in t3.orders && t3.orders[u] == t2.orders[u]
    ensures forall u :: u in t3.orders && u !in t2.orders ==> n2 <= t3.orders[u]
  {
  }

  lemma AttainedThrough(g: Graph, t: Tables, v: FunctionId, w: FunctionId, low: nat)
    requires Reach(g, v, w) && Attained(g, t, w, low)
    ensures Attained(g, t, v, low)
  {
    hide Reach;
    var y :| y in t.stack && y in t.orders && t.orders[y] == low && Reach(g, w, y);
    ReachTrans(g, v, w, y);
  }
}
