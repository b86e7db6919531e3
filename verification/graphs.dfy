/** Directed graphs as successor lists, and reachability by paths. */
module Graphs {

  /** A function is known by its id, as in the dictionaries of a profile. */
  type FunctionId = int

  /** For every function the ids it calls, in the order the calls are visited. */
  type Graph = map<FunctionId, seq<FunctionId>>

  ghost predicate Closed(g: Graph) {
    forall v, w :: v in g && w in g[v] ==> w in g
  }

  ghost predicate IsPath(g: Graph, p: seq<FunctionId>) {
    && |p| > 0
    && (forall i :: 0 <= i < |p| ==> p[i] in g)
    && forall i :: 0 <= i < |p| - 1 ==> p[i + 1] in g[p[i]]
  }

  /** Some walk of zero or more calls leads from a to b. */
  ghost predicate Reach(g: Graph, a: FunctionId, b: FunctionId) {
    exists p :: IsPath(g, p) && p[0] == a && p[|p| - 1] == b
  }

  ghost predicate Mutual(g: Graph, a: FunctionId, b: FunctionId) {
    Reach(g, a, b) && Reach(g, b, a)
  }

  /** The strongly connected component of v. */
  ghost function Scc(g: Graph, v: FunctionId): set<FunctionId> {
    set w | w in g && Mutual(g, v, w)
  }

  lemma ReachSelf(g: Graph, a: FunctionId)
    requires a in g
    ensures Reach(g, a, a)
  {
    assert IsPath(g, [a]);
  }

  lemma ReachTrans(g: Graph, a: FunctionId, b: FunctionId, c: FunctionId)
    requires Reach(g, a, b) && Reach(g, b, c)
    ensures Reach(g, a, c)
  {
    var p :| IsPath(g, p) && p[0] == a && p[|p| - 1] == b;
    var q :| IsPath(g, q) && q[0] == b && q[|q| - 1] == c;
    assert IsPath(g, p + q[1..]);
  }

  lemma ReachEdge(g: Graph, a: FunctionId, b: FunctionId)
    requires a in g && b in g && b in g[a]
    ensures Reach(g, a, b)
  {
    assert IsPath(g, [a, b]);
  }

  /** Both ends of a walk are functions of the graph. */
  lemma ReachInside(g: Graph, a: FunctionId, b: FunctionId)
    requires Reach(g, a, b)
    ensures a in g && b in g
  {
  }

  /** A walk that leaves a set of functions does so along some call. */
  lemma Exit(g: Graph, inside: set<FunctionId>, a: FunctionId, b: FunctionId)
    returns (s: FunctionId, t: FunctionId)
    requires Reach(g, a, b) && a in inside && b !in inside
    ensures s in g && t in g && s in inside && t !in inside && t in g[s]
    ensures Reach(g, a, s) && Reach(g, t, b)
  {
    var p :| IsPath(g, p) && p[0] == a && p[|p| - 1] == b;
    var i := 0;
    while p[i + 1] in inside
      invariant 0 <= i < |p| - 1 && p[i] in inside
      decreases |p| - i
    {
      i := i + 1;
    }
    s, t := p[i], p[i + 1];
    assert IsPath(g, p[..i + 1]);
    assert IsPath(g, p[i + 1..]);
  }

  /** What a set closed under calls contains, it contains for every function reachable. */
  lemma ClosedContainsReachable(g: Graph, inside: set<FunctionId>, a: FunctionId, b: FunctionId)
    requires forall v, w :: v in inside && v in g && w in g[v] ==> w in inside
    requires Reach(g, a, b) && a in inside
    ensures b in inside
  {
    if b !in inside {
      var s, t := Exit(g, inside, a, b);
      assert false;
    }
  }

  lemma MutualTrans(g: Graph, a: FunctionId, b: FunctionId, c: FunctionId)
    requires Mutual(g, a, b) && Mutual(g, b, c)
    ensures Mutual(g, a, c)
  {
    ReachTrans(g, a, b, c);
    ReachTrans(g, c, b, a);
  }

  /** Two members of one component have that component in common. */
  lemma {:induction false} SccShared(g: Graph, a: FunctionId, b: FunctionId)
    requires Mutual(g, a, b)
    ensures Scc(g, a) == Scc(g, b)
  {
    forall w | w in g
      ensures w in Scc(g, a) <==> w in Scc(g, b)
    {
      if Mutual(g, a, w) {
        MutualTrans(g, b, a, w);
      }
      if Mutual(g, b, w) {
        MutualTrans(g, a, b, w);
      }
    }
  }
}
