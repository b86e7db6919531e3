/** Cutting a profile down to what lies between a root and a leaf. */
module Prune {
  import opened Sets
  import opened Graphs
  import opened FindCycles

  // Walks.

  ghost predicate IsWalk(g: Graph, p: seq<FunctionId>, a: FunctionId, b: FunctionId) {
    IsPath(g, p) && p[0] == a && p[|p| - 1] == b
  }

  /** v is called on some walk from root to leaf. */
  ghost predicate OnWalk(g: Graph, root: FunctionId, leaf: FunctionId, v: FunctionId) {
    exists p :: IsWalk(g, p, root, leaf) && v in p
  }

  /** Some walk from root to leaf makes the call from v to w. */
  ghost predicate CallOnWalk(g: Graph, root: FunctionId, leaf: FunctionId, v: FunctionId, w: FunctionId) {
    exists p, i :: IsWalk(g, p, root, leaf) && 0 <= i < |p| - 1 && p[i] == v && p[i + 1] == w
  }

  lemma OnWalkExactly(g: Graph, root: FunctionId, leaf: FunctionId, v: FunctionId)
    ensures OnWalk(g, root, leaf, v) <==> Reach(g, root, v) && Reach(g, v, leaf)
  {
    if OnWalk(g, root, leaf, v) {
      var p :| IsWalk(g, p, root, leaf) && v in p;
      var i :| 0 <= i < |p| && p[i] == v;
      assert IsPath(g, p[..i + 1]) && IsPath(g, p[i..]);
    }
    if Reach(g, root, v) && Reach(g, v, leaf) {
      var p :| IsPath(g, p) && p[0] == root && p[|p| - 1] == v;
      var q :| IsPath(g, q) && q[0] == v && q[|q| - 1] == leaf;
      assert IsWalk(g, p + q[1..], root, leaf);
      assert v in p;
    }
  }

  lemma CallOnWalkExactly(g: Graph, root: FunctionId, leaf: FunctionId, v: FunctionId, w: FunctionId)
    ensures CallOnWalk(g, root, leaf, v, w)
      <==> Reach(g, root, v) && v in g && w in g[v] && Reach(g, w, leaf)
  {
    if CallOnWalk(g, root, leaf, v, w) {
      var p, i :| IsWalk(g, p, root, leaf) && 0 <= i < |p| - 1 && p[i] == v && p[i + 1] == w;
      assert IsPath(g, p[..i + 1]) && IsPath(g, p[i + 1..]);
    }
    if Reach(g, root, v) && v in g && w in g[v] && Reach(g, w, leaf) {
      var p :| IsPath(g, p) && p[0] == root && p[|p| - 1] == v;
      var q :| IsPath(g, q) && q[0] == w && q[|q| - 1] == leaf;
      var r, i := p + q, |p| - 1;
      assert IsWalk(g, r, root, leaf) && r[i] == v && r[i + 1] == w;
    }
  }

  // What each pruning keeps.

  ghost function From(g: Graph, root: FunctionId): set<FunctionId> {
    set w | w in g && Reach(g, root, w)
  }

  ghost function To(g: Graph, leaf: FunctionId): set<FunctionId> {
    set w | w in g && Reach(g, w, leaf)
  }

  ghost function Restrict(g: Graph, keep: set<FunctionId>): Graph {
    map w | w in g && w in keep :: Known(g[w], keep)
  }

  lemma FromClosed(g: Graph, root: FunctionId, v: FunctionId, w: FunctionId)
    requires Closed(g) && v in From(g, root) && w in g[v]
    ensures w in From(g, root)
  {
    ReachEdge(g, v, w);
    ReachTrans(g, root, v, w);
  }

  lemma {:induction false} KnownAll(calls: seq<FunctionId>, ids: set<FunctionId>)
    requires forall i :: 0 <= i < |calls| ==> calls[i] in ids
    ensures Known(calls, ids) == calls
  {
    if calls != [] {
      var last := |calls| - 1;
      KnownAll(calls[..last], ids);
      assert calls == calls[..last] + [calls[last]];
    }
  }

  /** Nothing that root leads to is lost. */
  lemma RestrictFrom(g: Graph, root: FunctionId)
    requires Closed(g)
    ensures Restrict(g, From(g, root)) == map w | w in From(g, root) :: g[w]
    ensures Closed(Restrict(g, From(g, root)))
  {
    var keep := From(g, root);
    forall w | w in keep
      ensures Known(g[w], keep) == g[w]
    {
      forall i | 0 <= i < |g[w]|
        ensures g[w][i] in keep
      {
        FromClosed(g, root, w, g[w][i]);
      }
      KnownAll(g[w], keep);
    }
    forall v, w | v in keep && w in g[v]
      ensures w in keep
    {
      FromClosed(g, root, v, w);
    }
  }

  /** Among the functions that root leads to, the walks are the same as before. */
  lemma ReachWithin(g: Graph, root: FunctionId, v: FunctionId, w: FunctionId)
    requires Closed(g) && v in From(g, root)
    ensures Reach(Restrict(g, From(g, root)), v, w) <==> Reach(g, v, w)
  {
    RestrictFrom(g, root);
    var g' := Restrict(g, From(g, root));
    if Reach(g', v, w) {
      var p :| IsPath(g', p) && p[0] == v && p[|p| - 1] == w;
      assert IsPath(g, p);
    }
    if Reach(g, v, w) {
      var p :| IsPath(g, p) && p[0] == v && p[|p| - 1] == w;
      WalkWithin(g, root, p);
    }
  }

  lemma {:induction false} WalkWithin(g: Graph, root: FunctionId, p: seq<FunctionId>)
    requires Closed(g) && IsPath(g, p) && p[0] in From(g, root)
    ensures IsPath(Restrict(g, From(g, root)), p)
  {
    RestrictFrom(g, root);
    if |p| > 1 {
      FromClosed(g, root, p[0], p[1]);
      WalkWithin(g, root, p[1..]);
      assert forall i :: 1 <= i < |p| ==> p[i] == p[1..][i - 1];
      assert p[1] in Restrict(g, From(g, root))[p[0]];
      var g' := Restrict(g, From(g, root));
      forall i | 0 <= i < |p| - 1
        ensures p[i + 1] in g'[p[i]]
      {
        if i > 0 {
          assert p[1..][i - 1 + 1] in g'[p[1..][i - 1]];
        }
      }
    }
  }

  // The searches.

  method PruneRoot(profile: Profile, root: FunctionId)
    requires profile.Valid() && Closed(profile.Calls()) && root in profile.functions
    modifies profile`functions
    ensures profile.Valid()
    ensures profile.Calls() == Restrict(old(profile.Calls()), From(old(profile.Calls()), root))
    ensures forall w :: w in profile.functions ==>
      w in old(profile.functions) && profile.functions[w] == old(profile.functions)[w]
    ensures profile.functions.Values <= old(profile.functions).Values
  {
    ghost var g := profile.Calls();
    hide Reach;
    ReachSelf(g, root);
    var visited, frontier: set<FunctionId> := {}, {root};
    while frontier != {}
      invariant profile.functions == old(profile.functions)
      invariant visited !! frontier && visited + frontier <= From(g, root)
      invariant root in visited + frontier
      invariant forall v, w :: v in visited && v in g && w in g[v] ==> w in visited + frontier
      decreases g.Keys - visited
    {
      ghost var some := Member(frontier);
      var node :| node in frontier;
      frontier := frontier - {node};
      visited := visited + {node};
      var calls := profile.functions[node].calls;
      var newNodes := set w | w in calls;
      forall w | w in newNodes
        ensures w in From(g, root)
      {
        FromClosed(g, root, node, w);
      }
      frontier := frontier + (newNodes - visited);
    }
    forall w | w in From(g, root)
      ensures w in visited
    {
      ClosedContainsReachable(g, visited, root, w);
    }
    profile.functions := map n | n in visited :: profile.functions[n];
    RestrictFrom(g, root);
  }

  /** Who calls n. */
  function Up(edgesUp: map<FunctionId, set<FunctionId>>, n: FunctionId): set<FunctionId> {
    if n in edgesUp then edgesUp[n] else {}
  }

  /** The callers noted are those in ids. */
  ghost predicate CallersIn(g: Graph, edgesUp: map<FunctionId, set<FunctionId>>, ids: set<FunctionId>) {
    forall n, f :: f in Up(edgesUp, n) <==> f in ids && f in g && n in g[f]
  }

  method AddCaller(edgesUp: map<FunctionId, set<FunctionId>>, f: FunctionId, calls: seq<FunctionId>)
    returns (more: map<FunctionId, set<FunctionId>>)
    ensures forall n :: Up(more, n) == Up(edgesUp, n) + if n in calls then {f} else {}
  {
    more := edgesUp;
    for i := 0 to |calls|
      invariant forall n :: Up(more, n) == Up(edgesUp, n) + if n in calls[..i] then {f} else {}
    {
      more := more[calls[i] := Up(more, calls[i]) + {f}];
      assert calls[..i + 1] == calls[..i] + [calls[i]];
    }
    assert calls[..|calls|] == calls;
  }

  method Callers(profile: Profile) returns (edgesUp: map<FunctionId, set<FunctionId>>)
    requires profile.Valid()
    ensures CallersIn(profile.Calls(), edgesUp, profile.functions.Keys)
  {
    edgesUp := map[];
    var rest := profile.functions.Keys;
    while rest != {}
      invariant rest <= profile.functions.Keys
      invariant CallersIn(profile.Calls(), edgesUp, profile.functions.Keys - rest)
      decreases rest
    {
      ghost var some := Member(rest);
      var f :| f in rest;
      rest := rest - {f};
      edgesUp := AddCaller(edgesUp, f, profile.functions[f].calls);
    }
  }

  /** Everything that leads to leaf, and leaf itself, even when it is not a function. */
  method Upwards(ghost g: Graph, edgesUp: map<FunctionId, set<FunctionId>>, leaf: FunctionId)
    returns (visited: set<FunctionId>)
    requires Closed(g) && CallersIn(g, edgesUp, g.Keys)
    ensures visited == To(g, leaf) + {leaf}
  {
    hide Reach;
    visited := {};
    var frontier: set<FunctionId> := {leaf};
    if leaf in g {
      ReachSelf(g, leaf);
    }
    while frontier != {}
      invariant visited !! frontier && visited + frontier <= To(g, leaf) + {leaf}
      invariant leaf in visited + frontier
      invariant forall v, w :: w in visited && v in g && w in g[v] ==> v in visited + frontier
      decreases g.Keys + {leaf} - visited
    {
      ghost var some := Member(frontier);
      var node :| node in frontier;
      frontier := frontier - {node};
      visited := visited + {node};
      forall v | v in Up(edgesUp, node)
        ensures v in To(g, leaf)
      {
        ReachEdge(g, v, node);
        ReachTrans(g, v, node, leaf);
      }
      frontier := frontier + (Up(edgesUp, node) - visited);
    }
    forall w | w in To(g, leaf)
      ensures w in visited
    {
      if w !in visited {
        var s, t := Exit(g, g.Keys - visited, w, leaf);
      }
    }
  }

  method PruneLeaf(profile: Profile, leaf: FunctionId)
    requires profile.Valid() && Closed(profile.Calls())
    modifies profile`functions, profile.functions.Values`calls
    ensures profile.Valid()
    ensures profile.Calls() == Restrict(old(profile.Calls()), To(old(profile.Calls()), leaf))
    ensures forall w :: w in profile.functions ==>
      w in old(profile.functions) && profile.functions[w] == old(profile.functions)[w]
  {
    hide To, Reach, CallersIn, Known, Closed;
    ghost var g := profile.Calls();
    assert g.Keys == profile.functions.Keys;
    var edgesUp := Callers(profile);
    var upTree := Upwards(g, edgesUp, leaf);
    ToInside(g, leaf);
    var path := profile.functions.Keys * upTree;
    CutCalls(profile, path);
    var functions := profile.functions;
    profile.functions := map n | n in path :: functions[n];
    assert path == To(g, leaf);
    forall n | n in path
      ensures n in g && profile.functions[n].calls == Known(g[n], path)
    {
    }
    assert profile.Calls() == Restrict(g, path);
  }

  /** The functions in path keep only their calls to functions in path. */
  method CutCalls(profile: Profile, path: set<FunctionId>)
    requires profile.Valid() && path <= profile.functions.Keys
    modifies profile.functions.Values`calls
    ensures forall n :: n in path ==> profile.functions[n].calls == Known(old(profile.functions[n].calls), path)
  {
    var functions, rest := profile.functions, path;
    while rest != {}
      invariant rest <= path
      invariant forall n :: n in path - rest ==> functions[n].calls == Known(old(functions[n].calls), path)
      invariant forall n :: n in rest ==> functions[n].calls == old(functions[n].calls)
      decreases rest
    {
      ghost var some := Member(rest);
      var n :| n in rest;
      rest := rest - {n};
      var calls := functions[n].calls;
      var newCalls: seq<FunctionId> := [];
      for i := 0 to |calls|
        invariant newCalls == Known(calls[..i], path)
      {
        assert calls[..i + 1][..i] == calls[..i];
        if calls[i] in path {
          newCalls := newCalls + [calls[i]];
        }
      }
      assert calls[..|calls|] == calls;
      functions[n].calls := newCalls;
      assert forall m :: m in path && m != n ==> functions[m].id != functions[n].id;
    }
  }

  /** Only functions lead to leaf, and it is among them when it is a function itself. */
  lemma ToInside(g: Graph, leaf: FunctionId)
    ensures g.Keys * (To(g, leaf) + {leaf}) == To(g, leaf)
  {
    if leaf in g {
      ReachSelf(g, leaf);
    }
  }

  /** Both, one after the other: exactly the functions and the calls on walks from root
      to leaf are left. */
  method PruneBetween(profile: Profile, root: FunctionId, leaf: FunctionId)
    requires profile.Valid() && Closed(profile.Calls()) && root in profile.functions
    modifies profile`functions, profile.functions.Values`calls
    ensures profile.Valid()
    ensures forall v :: v in profile.functions <==> OnWalk(old(profile.Calls()), root, leaf, v)
    ensures forall v, w :: v in profile.functions ==>
      (w in profile.functions[v].calls <==> CallOnWalk(old(profile.Calls()), root, leaf, v, w))
  {
    ghost var g := profile.Calls();
    PruneRoot(profile, root);
    RestrictFrom(g, root);
    PruneLeaf(profile, leaf);
    BetweenExactly(g, root, leaf);
  }

  ghost function Between(g: Graph, root: FunctionId, leaf: FunctionId): Graph {
    var below := Restrict(g, From(g, root));
    Restrict(below, To(below, leaf))
  }

  lemma BetweenExactly(g: Graph, root: FunctionId, leaf: FunctionId)
    requires Closed(g)
    ensures forall v :: v in Between(g, root, leaf) <==> OnWalk(g, root, leaf, v)
    ensures forall v, w :: v in Between(g, root, leaf) ==>
      (w in Between(g, root, leaf)[v] <==> CallOnWalk(g, root, leaf, v, w))
  {
    var below := Restrict(g, From(g, root));
    RestrictFrom(g, root);
    forall v
      ensures v in Between(g, root, leaf) <==> OnWalk(g, root, leaf, v)
    {
      OnWalkExactly(g, root, leaf, v);
      if v in From(g, root) {
        ReachWithin(g, root, v, leaf);
      }
    }
    forall v, w | v in Between(g, root, leaf)
      ensures w in Between(g, root, leaf)[v] <==> CallOnWalk(g, root, leaf, v, w)
    {
      CallOnWalkExactly(g, root, leaf, v, w);
      KnownOnly(below[v], To(below, leaf), w);
      if w in g[v] {
        FromClosed(g, root, v, w);
        ReachWithin(g, root, w, leaf);
      }
    }
  }
}
