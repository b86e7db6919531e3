/** Forests of calls, each known by the stack that leads to it, and sums over them. */
module CallForest {
  import opened SetSums

  /** The functions on the stack, the innermost last. */
  type Stack = seq<string>

  function Parent(s: Stack): Stack
    requires s != []
  {
    s[..|s| - 1]
  }

  /** The calls of ids that s makes. */
  function Kids(ids: set<Stack>, s: Stack): set<Stack> {
    set t | t in ids && t != [] && Parent(t) == s
  }

  /** The calls that none of ids makes. */
  function Roots(ids: set<Stack>): set<Stack> {
    set s | s in ids && (s == [] || Parent(s) !in ids)
  }

  function AllKids(ids: set<Stack>, of: set<Stack>): set<Stack> {
    set t | t in ids && t != [] && Parent(t) in of
  }

  /** A value for every call: its own and those of some of the calls it makes. */
  ghost predicate Gathers(ids: set<Stack>, which: set<Stack>, own: map<Stack, real>, v: map<Stack, real>) {
    && ids <= own.Keys && ids <= v.Keys
    && forall s :: s in ids ==> v[s] == own[s] + Sum(Kids(ids, s) * which, v)
  }

  /** Summed call by call, what is gathered from below counts every call that is made
      once. */
  lemma {:induction false} GatheredOnce(ids: set<Stack>, some: set<Stack>, which: set<Stack>,
                                        own: map<Stack, real>, v: map<Stack, real>)
    requires some <= ids && Gathers(ids, which, own, v)
    ensures Sum(some, v) == Sum(some, own) + Sum(AllKids(ids, some) * which, v)
    decreases some
  {
    if some == {} {
      assert AllKids(ids, some) * which == {};
    } else {
      var s :| s in some;
      var rest := some - {s};
      GatheredOnce(ids, rest, which, own, v);
      Take(some, v, s);
      Take(some, own, s);
      var below, below' := AllKids(ids, rest) * which, Kids(ids, s) * which;
      assert AllKids(ids, some) * which == below + below';
      Union(below, below', v);
    }
  }

  /** The roots, with those calls that nothing is gathered from, have it all. */
  lemma Conserved(ids: set<Stack>, which: set<Stack>, own: map<Stack, real>, v: map<Stack, real>)
    requires Gathers(ids, which, own, v)
    ensures var kept := ids - (AllKids(ids, ids) * which);
      kept <= v.Keys && Sum(kept, v) == Sum(ids, own)
  {
    var taken := AllKids(ids, ids) * which;
    GatheredOnce(ids, ids, which, own, v);
    Union(ids - taken, taken, v);
    assert (ids - taken) + taken == ids;
  }

  lemma RootsAre(ids: set<Stack>)
    ensures Roots(ids) == ids - AllKids(ids, ids)
  {
  }

  // Walking down from the roots along changed sets of children.

  ghost predicate IsTrail(children: map<Stack, set<Stack>>, p: seq<Stack>) {
    p != [] && forall i :: 0 <= i < |p| - 1 ==> p[i] in children && p[i + 1] in children[p[i]]
  }

  /** Printing the tree from the roots comes to s. */
  ghost predicate Printed(roots: set<Stack>, children: map<Stack, set<Stack>>, s: Stack) {
    exists p :: IsTrail(children, p) && p[0] in roots && p[|p| - 1] == s
  }

  /** The children of a call once the folded ones have been replaced by theirs. */
  ghost predicate Folds(ids: set<Stack>, folded: set<Stack>, children: map<Stack, set<Stack>>) {
    && children.Keys == ids
    && forall s :: s in ids ==> FoldsTo(Kids(ids, s), folded, children, children[s])
  }

  ghost predicate FoldsTo(kids: set<Stack>, folded: set<Stack>, children: map<Stack, set<Stack>>, r: set<Stack>) {
    forall x :: x in r <==> (x in kids && x !in folded) || HandedUp(kids, folded, children, x)
  }

  /** One of the folded kids has x. */
  ghost predicate HandedUp(kids: set<Stack>, folded: set<Stack>, children: map<Stack, set<Stack>>, x: Stack) {
    exists c :: c in kids && c in folded && c in children && x in children[c]
  }

  lemma PrintedStep(roots: set<Stack>, children: map<Stack, set<Stack>>, s: Stack, t: Stack)
    requires Printed(roots, children, s) && s in children && t in children[s]
    ensures Printed(roots, children, t)
  {
    var p :| IsTrail(children, p) && p[0] in roots && p[|p| - 1] == s;
    assert IsTrail(children, p + [t]);
  }

  /** What a folded call hands on, some call that is still printed has. */
  lemma {:induction false} HandedOn(ids: set<Stack>, folded: set<Stack>, children: map<Stack, set<Stack>>, s: Stack,
                                    x: Stack)
    requires Folds(ids, folded, children) && s in ids && x in children[s]
    ensures Printed(Roots(ids), children, x)
    decreases |s|, 1
  {
    if s in Roots(ids) || s !in folded {
      KeptPrinted(ids, folded, children, s);
      PrintedStep(Roots(ids), children, s, x);
    } else {
      assert s in Kids(ids, Parent(s));
      assert HandedUp(Kids(ids, Parent(s)), folded, children, x);
      assert FoldsTo(Kids(ids, Parent(s)), folded, children, children[Parent(s)]);
      HandedOn(ids, folded, children, Parent(s), x);
    }
  }

  lemma {:induction false} KeptPrinted(ids: set<Stack>, folded: set<Stack>, children: map<Stack, set<Stack>>, s: Stack)
    requires Folds(ids, folded, children) && s in ids && (s in Roots(ids) || s !in folded)
    ensures Printed(Roots(ids), children, s)
    decreases |s|, 0
  {
    if s in Roots(ids) {
      assert IsTrail(children, [s]);
    } else {
      assert s in Kids(ids, Parent(s));
      HandedOn(ids, folded, children, Parent(s), s);
    }
  }

  /** Children are always unfolded calls that some call makes. */
  lemma {:induction false} ChildrenUnfolded(ids: set<Stack>, folded: set<Stack>, children: map<Stack, set<Stack>>,
                                            s: Stack, x: Stack)
    requires Folds(ids, folded, children) && s in ids && x in children[s]
    ensures x in AllKids(ids, ids) && x !in folded
    decreases Longer(ids, |s|)
  {
    assert FoldsTo(Kids(ids, s), folded, children, children[s]);
    if !(x in Kids(ids, s) && x !in folded) {
      var c :| c in Kids(ids, s) && c in folded && c in children && x in children[c];
      LongerShrinks(ids, c, |s|);
      ChildrenUnfolded(ids, folded, children, c, x);
    }
  }

  function Longer(ids: set<Stack>, n: nat): set<Stack> {
    set t | t in ids && |t| > n
  }

  lemma LongerShrinks(ids: set<Stack>, c: Stack, n: nat)
    requires c in ids && |c| > n
    ensures Longer(ids, |c|) < Longer(ids, n)
  {
    assert c in Longer(ids, n) && c !in Longer(ids, |c|);
  }

  /** Printed are exactly the roots and the calls that are not folded. */
  lemma PrintedExactly(ids: set<Stack>, folded: set<Stack>, children: map<Stack, set<Stack>>, s: Stack)
    requires Folds(ids, folded, children)
    ensures Printed(Roots(ids), children, s) <==> s in ids && (s in Roots(ids) || s !in folded)
  {
    if s in ids && (s in Roots(ids) || s !in folded) {
      KeptPrinted(ids, folded, children, s);
    }
    if Printed(Roots(ids), children, s) {
      var p :| IsTrail(children, p) && p[0] in Roots(ids) && p[|p| - 1] == s;
      if |p| > 1 {
        assert p[|p| - 2 + 1] in children[p[|p| - 2]];
        ChildrenUnfolded(ids, folded, children, p[|p| - 2], s);
      }
    }
  }
}
