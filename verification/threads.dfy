/** Counting threads by what they are doing. */
module Threads {

  function One(b: bool): nat {
    if b then 1 else 0
  }

  /** How many threads are in a state that satisfies p. */
  function Count<T>(s: seq<T>, p: T -> bool): (n: nat)
    ensures n <= |s|
  {
    if s == [] then 0 else One(p(s[0])) + Count(s[1..], p)
  }

  lemma {:induction false} CountUpdate<T>(s: seq<T>, i: nat, x: T, p: T -> bool)
    requires i < |s|
    ensures Count(s[i := x], p) + One(p(s[i])) == Count(s, p) + One(p(x))
  {
    if i == 0 {
      assert s[i := x][1..] == s[1..];
    } else {
      assert s[i := x][1..] == s[1..][i - 1 := x];
      CountUpdate(s[1..], i - 1, x, p);
    }
  }

  /** A count below the number of threads leaves some thread out. */
  lemma {:induction false} SomeOutside<T>(s: seq<T>, p: T -> bool) returns (i: nat)
    requires Count(s, p) < |s|
    ensures i < |s| && !p(s[i])
  {
    if !p(s[0]) {
      i := 0;
    } else {
      i := SomeOutside(s[1..], p);
      i := i + 1;
    }
  }

  lemma {:induction false} SomeInside<T>(s: seq<T>, p: T -> bool) returns (i: nat)
    requires Count(s, p) > 0
    ensures i < |s| && p(s[i])
  {
    if p(s[0]) {
      i := 0;
    } else {
      i := SomeInside(s[1..], p);
      i := i + 1;
    }
  }

  lemma {:induction false} CountAtLeast<T>(s: seq<T>, i: nat, p: T -> bool)
    requires i < |s| && p(s[i])
    ensures Count(s, p) >= 1
  {
    if i > 0 {
      CountAtLeast(s[1..], i - 1, p);
    }
  }

  /** Two different threads count twice. */
  lemma {:induction false} CountTwo<T>(s: seq<T>, i: nat, j: nat, p: T -> bool)
    requires i < j < |s| && p(s[i]) && p(s[j])
    ensures Count(s, p) >= 2
  {
    if i == 0 {
      CountAtLeast(s[1..], j - 1, p);
    } else {
      CountTwo(s[1..], i - 1, j - 1, p);
    }
  }

  /** When all threads but i are counted and i is not, no other is left out. */
  lemma {:induction false} AllButOne<T>(s: seq<T>, i: nat, p: T -> bool)
    requires i < |s| && !p(s[i]) && Count(s, p) == |s| - 1
    ensures forall j :: 0 <= j < |s| && j != i ==> p(s[j])
  {
    forall j | 0 <= j < |s| && j != i
      ensures p(s[j])
    {
      if !p(s[j]) {
        var not := x => !p(x);
        if i < j {
          CountTwo(s, i, j, not);
        } else {
          CountTwo(s, j, i, not);
        }
        CountBoth(s, p);
      }
    }
  }

  lemma {:induction false} CountBoth<T>(s: seq<T>, p: T -> bool)
    ensures Count(s, p) + Count(s, x => !p(x)) == |s|
  {
    if s != [] {
      CountBoth(s[1..], p);
    }
  }

  /** The same count when the states change only among those that p does not tell apart. */
  lemma {:induction false} CountSame<T>(s: seq<T>, t: seq<T>, p: T -> bool)
    requires |s| == |t| && forall i :: 0 <= i < |s| ==> p(s[i]) == p(t[i])
    ensures Count(s, p) == Count(t, p)
  {
    if s != [] {
      CountSame(s[1..], t[1..], p);
    }
  }

  /** Two properties that the states have alike count alike. */
  lemma {:induction false} CountAlike<T>(s: seq<T>, p: T -> bool, q: T -> bool)
    requires forall i :: 0 <= i < |s| ==> p(s[i]) == q(s[i])
    ensures Count(s, p) == Count(s, q)
  {
    if s != [] {
      CountAlike(s[1..], p, q);
    }
  }

  lemma {:induction false} CountFewer<T>(s: seq<T>, t: seq<T>, p: T -> bool)
    requires |s| == |t| && forall i :: 0 <= i < |s| && p(t[i]) ==> p(s[i])
    ensures Count(t, p) <= Count(s, p)
  {
    if s != [] {
      CountFewer(s[1..], t[1..], p);
    }
  }

  lemma {:induction false} CountAll<T>(s: seq<T>, p: T -> bool)
    requires forall i :: 0 <= i < |s| ==> p(s[i])
    ensures Count(s, p) == |s|
  {
    if s != [] {
      CountAll(s[1..], p);
    }
  }

  lemma {:induction false} CountAllBut<T>(s: seq<T>, i: nat, p: T -> bool)
    requires i < |s| && !p(s[i]) && forall j :: 0 <= j < |s| && j != i ==> p(s[j])
    ensures Count(s, p) == |s| - 1
  {
    if i == 0 {
      CountAll(s[1..], p);
    } else {
      CountAllBut(s[1..], i - 1, p);
    }
  }

  lemma {:induction false} CountNone<T>(s: seq<T>, p: T -> bool)
    requires forall i :: 0 <= i < |s| ==> !p(s[i])
    ensures Count(s, p) == 0
  {
    if s != [] {
      CountNone(s[1..], p);
    }
  }
}
