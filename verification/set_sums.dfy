/** Sums of values over a set of keys. */
module SetSums {

  ghost function Sum<K>(keys: set<K>, m: map<K, real>): real
    requires keys <= m.Keys
  {
    if keys == {} then 0.0
    else
      var k :| k in keys;
      m[k] + Sum(keys - {k}, m)
  }

  /** The sum does not depend on the order in which keys are taken. */
  lemma {:induction false} Take<K>(keys: set<K>, m: map<K, real>, k: K)
    requires keys <= m.Keys && k in keys
    ensures Sum(keys, m) == m[k] + Sum(keys - {k}, m)
    decreases keys
  {
    var j :| j in keys && Sum(keys, m) == m[j] + Sum(keys - {j}, m);
    if j != k {
      Take(keys - {j}, m, k);
      Take(keys - {k}, m, j);
      assert keys - {j} - {k} == keys - {k} - {j};
    }
  }

  lemma {:induction false} Union<K>(a: set<K>, b: set<K>, m: map<K, real>)
    requires a <= m.Keys && b <= m.Keys && a !! b
    ensures Sum(a + b, m) == Sum(a, m) + Sum(b, m)
    decreases a
  {
    if a == {} {
      assert a + b == b;
    } else {
      var k :| k in a;
      Take(a, m, k);
      Take(a + b, m, k);
      assert a + b - {k} == (a - {k}) + b;
      Union(a - {k}, b, m);
    }
  }

  /** Only the values of the keys matter. */
  lemma {:induction false} Agree<K>(keys: set<K>, m: map<K, real>, n: map<K, real>)
    requires keys <= m.Keys && keys <= n.Keys && forall k :: k in keys ==> m[k] == n[k]
    ensures Sum(keys, m) == Sum(keys, n)
    decreases keys
  {
    if keys != {} {
      var k :| k in keys;
      Take(keys, m, k);
      Take(keys, n, k);
      Agree(keys - {k}, m, n);
    }
  }
}
