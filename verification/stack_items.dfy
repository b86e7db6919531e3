/** Merging the values of a stack into the items that are shown: what is too small goes
    into one other entry. */
module StackItems {
  import opened SetSums

  /** A component takes the values of its keys, a group is a stack of its own. */
  datatype Item =
    | Component(name: string, threshold: real, keys: seq<string>)
    | Group(name: string, threshold: real, items: seq<Item>)

  datatype Entry = Entry(name: string, value: real)

  type Values = map<string, real>

  function KeysOf(items: seq<Item>): set<string> {
    if items == [] then {} else KeysOf(items[..|items| - 1]) + KeysOfItem(items[|items| - 1])
  }

  function KeysOfItem(item: Item): set<string> {
    match item
    case Component(_, _, keys) => set k | k in keys
    case Group(_, _, inner) => KeysOf(inner)
  }

  function Listed(entries: seq<Entry>): real {
    if entries == [] then 0.0 else Listed(entries[..|entries| - 1]) + entries[|entries| - 1].value
  }

  ghost function Total(values: Values): real {
    Sum(values.Keys, values)
  }

  /** What the keys named in items have, a key named several times once. */
  ghost function Share(items: seq<Item>, values: Values): real {
    Sum(values.Keys * KeysOf(items), values)
  }

  /** The names of all components, in order. */
  function Names(items: seq<Item>, prefix: string): seq<string> {
    if items == [] then [] else Names(items[..|items| - 1], prefix) + NamesOfItem(items[|items| - 1], prefix)
  }

  function NamesOfItem(item: Item, prefix: string): seq<string> {
    match item
    case Component(name, _, _) => [prefix + name]
    case Group(name, _, inner) => Names(inner, prefix + name + "-")
  }

  function NamesOf(entries: seq<Entry>): seq<string> {
    seq(|entries|, i requires 0 <= i < |entries| => entries[i].name)
  }

  /** What an item takes of the values that are left. */
  ghost function Worth(item: Item, values: Values): real {
    Sum(values.Keys * KeysOfItem(item), values)
  }

  ghost predicate Above(item: Item, scale: real, values: Values)
    requires scale != 0.0
  {
    Worth(item, values) / scale > item.threshold
  }

  /** What the first n items leave. */
  function Left(items: seq<Item>, n: nat, values: Values): Values
    requires n <= |items|
  {
    values - KeysOf(items[..n])
  }

  ghost predicate NoneAbove(items: seq<Item>, scale: real, values: Values)
    requires scale != 0.0
  {
    forall i :: 0 <= i < |items| ==> !Above(items[i], scale, Left(items, i, values))
  }

  /** The entry is due when small items are merged: it is that of a component above its
      threshold, or of a group with nothing above in it, and all groups around are above
      their thresholds. */
  ghost predicate Due(items: seq<Item>, prefix: string, scale: real, values: Values, e: Entry)
    requires scale != 0.0
  {
    exists i :: 0 <= i < |items| && DueBy(items[i], prefix, scale, Left(items, i, values), e)
  }

  ghost predicate DueBy(item: Item, prefix: string, scale: real, values: Values, e: Entry)
    requires scale != 0.0
  {
    && Above(item, scale, values)
    && (if item.Group? && !NoneAbove(item.items, scale, values) then
          Due(item.items, prefix + item.name + "-", scale, values, e)
        else e == Entry(prefix + item.name, Worth(item, values)))
  }

  /** Listed are the entries that are due. */
  ghost predicate ListsDue(items: seq<Item>, prefix: string, scale: real, values: Values, res: seq<Entry>)
    requires scale != 0.0
  {
    (forall e :: e in res <==> Due(items, prefix, scale, values, e)) && (res == [] <==> NoneAbove(items, scale, values))
  }

  ghost predicate ListsDueBy(item: Item, prefix: string, scale: real, values: Values, res: seq<Entry>)
    requires scale != 0.0
  {
    (forall e :: e in res <==> DueBy(item, prefix, scale, values, e)) && (res == [] <==> !Above(item, scale, values))
  }

  lemma LeftStays(items: seq<Item>, n: nat, i: nat, values: Values)
    requires i < n <= |items|
    ensures items[..n][i] == items[i] && Left(items[..n], i, values) == Left(items, i, values)
  {
    assert items[..n][..i] == items[..i];
  }

  lemma DueStays(items: seq<Item>, n: nat, prefix: string, scale: real, values: Values, e: Entry)
    requires n < |items| && scale != 0.0
    ensures Due(items[..n + 1], prefix, scale, values, e)
       <==> Due(items[..n], prefix, scale, values, e) || DueBy(items[n], prefix, scale, Left(items, n, values), e)
  {
    hide DueBy, Left;
    forall i: nat | i <= n
      ensures items[..n + 1][i] == items[i] && Left(items[..n + 1], i, values) == Left(items, i, values)
      ensures i < n ==> items[..n][i] == items[i] && Left(items[..n], i, values) == Left(items, i, values)
    {
      LeftStays(items, n + 1, i, values);
      if i < n {
        LeftStays(items, n, i, values);
      }
    }
    if Due(items[..n], prefix, scale, values, e) {
      var i :| 0 <= i < n && DueBy(items[..n][i], prefix, scale, Left(items[..n], i, values), e);
      assert DueBy(items[..n + 1][i], prefix, scale, Left(items[..n + 1], i, values), e);
    }
    if DueBy(items[n], prefix, scale, Left(items, n, values), e) {
      assert DueBy(items[..n + 1][n], prefix, scale, Left(items[..n + 1], n, values), e);
    }
    if Due(items[..n + 1], prefix, scale, values, e) {
      var i :| 0 <= i < n + 1 && DueBy(items[..n + 1][i], prefix, scale, Left(items[..n + 1], i, values), e);
      assert i < n ==> DueBy(items[..n][i], prefix, scale, Left(items[..n], i, values), e);
    }
  }

  lemma NoneAboveStays(items: seq<Item>, n: nat, scale: real, values: Values)
    requires n < |items| && scale != 0.0
    ensures NoneAbove(items[..n + 1], scale, values)
       <==> NoneAbove(items[..n], scale, values) && !Above(items[n], scale, Left(items, n, values))
  {
    hide Above, Left;
    forall i: nat | i <= n
      ensures items[..n + 1][i] == items[i] && Left(items[..n + 1], i, values) == Left(items, i, values)
      ensures i < n ==> items[..n][i] == items[i] && Left(items[..n], i, values) == Left(items, i, values)
    {
      LeftStays(items, n + 1, i, values);
      if i < n {
        LeftStays(items, n, i, values);
      }
    }
    if NoneAbove(items[..n + 1], scale, values) {
      forall i | 0 <= i < n
        ensures !Above(items[..n][i], scale, Left(items[..n], i, values))
      {
        assert !Above(items[..n + 1][i], scale, Left(items[..n + 1], i, values));
      }
      assert !Above(items[..n + 1][n], scale, Left(items[..n + 1], n, values));
    }
  }

  lemma ListsMore(items: seq<Item>, n: nat, prefix: string, scale: real, values: Values, res: seq<Entry>,
                  more: seq<Entry>)
    requires n < |items| && scale != 0.0 && ListsDue(items[..n], prefix, scale, values, res)
    requires ListsDueBy(items[n], prefix, scale, Left(items, n, values), more)
    ensures ListsDue(items[..n + 1], prefix, scale, values, res + more)
  {
    hide Due, DueBy, NoneAbove, Above, Left;
    NoneAboveStays(items, n, scale, values);
    forall e
      ensures e in res + more <==> Due(items[..n + 1], prefix, scale, values, e)
    {
      DueStays(items, n, prefix, scale, values, e);
    }
  }

  /** The entries in the order of the tree, each item once: all components, or what is due. */
  ghost function Listing(items: seq<Item>, prefix: string, scale: real, all: bool, values: Values): seq<Entry>
    requires scale != 0.0
  {
    if items == [] then []
    else
      var n := |items| - 1;
      Listing(items[..n], prefix, scale, all, values) + ListingOf(items[n], prefix, scale, all, Left(items, n, values))
  }

  ghost function ListingOf(item: Item, prefix: string, scale: real, all: bool, values: Values): seq<Entry>
    requires scale != 0.0
  {
    if !all && !Above(item, scale, values) then []
    else if item.Group? && (all || !NoneAbove(item.items, scale, values)) then
      Listing(item.items, prefix + item.name + "-", scale, all, values)
    else [Entry(prefix + item.name, Worth(item, values))]
  }

  /** With small items merged, listed is exactly what is due. */
  lemma {:induction false} ListingDue(items: seq<Item>, prefix: string, scale: real, values: Values)
    requires scale != 0.0
    ensures ListsDue(items, prefix, scale, values, Listing(items, prefix, scale, false, values))
  {
    if items == [] {
      NothingListed(prefix, scale, values);
    } else {
      var n := |items| - 1;
      ListingDue(items[..n], prefix, scale, values);
      ListingDueBy(items[n], prefix, scale, Left(items, n, values));
      hide ListsDue, ListsDueBy;
      ListsMore(items, n, prefix, scale, values, Listing(items[..n], prefix, scale, false, values),
                ListingOf(items[n], prefix, scale, false, Left(items, n, values)));
      assert items[..n + 1] == items;
    }
  }

  lemma {:induction false} ListingDueBy(item: Item, prefix: string, scale: real, values: Values)
    requires scale != 0.0
    ensures ListsDueBy(item, prefix, scale, values, ListingOf(item, prefix, scale, false, values))
  {
    hide Above;
    if item.Group? {
      ListingDue(item.items, prefix + item.name + "-", scale, values);
      hide NoneAbove;
    }
  }

  /** Without merging all components are listed, in order. */
  lemma {:induction false} ListingNames(items: seq<Item>, prefix: string, scale: real, values: Values)
    requires scale != 0.0
    ensures NamesOf(Listing(items, prefix, scale, true, values)) == Names(items, prefix)
  {
    if items != [] {
      var n := |items| - 1;
      ListingNames(items[..n], prefix, scale, values);
      ListingNamesOf(items[n], prefix, scale, Left(items, n, values));
    }
  }

  lemma {:induction false} ListingNamesOf(item: Item, prefix: string, scale: real, values: Values)
    requires scale != 0.0
    ensures NamesOf(ListingOf(item, prefix, scale, true, values)) == NamesOfItem(item, prefix)
  {
    if item.Group? {
      ListingNames(item.items, prefix + item.name + "-", scale, values);
    }
  }

  lemma OneItemMore(items: seq<Item>, n: nat, prefix: string, scale: real, all: bool, values: Values)
    requires n < |items| && scale != 0.0
    ensures KeysOf(items[..n + 1]) == KeysOf(items[..n]) + KeysOfItem(items[n])
    ensures values - KeysOf(items[..n + 1]) == Left(items, n, values) - KeysOfItem(items[n])
    ensures Listing(items[..n + 1], prefix, scale, all, values)
         == Listing(items[..n], prefix, scale, all, values)
         + ListingOf(items[n], prefix, scale, all, Left(items, n, values))
  {
    hide KeysOfItem, ListingOf;
    assert items[..n + 1][..n] == items[..n] && items[..n + 1][n] == items[n];
  }

  lemma NothingListed(prefix: string, scale: real, values: Values)
    requires scale != 0.0
    ensures ListsDue([], prefix, scale, values, [])
  {
  }

  lemma {:induction false} ListedJoin(a: seq<Entry>, b: seq<Entry>)
    ensures Listed(a + b) == Listed(a) + Listed(b)
  {
    if b == [] {
      assert a + b == a;
    } else {
      ListedJoin(a, b[..|b| - 1]);
      assert (a + b)[..|a + b| - 1] == a + b[..|b| - 1];
    }
  }

  lemma TotalTake(values: Values, k: string)
    requires k in values
    ensures Total(values) == values[k] + Total(values - {k})
  {
    Take(values.Keys, values, k);
    assert (values - {k}).Keys == values.Keys - {k};
    Agree(values.Keys - {k}, values, values - {k});
  }

  lemma Removed(values: Values, keys: set<string>)
    ensures Total(values) == Sum(values.Keys * keys, values) + Total(values - keys)
  {
    var gone, left := values.Keys * keys, values.Keys - keys;
    assert gone + left == values.Keys && (values - keys).Keys == left;
    Union(gone, left, values);
    Agree(left, values, values - keys);
  }

  datatype Merged = Merged(res: seq<Entry>, total: real, other: real, scale: real)

  /** What merging promises of the values of one core. */
  ghost predicate Conserves(values: Values, items: seq<Item>, nocollapse: bool, r: Merged) {
    && r.scale == (if Total(values) == 0.0 then 1.0 else Total(values))
    && Listed(r.res) == Total(values)
    && r.total == Share(items, values)
    && (r.other != 0.0 ==> r.res != [] && r.res[|r.res| - 1] == Entry("other", r.other))
    && var shown := if r.other != 0.0 then r.res[..|r.res| - 1] else r.res;
      shown == Listing(items, "", r.scale, nocollapse, values)
  }

  class Merger {
    var values: Values

    constructor (values: Values)
      ensures this.values == values
    {
      this.values := values;
    }

    method GetItems(prefix: string, items: seq<Item>, scale: real, nocollapse: bool)
      returns (res: seq<Entry>, total: real, other: real)
      requires scale != 0.0
      modifies this`values
      ensures values == old(values) - KeysOf(items)
      ensures Listed(res) + other == total && Total(old(values)) == total + Total(values)
      ensures res == Listing(items, prefix, scale, nocollapse, old(values)) && (nocollapse ==> other == 0.0)
      decreases items, 1
    {
      res, total, other := [], 0.0, 0.0;
      for n := 0 to |items|
        invariant values == old(values) - KeysOf(items[..n])
        invariant Listed(res) + other == total && Total(old(values)) == total + Total(values)
        invariant res == Listing(items[..n], prefix, scale, nocollapse, old(values)) && (nocollapse ==> other == 0.0)
      {
        OneItemMore(items, n, prefix, scale, nocollapse, old(values));
        hide Listed, KeysOf, KeysOfItem, Listing, ListingOf, Total;
        var more, value, rest := GetItem(prefix, items[n], scale, nocollapse);
        ListedJoin(res, more);
        res := res + more;
        total := total + value;
        other := other + rest;
      }
      assert items[..|items|] == items;
    }

    /** The body of the loop over the items. */
    method GetItem(prefix: string, item: Item, scale: real, nocollapse: bool)
      returns (res: seq<Entry>, total: real, other: real)
      requires scale != 0.0
      modifies this`values
      ensures values == old(values) - KeysOfItem(item)
      ensures Listed(res) + other == total && Total(old(values)) == total + Total(values)
      ensures res == ListingOf(item, prefix, scale, nocollapse, old(values)) && (nocollapse ==> other == 0.0)
      decreases item, 0
    {
      match item
      case Group(name, threshold, inner) =>
        res, total, other := GetItems(prefix + name + "-", inner, scale, nocollapse);
        Removed(old(values), KeysOfItem(item));
        ListingDue(inner, prefix + name + "-", scale, old(values));
        if total / scale <= threshold && !nocollapse {
          res, other := [], total;
        } else if res == [] && !nocollapse {
          res, other := [Entry(prefix + name, total)], 0.0;
        }
      case Component(name, threshold, keys) =>
        total := TakeKeys(keys);
        Removed(old(values), KeysOfItem(item));
        if total / scale <= threshold && !nocollapse {
          res, other := [], total;
        } else {
          res, other := [Entry(prefix + name, total)], 0.0;
        }
    }

    /** The values of the keys still there, which are then gone. */
    method TakeKeys(keys: seq<string>) returns (value: real)
      modifies this`values
      ensures values == old(values) - set k | k in keys
      ensures Total(old(values)) == value + Total(values)
    {
      value := 0.0;
      for i := 0 to |keys|
        invariant values == old(values) - set k | k in keys[..i]
        invariant Total(old(values)) == value + Total(values)
      {
        var key := keys[i];
        assert keys[..i + 1] == keys[..i] + [key];
        if key in values {
          TotalTake(values, key);
          value := value + values[key];
          values := values - {key};
        }
      }
      assert keys[..|keys|] == keys;
    }

    method SumValues() returns (sum: real)
      ensures sum == Total(values)
    {
      sum := 0.0;
      var rest := values.Keys;
      while rest != {}
        invariant rest <= values.Keys
        invariant sum + Sum(rest, values) == Total(values)
        decreases rest
      {
        var k :| k in rest;
        Take(rest, values, k);
        sum := sum + values[k];
        rest := rest - {k};
      }
    }
  }

  method MergeValues(values: Values, items: seq<Item>, nocollapse: bool) returns (r: Merged)
    ensures Conserves(values, items, nocollapse, r)
  {
    var merger := new Merger(values);
    var scale := merger.SumValues();
    if scale == 0.0 {
      scale := 1.0;
    }
    var res, total, other := merger.GetItems("", items, scale, nocollapse);
    Removed(values, KeysOf(items));
    var left := merger.SumValues();
    other := other + left;
    if other != 0.0 {
      ListedJoin(res, [Entry("other", other)]);
      assert (res + [Entry("other", other)])[..|res|] == res;
      res := res + [Entry("other", other)];
    }
    r := Merged(res, total, other, scale);
  }

  /** For every core the entries listed, the one for all others included, add up to the
      values given, each key counted once. */
  method MergeItems(data: map<string, Values>, items: seq<Item>, nocollapse: bool)
    returns (results: map<string, Merged>)
    ensures results.Keys == data.Keys
    ensures forall core :: core in data ==> Conserves(data[core], items, nocollapse, results[core])
  {
    results := map[];
    var rest := data.Keys;
    while rest != {}
      invariant rest <= data.Keys && results.Keys == data.Keys - rest
      invariant forall core :: core in results ==> Conserves(data[core], items, nocollapse, results[core])
      decreases rest
    {
      var core :| core in rest;
      rest := rest - {core};
      var r := MergeValues(data[core], items, nocollapse);
      results := results[core := r];
    }
  }
}
