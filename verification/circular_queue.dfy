/** The ring buffer: one cell is always left free, so that equal indices mean empty. */
module CircularQueue {

  const TWO_32: int := 0x1_0000_0000

  /** Unsigned 32-bit arithmetic. */
  function U32(x: int): nat {
    x % TWO_32
  }

  lemma AtLeast(q: nat, k: nat, m: nat)
    requires q >= k
    ensures q * m >= k * m
  {
    assert (q - k) * m >= 0;
  }

  /** Going once round at most. */
  lemma ModOnce(x: nat, m: nat)
    requires x < 2 * m
    ensures x % m == if x < m then x else x - m
  {
    var q, r := x / m, x % m;
    assert x == q * m + r;
    if q >= 2 {
      AtLeast(q, 2, m);
    } else if q == 1 {
      assert x == m + r;
    } else {
      assert q == 0;
    }
  }

  /** first is where the next element goes, last where the oldest is. */
  datatype Ring<T> = Ring(first: nat, last: nat, cells: seq<T>) {

    ghost predicate Valid() {
      0 < |cells| < TWO_32 && first < |cells| && last < |cells|
    }

    predicate Full()
      requires |cells| > 0
    {
      U32(first + 1) % |cells| == last
    }

    predicate Empty() {
      first == last
    }

    /** The size as the source computes it, in 32 bits. */
    function Size(): nat
      requires |cells| > 0
    {
      U32(first + |cells| - last) % |cells|
    }

    function Push(x: T): Ring<T>
      requires |cells| > 0 && first < |cells|
    {
      Ring(U32(first + 1) % |cells|, last, cells[first := x])
    }

    function Pop(): Ring<T>
      requires |cells| > 0
    {
      Ring(first, U32(last + 1) % |cells|, cells)
    }

    /** What the queue holds, oldest first. */
    ghost function Contents(): (s: seq<T>)
      requires Valid()
      ensures |s| == if first < last then first + |cells| - last else first - last
    {
      if first < last then cells[last..] + cells[..first] else cells[last..first]
    }

    /** One step round the ring. */
    lemma Around(i: nat)
      requires Valid() && i < |cells|
      ensures U32(i + 1) % |cells| == if i + 1 == |cells| then 0 else i + 1
    {
      assert U32(i + 1) == i + 1;
      ModOnce(i + 1, |cells|);
    }

    lemma FullAndEmpty()
      requires Valid()
      ensures Full() <==> |Contents()| == |cells| - 1
      ensures Empty() <==> Contents() == []
    {
      Around(first);
    }

    /** What is pushed goes to the end. */
    lemma PushAppends(x: T)
      requires Valid() && !Full()
      ensures Push(x).Valid() && Push(x).Contents() == Contents() + [x]
    {
      Around(first);
      var after := Push(x);
      if first < last {
        assert after.cells[last..] == cells[last..];
        assert after.cells[..first + 1] == cells[..first] + [x];
      } else if first + 1 == |cells| {
        assert after.cells[last..] == cells[last..first] + [x];
      } else {
        assert after.cells[last..first + 1] == cells[last..first] + [x];
      }
    }

    /** What is popped is the oldest. */
    lemma PopRemovesFirst()
      requires Valid() && !Empty()
      ensures Pop().Valid() && Contents() == [cells[last]] + Pop().Contents()
    {
      Around(last);
      var after := Pop();
      assert after.first == first && after.last == if last + 1 == |cells| then 0 else last + 1;
      hide Pop, U32;
      if last + 1 < |cells| {
        assert cells[last..] == [cells[last]] + cells[last + 1..];
        assert first > last ==> cells[last..first] == [cells[last]] + cells[last + 1..first];
      } else {
        assert cells[last..] == [cells[last]];
        assert cells[0..first] == cells[..first];
      }
    }

    /** Indexing, from the oldest element on, while the sum fits 32 bits. */
    lemma IndexRight(i: nat)
      requires Valid() && i < |Contents()| && last + i < TWO_32
      ensures cells[U32(last + i) % |cells|] == Contents()[i]
    {
      assert U32(last + i) == last + i;
      ModOnce(last + i, |cells|);
    }

    /** The 32-bit sum in size() makes it right exactly when it does not wrap around,
        which takes a buffer of more than 2^31 cells. */
    lemma SizeExact()
      requires Valid()
      ensures Size() == |Contents()| <==> first + |cells| - last < TWO_32
      ensures |cells| <= TWO_32 / 2 ==> first + |cells| - last < TWO_32
    {
      var x := first + |cells| - last;
      if x < TWO_32 {
        assert U32(x) == x;
        ModOnce(x, |cells|);
      } else {
        assert U32(x) == x - TWO_32;
        ModOnce(x - TWO_32, |cells|);
      }
    }
  }

  /** A full ring of 2^31 + 1 cells: the size comes out wrong. */
  lemma SizeWraps()
    ensures var r := Ring(0x8000_0000, 0, seq(0x8000_0001, _ => false));
      r.Valid() && r.Size() != |r.Contents()|
  {
    Ring(0x8000_0000, 0, seq(0x8000_0001, _ => false)).SizeExact();
  }

  class Queue<T(0)> {
    const size: nat
    var first: nat
    var last: nat
    const cells: array<T>

    ghost predicate Valid()
      reads this, cells
    {
      cells.Length == size && State().Valid()
    }

    ghost function State(): Ring<T>
      reads this, cells
    {
      Ring(first, last, cells[..])
    }

    ghost function Contents(): seq<T>
      requires Valid()
      reads this, cells
    {
      State().Contents()
    }

    /** Room for capacity elements takes one cell more; the sum must fit 32 bits. */
    constructor (capacity: nat)
      requires capacity < TWO_32 - 1
      ensures Valid() && Contents() == [] && size == capacity + 1 && fresh(cells)
    {
      size := capacity + 1;
      first, last := 0, 0;
      cells := new T[capacity + 1];
    }

    method Full() returns (full: bool)
      requires Valid()
      ensures full <==> |Contents()| == size - 1
    {
      State().FullAndEmpty();
      full := U32(first + 1) % size == last;
    }

    method Empty() returns (empty: bool)
      requires Valid()
      ensures empty <==> Contents() == []
    {
      State().FullAndEmpty();
      empty := first == last;
    }

    method Push(x: T)
      requires Valid() && |Contents()| < size - 1
      modifies `first, cells
      ensures Valid() && State() == old(State()).Push(x)
      ensures Contents() == old(Contents()) + [x]
    {
      State().FullAndEmpty();
      State().PushAppends(x);
      cells[first] := x;
      first := U32(first + 1) % size;
      assert cells[..] == old(cells[..])[old(first) := x];
    }

    method Pop() returns (x: T)
      requires Valid() && Contents() != []
      modifies `last
      ensures Valid() && State() == old(State()).Pop()
      ensures old(Contents()) == [x] + Contents()
    {
      State().PopRemovesFirst();
      var i := last;
      last := U32(last + 1) % size;
      x := cells[i];
    }

    /** When there is no room the oldest element makes some. */
    method PushCircular(x: T)
      requires Valid() && size > 1
      modifies `first, `last, cells
      ensures Valid()
      ensures Contents() ==
        (if |old(Contents())| == size - 1 then old(Contents())[1..] else old(Contents())) + [x]
    {
      var full := Full();
      if full {
        var _ := Pop();
      }
      Push(x);
    }

    method Front() returns (x: T)
      requires Valid() && Contents() != []
      ensures x == Contents()[0]
    {
      State().PopRemovesFirst();
      x := cells[last];
    }

    method Back() returns (x: T)
      requires Valid() && Contents() != []
      requires first + size - 1 < TWO_32
      ensures x == Contents()[|Contents()| - 1]
    {
      assert U32(first + size - 1) == first + size - 1;
      ModOnce(first + size - 1, size);
      x := cells[U32(first + size - 1) % size];
    }

    method Size() returns (n: nat)
      requires Valid()
      ensures n == |Contents()| <==> first + size - last < TWO_32
    {
      State().SizeExact();
      n := U32(first + size - last) % size;
    }

    method At(i: nat) returns (x: T)
      requires Valid() && i < |Contents()| && last + i < TWO_32
      ensures x == Contents()[i]
    {
      State().IndexRight(i);
      x := cells[U32(last + i) % size];
    }
  }
}
