/** A bit vector of 64-bit words that remembers the last set bit it has found. */
module BitVectors {
  import opened Threads

  /** A machine word is the sequence of its bits, the lowest first. */
  type Bits = seq<bool>

  // What finding means, on the bits of all words in a row.

  /** r is the first set bit after last, or -1 when there is none. */
  predicate IsNext(bits: Bits, last: int, r: int) {
    if r == -1 then forall p :: last < p < |bits| && 0 <= p ==> !bits[p]
    else last < r < |bits| && 0 <= r && bits[r] && forall p :: last < p < r && 0 <= p ==> !bits[p]
  }

  /** The set bits from position start on, in ascending order. */
  function SetBits(bits: Bits, start: nat): seq<int>
    requires start <= |bits|
    decreases |bits| - start
  {
    if start == |bits| then [] else (if bits[start] then [start] else []) + SetBits(bits, start + 1)
  }

  lemma {:induction false} SetBitsAre(bits: Bits, start: nat)
    requires start <= |bits|
    ensures forall p :: p in SetBits(bits, start) <==> start <= p < |bits| && bits[p]
    ensures forall i, j :: 0 <= i < j < |SetBits(bits, start)| ==> SetBits(bits, start)[i] < SetBits(bits, start)[j]
    decreases |bits| - start
  {
    if start < |bits| {
      SetBitsAre(bits, start + 1);
      var more := SetBits(bits, start + 1);
      assert forall j :: 0 <= j < |more| ==> more[j] in more;
    }
  }

  /** What calls return when the last bit found was last and no bit changes. */
  ghost predicate Finds(bits: Bits, last: int, results: seq<int>)
    decreases |results|
  {
    results != [] ==> IsNext(bits, last, results[0]) && Finds(bits, results[0], results[1..])
  }

  lemma {:induction false} NextIsFirst(bits: Bits, last: int, r: int)
    requires -1 <= last < |bits| && IsNext(bits, last, r)
    ensures var rest := SetBits(bits, last + 1);
      if r == -1 then rest == [] else last < r < |bits| && rest == [r] + SetBits(bits, r + 1)
    decreases |bits| - last
  {
    if r != last + 1 && last + 1 < |bits| {
      assert !bits[last + 1];
      assert IsNext(bits, last + 1, r);
      NextIsFirst(bits, last + 1, r);
    }
  }

  /** From the start, the calls list every set bit once, in ascending order, then
      return -1 and start over. */
  lemma {:induction false} FindsAll(bits: Bits, last: int, results: seq<int>)
    requires -1 <= last < |bits| && Finds(bits, last, results)
    ensures var rest := SetBits(bits, last + 1);
      if |results| <= |rest| then results == rest[..|results|]
      else results[..|rest|] == rest && results[|rest|] == -1 && Finds(bits, -1, results[|rest| + 1..])
    decreases |results|
  {
    if results != [] {
      var rest, r := SetBits(bits, last + 1), results[0];
      NextIsFirst(bits, last, r);
      if r != -1 {
        FindsAll(bits, r, results[1..]);
        hide Finds, IsNext, SetBits;
        FirstAndMore(results, rest, SetBits(bits, r + 1));
      }
    }
  }

  lemma FirstAndMore(results: seq<int>, rest: seq<int>, more: seq<int>)
    requires results != [] && rest == [results[0]] + more
    ensures |results| > |rest| ==> results[1..][|more| + 1..] == results[|rest| + 1..]
    ensures |results| > |rest| && results[1..][..|more|] == more ==> results[..|rest|] == rest
    ensures |results| <= |rest| && results[1..] == more[..|results| - 1] ==> results == rest[..|results|]
  {
    assert results == [results[0]] + results[1..];
  }

  // The words.

  predicate IsZero(w: Bits) {
    forall p :: 0 <= p < |w| ==> !w[p]
  }

  /** The bits of all words in a row. */
  function Row(words: seq<Bits>): (r: Bits)
    requires forall i :: 0 <= i < |words| ==> |words[i]| == 64
    ensures |r| == 64 * |words|
    ensures forall p :: 0 <= p < |r| ==> r[p] == words[p / 64][p % 64]
  {
    seq(64 * |words|, p requires 0 <= p < 64 * |words| => words[p / 64][p % 64])
  }

  lemma RowUpdate(words: seq<Bits>, i: nat, s: nat, b: bool)
    requires forall k :: 0 <= k < |words| ==> |words[k]| == 64
    requires i < |words| && s < 64
    ensures Row(words[i := words[i][s := b]]) == Row(words)[64 * i + s := b]
  {
    var row, row' := Row(words), Row(words[i := words[i][s := b]]);
    assert forall p :: 0 <= p < |row| && p / 64 == i && p % 64 == s ==> p == 64 * i + s;
    assert forall p :: 0 <= p < |row| ==> row'[p] == if p == 64 * i + s then b else row[p];
  }

  lemma RowWord(words: seq<Bits>, i: nat)
    requires forall k :: 0 <= k < |words| ==> |words[k]| == 64
    requires i < |words|
    ensures 64 * i + 64 <= |Row(words)| && Row(words)[64 * i..64 * i + 64] == words[i]
  {
    var row := Row(words);
    forall p | 64 * i <= p < 64 * i + 64
      ensures row[p] == words[i][p - 64 * i]
    {
      assert p / 64 == i && p % 64 == p - 64 * i;
    }
  }

  /** No set bit lies between last and upTo. */
  predicate NoneBefore(bits: Bits, last: int, upTo: int) {
    forall p :: last < p < upTo && 0 <= p < |bits| ==> !bits[p]
  }

  /** The part of a row of bits that starts at base. */
  predicate IsPart(row: Bits, base: nat, part: Bits, width: nat) {
    |part| == width && base + width <= |row| && row[base..base + width] == part
  }

  /** What the search of a part has to say. */
  predicate Searched(row: Bits, last: int, upTo: int, r: int) {
    if r == -1 then NoneBefore(row, last, upTo) else IsNext(row, last, r)
  }

  lemma ZeroPart(row: Bits, last: int, base: nat, part: Bits, width: nat)
    requires IsPart(row, base, part, width) && IsZero(part) && NoneBefore(row, last, base)
    ensures NoneBefore(row, last, base + width)
  {
    forall p | last < p < base + width && 0 <= p < |row|
      ensures !row[p]
    {
      if p >= base {
        assert row[p] == part[p - base];
      }
    }
  }

  lemma SplitPart(row: Bits, base: nat, part: Bits, half: nat)
    requires IsPart(row, base, part, 2 * half)
    ensures IsPart(row, base, part[..half], half) && IsPart(row, base + half, part[half..], half)
  {
  }

  function NumSet(bits: Bits): nat {
    Count(bits, b => b)
  }

  class BitVector {
    const capacity: nat
    const words: array<Bits>
    var size: nat
    var lastPos: int

    ghost predicate Valid()
      reads this, words
    {
      && words.Length == (capacity + 63) / 64
      && (forall i :: 0 <= i < words.Length ==> |words[i]| == 64)
      && size == NumSet(Row(words[..]))
      && (forall p :: capacity <= p < 64 * words.Length ==> !Row(words[..])[p])
      && -1 <= lastPos < capacity
    }

    /** The bits up to the capacity. */
    ghost function Contents(): (r: Bits)
      requires Valid()
      reads this, words
      ensures |r| == capacity
    {
      Row(words[..])[..capacity]
    }

    /** The size is the number of set bits, and no position is set beyond the capacity. */
    lemma SizeExact()
      requires Valid()
      ensures size == NumSet(Contents())
    {
      var row := Row(words[..]);
      assert row == row[..capacity] + row[capacity..];
      NumSetJoin(row[..capacity], row[capacity..]);
      NoneSet(row[capacity..]);
    }

    constructor (bits: nat)
      ensures Valid() && fresh(words) && capacity == bits && lastPos == -1
      ensures Contents() == seq(bits, _ => false)
    {
      capacity, size, lastPos := bits, 0, -1;
      words := new Bits[(bits + 63) / 64](_ => seq(64, _ => false));
      new;
      assert forall i :: 0 <= i < words.Length ==> words[..][i] == words[i];
      NoneSet(Row(words[..]));
    }

    method At(bit: nat) returns (isSet: bool)
      requires Valid() && bit < capacity
      ensures isSet == Contents()[bit]
    {
      var index, shift := bit / 64, bit % 64;
      isSet := words[index][shift];
    }

    method Set(bit: nat)
      requires Valid() && bit < capacity
      modifies this`size, words
      ensures Valid() && lastPos == old(lastPos)
      ensures Contents() == old(Contents())[bit := true]
    {
      var index, shift := bit / 64, bit % 64;
      var was := At(bit);
      ghost var before := words[..];
      if !was {
        words[index] := words[index][shift := true];
        RowUpdate(before, index, shift, true);
        assert words[..] == before[index := before[index][shift := true]];
        CountUpdate(Row(before), bit, true, b => b);
        size := size + 1;
      } else {
        assert Row(before)[bit := true] == Row(before);
      }
    }

    method Clear(bit: nat)
      requires Valid() && bit < capacity
      modifies this`size, words
      ensures Valid() && lastPos == old(lastPos)
      ensures Contents() == old(Contents())[bit := false]
    {
      var index, shift := bit / 64, bit % 64;
      var was := At(bit);
      ghost var before := words[..];
      if was {
        words[index] := words[index][shift := false];
        RowUpdate(before, index, shift, false);
        assert words[..] == before[index := before[index][shift := false]];
        CountUpdate(Row(before), bit, false, b => b);
        size := size - 1;
      } else {
        assert Row(before)[bit := false] == Row(before);
      }
    }

    method Reset()
      requires Valid()
      modifies this, words
      ensures Valid() && lastPos == -1
      ensures Contents() == seq(capacity, _ => false)
    {
      for i := 0 to words.Length
        invariant forall k :: 0 <= k < words.Length ==> |words[k]| == 64
        invariant forall k :: 0 <= k < i ==> IsZero(words[k])
      {
        words[i] := seq(64, _ => false);
      }
      size := 0;
      lastPos := -1;
      NoneSet(Row(words[..]));
    }

    method ResetFind() returns (done: bool)
      requires Valid()
      modifies this`lastPos
      ensures Valid() && lastPos == -1 && done && Contents() == old(Contents())
    {
      lastPos := -1;
      done := true;
    }

    /** The first set bit after the last one found, wherever bits were set or cleared
        in between; -1 when there is none, and then the search starts over. */
    method Find() returns (r: int)
      requires Valid()
      modifies this`lastPos
      ensures Valid() && lastPos == r && Contents() == old(Contents())
      ensures IsNext(Contents(), old(lastPos), r)
    {
      var windex := if lastPos == -1 then 0 else lastPos / 64;
      var wordCount := (capacity + 63) / 64;
      ghost var row := Row(words[..]);
      while windex < wordCount
        invariant lastPos == old(lastPos) && 0 <= windex
        invariant NoneBefore(row, lastPos, 64 * windex)
      {
        RowWord(words[..], windex);
        var pos := FindInWord(row, words[windex], 64 * windex, lastPos);
        if pos != -1 {
          lastPos := pos;
          return pos;
        }
        windex := windex + 1;
      }
      lastPos := -1;
      r := -1;
    }

    static method FindInWord(ghost row: Bits, word64: Bits, base: nat, last: int) returns (r: int)
      requires IsPart(row, base, word64, 64) && -1 <= last && NoneBefore(row, last, base)
      ensures Searched(row, last, base + 64, r)
    {
      r := -1;
      if IsZero(word64) {
        ZeroPart(row, last, base, word64, 64);
        return;
      }
      var words32 := [word64[..32], word64[32..]];
      SplitPart(row, base, word64, 32);
      for i := 0 to 2
        invariant NoneBefore(row, last, base + 32 * i)
      {
        r := FindInWord32(row, words32[i], base + 32 * i, last);
        if r != -1 {
          return;
        }
      }
    }

    static method FindInWord32(ghost row: Bits, word32: Bits, base: nat, last: int) returns (r: int)
      requires IsPart(row, base, word32, 32) && -1 <= last && NoneBefore(row, last, base)
      ensures Searched(row, last, base + 32, r)
    {
      r := -1;
      if IsZero(word32) {
        ZeroPart(row, last, base, word32, 32);
        return;
      }
      var words16 := [word32[..16], word32[16..]];
      SplitPart(row, base, word32, 16);
      for j := 0 to 2
        invariant NoneBefore(row, last, base + 16 * j)
      {
        r := FindInWord16(row, words16[j], base + 16 * j, last);
        if r != -1 {
          return;
        }
      }
    }

    static method FindInWord16(ghost row: Bits, word16: Bits, base: nat, last: int) returns (r: int)
      requires IsPart(row, base, word16, 16) && -1 <= last && NoneBefore(row, last, base)
      ensures Searched(row, last, base + 16, r)
    {
      r := -1;
      if IsZero(word16) {
        ZeroPart(row, last, base, word16, 16);
        return;
      }
      var words8 := [word16[..8], word16[8..]];
      SplitPart(row, base, word16, 8);
      for k := 0 to 2
        invariant NoneBefore(row, last, base + 8 * k)
      {
        r := FindInByte(row, words8[k], base + 8 * k, last);
        if r != -1 {
          return;
        }
      }
    }

    static method FindInByte(ghost row: Bits, byte: Bits, base: nat, last: int) returns (r: int)
      requires IsPart(row, base, byte, 8) && -1 <= last && NoneBefore(row, last, base)
      ensures Searched(row, last, base + 8, r)
    {
      r := -1;
      if IsZero(byte) {
        ZeroPart(row, last, base, byte, 8);
        return;
      }
      for l := 0 to 8
        invariant NoneBefore(row, last, base + l)
      {
        assert byte[l] == row[base + l];
        if byte[l] && base + l > last {
          return base + l;
        }
      }
    }
  }

  lemma {:induction false} NumSetJoin(a: Bits, b: Bits)
    ensures NumSet(a + b) == NumSet(a) + NumSet(b)
  {
    if a == [] {
      assert a + b == b;
    } else {
      assert (a + b)[1..] == a[1..] + b;
      NumSetJoin(a[1..], b);
    }
  }

  lemma {:induction false} NoneSet(bits: Bits)
    requires IsZero(bits)
    ensures NumSet(bits) == 0
  {
    if bits != [] {
      NoneSet(bits[1..]);
    }
  }
}
