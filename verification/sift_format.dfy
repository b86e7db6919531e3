/** Byte and bit layout of the three record kinds of a SIFT stream. */
module SiftFormat {

  type byte = x: int | 0 <= x < 256
  type u32 = x: int | 0 <= x < 0x1_0000_0000
  type u64 = x: int | 0 <= x < 0x1_0000_0000_0000_0000

  const TWO_32: int := 0x1_0000_0000
  const TWO_64: int := 0x1_0000_0000_0000_0000
  const PAGE: int := 4096
  const TOP_PAGE: u64 := TWO_64 - PAGE

  const REC_ICACHE: byte := 0
  const REC_OUTPUT: byte := 1
  const REC_SYSCALL_REQUEST: byte := 2
  const REC_SYSCALL_RESPONSE: byte := 3
  const REC_NEW_THREAD: byte := 4
  const REC_NEW_THREAD_RESPONSE: byte := 5
  const REC_MEMORY_REQUEST: byte := 6
  const REC_MEMORY_RESPONSE: byte := 7
  const REC_JOIN: byte := 8
  const REC_JOIN_RESPONSE: byte := 9
  const REC_ICACHE_VARIABLE: byte := 11
  const REC_SYNC: byte := 12
  const REC_SYNC_RESPONSE: byte := 13
  const REC_LOGICAL2PHYSICAL: byte := 14
  const REC_MAGIC: byte := 15
  const REC_MAGIC_RESPONSE: byte := 16
  const REC_ROUTINE_CHANGE: byte := 17
  const REC_ROUTINE_ANNOUNCE: byte := 18
  const REC_EMU: byte := 19
  const REC_EMU_RESPONSE: byte := 20
  const REC_END: byte := 255

  function Pow256(w: nat): (p: nat)
    ensures p > 0
  {
    if w == 0 then 1 else 256 * Pow256(w - 1)
  }

  /** n as a w-byte little-endian field; higher bytes are cut off. */
  function LE(n: nat, w: nat): (s: seq<byte>)
    ensures |s| == w
  {
    if w == 0 then [] else [n % 256] + LE(n / 256, w - 1)
  }

  function FromLE(s: seq<byte>): nat {
    if s == [] then 0 else s[0] + 256 * FromLE(s[1..])
  }

  lemma {:induction false} FromLEBound(s: seq<byte>)
    ensures FromLE(s) < Pow256(|s|)
  {
    if s != [] {
      FromLEBound(s[1..]);
    }
  }

  /** What does not fit is cut off, what fits comes back. */
  lemma {:induction false} FieldRoundTrip(n: nat, w: nat)
    ensures FromLE(LE(n, w)) == n % Pow256(w)
    ensures n < Pow256(w) ==> FromLE(LE(n, w)) == n
  {
    if w > 0 {
      FieldRoundTrip(n / 256, w - 1);
      assert LE(n, w)[1..] == LE(n / 256, w - 1);
      LowByte(n, Pow256(w - 1));
    }
  }

  lemma LowByte(n: nat, m: nat)
    requires m > 0
    ensures n % (256 * m) == n % 256 + 256 * (n / 256 % m)
  {
    var q, r := n / 256 / m, n / 256 % m;
    assert n / 256 == m * q + r;
    assert n == (256 * m) * q + (n % 256 + 256 * r);
    Remainder(n, 256 * m, q, n % 256 + 256 * r);
  }

  lemma Remainder(n: nat, m: nat, q: nat, r: nat)
    requires n == m * q + r && r < m
    ensures n % m == r
  {
    var d := n / m;
    assert n == m * d + n % m;
    assert m * (q - d) == n % m - r;
    AtLeastOnce(m, q - d);
  }

  lemma AtLeastOnce(m: nat, k: int)
    ensures k >= 1 ==> m * k >= m
    ensures k <= -1 ==> m * k <= 0 - m
  {
    if k <= -1 {
      assert m * (-k) >= m && m * k == 0 - m * (-k);
    }
  }

  lemma Widths()
    ensures Pow256(1) == 256 && Pow256(2) == 65536 && Pow256(4) == TWO_32 && Pow256(8) == TWO_64
  {
    assert Pow256(3) == 256 * Pow256(2);
    assert Pow256(5) == 256 * Pow256(4);
    assert Pow256(6) == 256 * Pow256(5);
    assert Pow256(7) == 256 * Pow256(6);
  }

  /** What reading from the front of a stream gives: a value and the bytes left. */
  datatype Parsed<T> = Got(value: T, rest: seq<byte>) | Short {
    predicate IsFailure() {
      Short?
    }

    function PropagateFailure<U>(): Parsed<U>
      requires Short?
    {
      Short
    }

    function Extract(): (T, seq<byte>)
      requires Got?
    {
      (value, rest)
    }
  }

  function TakeField(input: seq<byte>, w: nat): (r: Parsed<nat>)
    ensures r.Got? ==> r.value < Pow256(w) && |r.rest| == |input| - w
  {
    if |input| < w then Short
    else
      FromLEBound(input[..w]);
      Got(FromLE(input[..w]), input[w..])
  }

  function TakeU32(input: seq<byte>): (r: Parsed<u32>)
    ensures r.Got? ==> |r.rest| == |input| - 4
  {
    Widths();
    var (n, rest) :- TakeField(input, 4);
    Got(n, rest)
  }

  function TakeU64(input: seq<byte>): (r: Parsed<u64>)
    ensures r.Got? ==> |r.rest| == |input| - 8
  {
    Widths();
    var (n, rest) :- TakeField(input, 8);
    Got(n, rest)
  }

  function TakeBytes(input: seq<byte>, n: nat): (r: Parsed<seq<byte>>)
    ensures r.Got? ==> |r.value| == n && |r.rest| == |input| - n
  {
    if |input| < n then Short else Got(input[..n], input[n..])
  }

  lemma TakeFieldBack(n: nat, w: nat, rest: seq<byte>)
    requires n < Pow256(w)
    ensures TakeField(LE(n, w) + rest, w) == Got(n, rest)
  {
    FieldRoundTrip(n, w);
    assert (LE(n, w) + rest)[..w] == LE(n, w);
    assert (LE(n, w) + rest)[w..] == rest;
  }

  lemma TakeU32Back(n: u32, rest: seq<byte>)
    ensures TakeU32(LE(n, 4) + rest) == Got(n, rest)
  {
    Widths();
    TakeFieldBack(n, 4, rest);
  }

  lemma TakeU64Back(n: u64, rest: seq<byte>)
    ensures TakeU64(LE(n, 8) + rest) == Got(n, rest)
  {
    Widths();
    TakeFieldBack(n, 8, rest);
  }

  lemma TakeBytesBack(s: seq<byte>, rest: seq<byte>)
    ensures TakeBytes(s + rest, |s|) == Got(s, rest)
  {
    assert (s + rest)[..|s|] == s;
    assert (s + rest)[|s|..] == rest;
  }

  /** A run of 8-byte fields, as the dynamic addresses of an instruction. */
  function U64s(xs: seq<u64>): (s: seq<byte>)
    ensures |s| == 8 * |xs|
  {
    if xs == [] then [] else LE(xs[0], 8) + U64s(xs[1..])
  }

  function TakeU64s(input: seq<byte>, n: nat): (r: Parsed<seq<u64>>)
    ensures r.Got? ==> |r.value| == n && |r.rest| == |input| - 8 * n
  {
    if n == 0 then Got([], input)
    else
      var (x, r1) :- TakeU64(input);
      var (xs, r2) :- TakeU64s(r1, n - 1);
      Got([x] + xs, r2)
  }

  lemma {:induction false} TakeU64sBack(xs: seq<u64>, rest: seq<byte>)
    ensures TakeU64s(U64s(xs) + rest, |xs|) == Got(xs, rest)
  {
    if xs == [] {
      assert U64s(xs) + rest == rest;
    } else {
      assert U64s(xs) + rest == LE(xs[0], 8) + (U64s(xs[1..]) + rest);
      TakeU64Back(xs[0], U64s(xs[1..]) + rest);
      TakeU64sBack(xs[1..], rest);
      assert [xs[0]] + xs[1..] == xs;
    }
  }

  /** The header of an other record; its size field is 32 bits wide. */
  function OtherHeader(kind: byte, size: nat): (s: seq<byte>)
    ensures |s| == 6 && s[0] == 0 && s[1] == kind
  {
    [0, kind] + LE(size % TWO_32, 4)
  }

  datatype Header = Header(kind: byte, size: u32)

  function TakeHeader(input: seq<byte>): (r: Parsed<Header>)
    ensures r.Got? ==> |r.rest| == |input| - 6
  {
    if |input| < 2 then Short
    else
      var (size, rest) :- TakeU32(input[2..]);
      Got(Header(input[1], size), rest)
  }

  lemma TakeHeaderBack(kind: byte, size: nat, rest: seq<byte>)
    ensures TakeHeader(OtherHeader(kind, size) + rest) == Got(Header(kind, size % TWO_32), rest)
  {
    var s := OtherHeader(kind, size) + rest;
    assert s[2..] == LE(size % TWO_32, 4) + rest;
    TakeU32Back(size % TWO_32, rest);
  }

  function Bit(b: bool): nat {
    if b then 1 else 0
  }

  predicate BitOf(x: nat, weight: nat)
    requires weight > 0
  {
    x / weight % 2 == 1
  }

  /** The flag bits of an instruction, shared by the top half of a simple record
      and the second byte of an extended one. */
  datatype Flags = Flags(addresses: nat, isBranch: bool, taken: bool, isPredicate: bool, executed: bool)

  function SimpleByte(size: nat, f: Flags): byte
    requires size < 16 && f.addresses < 4
  {
    size + 16 * f.addresses + 64 * Bit(f.isBranch) + 128 * Bit(f.taken)
  }

  function ExtByte(f: Flags): byte
    requires f.addresses < 4
  {
    f.addresses + 4 * Bit(f.isBranch) + 8 * Bit(f.taken) + 16 * Bit(f.isPredicate) + 32 * Bit(f.executed)
  }

  /** A simple record has no room for the predicate and executed bits. */
  function SimpleFlags(b: byte): (f: Flags)
    ensures f.addresses < 4
  {
    Flags(b / 16 % 4, BitOf(b, 64), BitOf(b, 128), false, true)
  }

  function ExtFlags(b: byte): (f: Flags)
    ensures f.addresses < 4
  {
    Flags(b % 4, BitOf(b, 4), BitOf(b, 8), BitOf(b, 16), BitOf(b, 32))
  }

  /** A simple record brings back the flags it can express; the others come back
      as an executed instruction without predicate. */
  lemma SimpleByteBack(size: nat, f: Flags)
    requires size < 16 && f.addresses < 4
    ensures SimpleByte(size, f) % 16 == size
    ensures SimpleFlags(SimpleByte(size, f)) == f.(isPredicate := false, executed := true)
  {
    var b := SimpleByte(size, f);
    assert b / 16 == f.addresses + 4 * Bit(f.isBranch) + 8 * Bit(f.taken);
    assert b / 64 == Bit(f.isBranch) + 2 * Bit(f.taken);
    assert b / 128 == Bit(f.taken);
  }

  lemma ExtByteBack(f: Flags)
    requires f.addresses < 4
    ensures ExtFlags(ExtByte(f)) == f
  {
    var b := ExtByte(f);
    assert b / 4 == Bit(f.isBranch) + 2 * Bit(f.taken) + 4 * Bit(f.isPredicate) + 8 * Bit(f.executed);
    assert b / 8 == Bit(f.taken) + 2 * Bit(f.isPredicate) + 4 * Bit(f.executed);
    assert b / 16 == Bit(f.isPredicate) + 2 * Bit(f.executed);
    assert b / 32 == Bit(f.executed);
  }
}
