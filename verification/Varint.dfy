/** Unsigned varints of the Protocol Buffers encoding, section "Base 128 Varints", for 64-bit values:
    the writer and reader that the codec builds on. */
module Varint {
  type byte = b: int | 0 <= b < 256
  type bytes = seq<byte>

  const TWO64: int := 0x1_0000_0000_0000_0000

  type uint64 = v: int | 0 <= v < TWO64

  /** A varint of a 64-bit value has at most this many bytes. */
  const MAX_LEN: nat := 10

  datatype Read = Short | Got(v: nat, n: nat)

  /** The little-endian groups of seven bits, all but the last one marked. */
  function Put(v: nat): (r: bytes)
    ensures |r| > 0
  {
    if v < 128 then [v] else [v % 128 + 128] + Put(v / 128)
  }

  /** What fits a 64-bit value when at most left bytes of it are still to come. */
  function Limit(left: nat): nat
    requires left >= 1
  {
    if left == 1 then 2 else 128 * Limit(left - 1)
  }

  /** The value at the front of buf and its length, reading at most left bytes; Short when the
      bytes run out or do not fit. */
  function Get(buf: bytes, left: nat): (r: Read)
    ensures r.Got? ==> 1 <= r.n <= |buf| && r.n <= left && r.v < Limit(left)
  {
    if buf == [] || left == 0 then Short
    else if buf[0] < 128 then
      LimitPositive(left);
      if left == 1 && buf[0] > 1 then Short else Got(buf[0], 1)
    else match Get(buf[1..], left - 1)
      case Short => Short
      case Got(v, n) => Got(buf[0] - 128 + 128 * v, n + 1)
  }

  lemma LimitPositive(left: nat)
    requires left >= 1
    ensures if left == 1 then Limit(left) == 2 else Limit(left) >= 256
  {
    if left > 1 {
      LimitPositive(left - 1);
    }
  }

  lemma LimitOfTen()
    ensures Limit(MAX_LEN) == TWO64
  {
    assert Limit(2) == 0x100;
    assert Limit(3) == 0x8000;
    assert Limit(4) == 0x40_0000;
    assert Limit(5) == 0x2000_0000;
    assert Limit(6) == 0x10_0000_0000;
    assert Limit(7) == 0x800_0000_0000;
    assert Limit(8) == 0x4_0000_0000_0000;
    assert Limit(9) == 0x200_0000_0000_0000;
  }

  /** The 64-bit value at the front of buf. */
  function Uvarint(buf: bytes): (r: Read)
    ensures r.Got? ==> r.v < TWO64 && 1 <= r.n <= |buf| && r.n <= MAX_LEN
  {
    LimitOfTen();
    Get(buf, MAX_LEN)
  }

  /** What was written is read back, with nothing left over, and in at most ten bytes. */
  lemma {:induction false} GetPut(v: nat, left: nat, rest: bytes)
    requires left >= 1 && v < Limit(left)
    ensures Get(Put(v) + rest, left) == Got(v, |Put(v)|) && |Put(v)| <= left
  {
    LimitPositive(left);
    if v >= 128 {
      GetPut(v / 128, left - 1, rest);
      assert (Put(v) + rest)[1..] == Put(v / 128) + rest;
    }
  }

  /** A whole varint round trip. */
  lemma UvarintPut(v: uint64, rest: bytes)
    ensures Uvarint(Put(v) + rest) == Got(v, |Put(v)|) && |Put(v)| <= MAX_LEN
  {
    LimitOfTen();
    GetPut(v, MAX_LEN, rest);
  }

  /** Reading stops at the end of the value: what follows does not matter. */
  lemma {:induction false} GetPrefix(buf: bytes, left: nat, rest: bytes)
    requires Get(buf, left).Got?
    ensures Get(buf + rest, left) == Get(buf, left)
  {
    if buf[0] >= 128 {
      GetPrefix(buf[1..], left - 1, rest);
      assert (buf + rest)[1..] == buf[1..] + rest;
    }
  }

  /** The append loop of the writer. */
  method AppendUvarint(dst: bytes, v: uint64) returns (r: bytes)
    ensures r == dst + Put(v)
  {
    r := dst;
    var x := v;
    while x >= 128
      invariant 0 <= x < TWO64 && r + Put(x) == dst + Put(v)
    {
      r := r + [x % 128 + 128];
      x := x / 128;
    }
    r := r + [x];
  }

  function Pow128(i: nat): nat {
    if i == 0 then 1 else 128 * Pow128(i - 1)
  }

  /** x with b added above its lowest groups, s being the weight of the next group. */
  function Add(x: nat, b: nat, s: nat): nat {
    x + b * s
  }

  /** The value of marked groups read so far. */
  function Sum(p: bytes): nat {
    if p == [] then 0 else Add(Sum(p[..|p|-1]), p[|p|-1] % 128, Pow128(|p| - 1))
  }

  // --- varints as numbers -----------------------------------------------------------------------------

  /** The first n bytes are one varint: all but the last one are marked. */
  predicate IsVarint(buf: bytes, n: nat) {
    1 <= n <= |buf| && buf[n-1] < 128 && forall i :: 0 <= i < n - 1 ==> buf[i] >= 128
  }

  lemma {:induction false} SumFirst(b: byte, p: bytes)
    ensures Sum([b] + p) == b % 128 + 128 * Sum(p)
  {
    if p == [] {
      assert [b][..0] == [];
    } else {
      var q, last := [b] + p, p[|p|-1] % 128;
      SumFirst(b, p[..|p|-1]);
      assert q[..|q|-1] == [b] + p[..|p|-1];
      assert Pow128(|p|) == 128 * Pow128(|p| - 1);
      assert 128 * (last * Pow128(|p| - 1)) == last * Pow128(|p|);
    }
  }

  /** What is written is one varint, and its value is that of its groups of seven bits, the lowest first. */
  lemma {:induction false} PutIs(v: nat)
    ensures IsVarint(Put(v), |Put(v)|) && Sum(Put(v)) == v
  {
    hide Sum, IsVarint, Pow128;
    if v < 128 {
      OneByte(v);
    } else {
      var b, p := v % 128 + 128, Put(v / 128);
      PutIs(v / 128);
      SumFirst(b, p);
      VarintMore(b, p);
      assert Put(v) == [b] + p && b % 128 == v % 128;
    }
  }

  lemma OneByte(v: byte)
    requires v < 128
    ensures IsVarint([v], 1) && Sum([v]) == v
  {
    assert [v][..0] == [];
    assert Pow128(0) == 1;
  }

  lemma VarintMore(b: byte, p: bytes)
    requires b >= 128 && IsVarint(p, |p|)
    ensures IsVarint([b] + p, |p| + 1)
  {
  }

  lemma FirstGroup(buf: bytes, n: nat)
    requires 1 <= n <= |buf|
    ensures Sum(buf[..n]) == buf[0] % 128 + 128 * Sum(buf[1..][..n-1])
  {
    SumFirst(buf[0], buf[1..][..n-1]);
    assert buf[..n] == [buf[0]] + buf[1..][..n-1];
  }

  lemma {:induction false} GetIs(buf: bytes, left: nat)
    ensures var r := Get(buf, left); r.Got? ==> IsVarint(buf, r.n) && r.v == Sum(buf[..r.n])
  {
    hide Sum, IsVarint;
    if Get(buf, left).Got? {
      FirstGroup(buf, Get(buf, left).n);
      if buf[0] >= 128 {
        GetIs(buf[1..], left - 1);
        VarintAfter(buf, Get(buf, left).n);
      } else {
        VarintOne(buf);
      }
    }
  }

  lemma VarintStart(buf: bytes, n: nat)
    requires IsVarint(buf, n)
    ensures 1 <= n <= |buf| && (buf[0] < 128 <==> n == 1)
  {
  }

  lemma VarintOne(buf: bytes)
    requires buf != [] && buf[0] < 128
    ensures IsVarint(buf, 1) && Sum(buf[1..][..0]) == 0
  {
    assert buf[1..][..0] == [];
  }

  lemma VarintAfter(buf: bytes, n: nat)
    requires n > 1 && buf != [] && buf[0] >= 128
    ensures IsVarint(buf, n) <==> IsVarint(buf[1..], n - 1)
  {
    if IsVarint(buf, n) {
      forall i | 0 <= i < n - 2 ensures buf[1..][i] >= 128 {
        assert buf[1..][i] == buf[i+1];
      }
    }
  }

  lemma {:induction false} GetOf(buf: bytes, left: nat, n: nat)
    requires IsVarint(buf, n) && n <= left && Sum(buf[..n]) < Limit(left)
    ensures Get(buf, left) == Got(Sum(buf[..n]), n)
  {
    hide Sum, IsVarint;
    VarintStart(buf, n);
    LimitPositive(left);
    FirstGroup(buf, n);
    if n > 1 {
      VarintAfter(buf, n);
      GetOf(buf[1..], left - 1, n - 1);
    } else {
      VarintOne(buf);
    }
  }

  /** A buffer gives a number exactly if it starts with a varint of at most ten bytes whose value fits 64 bits; then
      it gives that value. */
  lemma UvarintIs64(buf: bytes, n: nat)
    ensures Uvarint(buf).Got? && Uvarint(buf).n == n <==> IsVarint(buf, n) && n <= MAX_LEN && Sum(buf[..n]) < TWO64
    ensures Uvarint(buf).Got? ==> Uvarint(buf).v == Sum(buf[..Uvarint(buf).n])
  {
    hide Get, Sum, Limit;
    LimitOfTen();
    GetIs(buf, MAX_LEN);
    if IsVarint(buf, n) && n <= MAX_LEN && Sum(buf[..n]) < TWO64 {
      GetOf(buf, MAX_LEN, n);
    }
  }

  /** What is read when marked groups p stand before what r was read from. */
  function Before(p: bytes, r: Read): Read {
    match r
    case Short => Short
    case Got(v, n) => Got(Add(Sum(p), v, Pow128(|p|)), |p| + n)
  }

  lemma Distribute(b: nat, v: nat, s: nat)
    ensures (b + 128 * v) * s == b * s + v * (128 * s)
  {
  }

  /** A marked group before the value counts as one more of the groups read so far. */
  lemma OneGroupMore(p: bytes, g: byte, v: nat, n: nat)
    requires g >= 128
    ensures Before(p, Got(g - 128 + 128 * v, n + 1)) == Before(p + [g], Got(v, n))
  {
    assert (p + [g])[..|p|] == p && g % 128 == g - 128;
    assert Pow128(|p| + 1) == 128 * Pow128(|p|);
    Distribute(g - 128, v, Pow128(|p|));
  }

  lemma GetMore(buf: bytes, i: nat, left: nat)
    requires i < |buf| && buf[i] >= 128 && left > 0
    ensures Before(buf[..i], Get(buf[i..], left)) == Before(buf[..i+1], Get(buf[i+1..], left - 1))
  {
    hide Before, Sum, Pow128;
    NothingBefore(buf[..i], buf[..i+1]);
    assert buf[i..][1..] == buf[i+1..];
    assert buf[..i+1] == buf[..i] + [buf[i]];
    match Get(buf[i+1..], left - 1)
    case Short =>
    case Got(v, n) => OneGroupMore(buf[..i], buf[i], v, n);
  }

  lemma NothingBefore(p: bytes, q: bytes)
    ensures Before(p, Short) == Before(q, Short) == Short
  {
  }

  lemma UvarintIs(buf: bytes)
    ensures Uvarint(buf) == Before([], Get(buf, MAX_LEN))
  {
  }

  lemma NothingRead(buf: bytes)
    ensures buf[..0] == [] && buf[0..] == buf && Sum([]) == 0 && Pow128(0) == 1
    ensures forall p: bytes, left: nat {:trigger Before(p, Get([], left))} :: Before(p, Get([], left)) == Short
  {
  }

  lemma NothingMore(buf: bytes, left: nat)
    ensures Before(buf[..|buf|], Get(buf[|buf|..], left)) == Short
  {
    assert buf[|buf|..] == [];
  }

  /** What reading comes to at group i: nothing more may come, or it is the last one, or one more. */
  lemma LastGroup(buf: bytes, i: nat, left: nat)
    requires i < |buf|
    ensures left == 0 ==> Before(buf[..i], Get(buf[i..], left)) == Short
    ensures left > 0 && buf[i] < 128 ==>
      Before(buf[..i], Get(buf[i..], left))
      == if left == 1 && buf[i] > 1 then Short else Got(Add(Sum(buf[..i]), buf[i], Pow128(i)), i + 1)
    ensures Sum(buf[..i+1]) == Add(Sum(buf[..i]), buf[i] % 128, Pow128(i)) && Pow128(i + 1) == 128 * Pow128(i)
  {
    assert buf[..i+1][..i] == buf[..i];
  }

  /** The read loop: n is 0 when the bytes run out and negative when the value does not fit. */
  method ReadUvarint(buf: bytes) returns (v: nat, n: int)
    ensures if n > 0 then Uvarint(buf) == Got(v, n) else Uvarint(buf) == Short && v == 0
  {
    hide Uvarint, Get, Before, Sum, Pow128;
    UvarintIs(buf);
    NothingRead(buf);
    var x: nat, s: nat := 0, 1;
    for i := 0 to |buf|
      invariant i <= MAX_LEN && x == Sum(buf[..i]) && s == Pow128(i)
      invariant Uvarint(buf) == Before(buf[..i], Get(buf[i..], MAX_LEN - i))
    {
      LastGroup(buf, i, MAX_LEN - i);
      if i == MAX_LEN {
        return 0, -(i + 1);
      }
      var b := buf[i];
      if b < 128 {
        if i == MAX_LEN - 1 && b > 1 {
          return 0, -(i + 1);
        }
        return Add(x, b, s), i + 1;
      }
      GetMore(buf, i, MAX_LEN - i);
      x := Add(x, b % 128, s);
      s := 128 * s;
    }
    NothingMore(buf, MAX_LEN - |buf|);
    return 0, 0;
  }
}
