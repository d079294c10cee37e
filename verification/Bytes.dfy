/** Bytes and the fixed-width integers that the on-disk and on-wire formats store. */
module Bytes {

  type byte = b: int | 0 <= b < 0x100

  /** Number of values an n-byte field can hold. */
  function Capacity(n: nat): (p: nat)
    ensures p > 0
  {
    if n == 0 then 1 else 0x100 * Capacity(n - 1)
  }

  lemma Capacities()
    ensures Capacity(2) == 0x1_0000
    ensures Capacity(4) == 0x1_0000_0000
    ensures Capacity(8) == 0x1_0000_0000_0000_0000
  {
    assert Capacity(1) == 0x100;
    assert Capacity(3) == 0x100_0000;
    assert Capacity(5) == 0x100_0000_0000;
    assert Capacity(6) == 0x1_0000_0000_0000;
    assert Capacity(7) == 0x100_0000_0000_0000;
  }

  /** The n-byte little-endian encoding; higher bits are dropped, as a Go conversion does. */
  function LittleEndian(n: nat, v: nat): (s: seq<byte>)
    ensures |s| == n
  {
    if n == 0 then [] else [v % 0x100] + LittleEndian(n - 1, v / 0x100)
  }

  function FromLittleEndian(s: seq<byte>): (v: nat)
    ensures v < Capacity(|s|)
  {
    if s == [] then 0 else s[0] + 0x100 * FromLittleEndian(s[1..])
  }

  lemma {:induction false} LittleEndianRoundTrip(n: nat, v: nat)
    requires v < Capacity(n)
    ensures FromLittleEndian(LittleEndian(n, v)) == v
  {
    if n > 0 {
      LittleEndianRoundTrip(n - 1, v / 0x100);
      assert LittleEndian(n, v)[1..] == LittleEndian(n - 1, v / 0x100);
    }
  }

  /** The byte of weight 256^i. */
  function Digit(v: nat, i: nat): byte {
    if i == 0 then v % 0x100 else Digit(v / 0x100, i - 1)
  }

  lemma {:induction false} LittleEndianDigit(n: nat, v: nat, i: nat)
    requires i < n
    ensures LittleEndian(n, v)[i] == Digit(v, i)
  {
    if i > 0 {
      LittleEndianDigit(n - 1, v / 0x100, i - 1);
    }
  }

  lemma {:induction false} ZeroDigit(i: nat)
    ensures Digit(0, i) == 0
  {
    if i > 0 {
      ZeroDigit(i - 1);
    }
  }

  /** Distinct byte strings of one width hold distinct values. */
  lemma {:induction false} LittleEndianOnto(s: seq<byte>)
    ensures LittleEndian(|s|, FromLittleEndian(s)) == s
  {
    if s != [] {
      LittleEndianOnto(s[1..]);
      var v := FromLittleEndian(s);
      assert v % 0x100 == s[0] && v / 0x100 == FromLittleEndian(s[1..]);
    }
  }

  /** The n-byte big-endian encoding used on the network. */
  function BigEndian(n: nat, v: nat): (s: seq<byte>)
    ensures |s| == n
  {
    if n == 0 then [] else BigEndian(n - 1, v / 0x100) + [v % 0x100]
  }

  function FromBigEndian(s: seq<byte>): (v: nat)
    ensures v < Capacity(|s|)
  {
    if s == [] then 0 else 0x100 * FromBigEndian(s[..|s| - 1]) + s[|s| - 1]
  }

  lemma {:induction false} BigEndianRoundTrip(n: nat, v: nat)
    requires v < Capacity(n)
    ensures FromBigEndian(BigEndian(n, v)) == v
  {
    if n > 0 {
      BigEndianRoundTrip(n - 1, v / 0x100);
      assert BigEndian(n, v)[..n - 1] == BigEndian(n - 1, v / 0x100);
    }
  }

  lemma {:induction false} BigEndianOnto(s: seq<byte>)
    ensures BigEndian(|s|, FromBigEndian(s)) == s
  {
    if s != [] {
      BigEndianOnto(s[..|s| - 1]);
      var v := FromBigEndian(s);
      assert v % 0x100 == s[|s| - 1] && v / 0x100 == FromBigEndian(s[..|s| - 1]);
    }
  }

  /** The weights of the bytes of a four-byte field: the first one is the lowest, or on the network the highest. */
  lemma FourByteWeights(s: seq<byte>)
    requires |s| == 4
    ensures FromLittleEndian(s)
      == s[0] as int + 0x100 * (s[1] as int) + 0x1_0000 * (s[2] as int) + 0x100_0000 * (s[3] as int)
    ensures FromBigEndian(s)
      == 0x100_0000 * (s[0] as int) + 0x1_0000 * (s[1] as int) + 0x100 * (s[2] as int) + s[3] as int
  {
    assert s[1..][1..] == s[2..] && s[2..][1..] == s[3..] && s[3..][1..] == [];
    assert s[..3][..2] == s[..2] && s[..2][..1] == s[..1] && s[..1][..0] == [];
    assert FromLittleEndian(s[3..]) == s[3] as int;
    assert FromLittleEndian(s[2..]) == s[2] as int + 0x100 * (s[3] as int);
    assert FromBigEndian(s[..1]) == s[0] as int;
    assert FromBigEndian(s[..2]) == 0x100 * (s[0] as int) + s[1] as int;
  }

  lemma BigEndianLast(s: seq<byte>, last: byte)
    ensures FromBigEndian(s + [last]) == 0x100 * FromBigEndian(s) + last as int
  {
    assert (s + [last])[..|s|] == s;
  }

  /** A network field that ends in a two-byte field. */
  lemma BigEndianJoins(a: seq<byte>, b: seq<byte>)
    requires |b| == 2
    ensures FromBigEndian(a + b) == FromBigEndian(a) * 0x1_0000 + FromBigEndian(b)
  {
    assert a + b == a + [b[0]] + [b[1]] && b == [] + [b[0]] + [b[1]];
    BigEndianLast(a, b[0]);
    BigEndianLast(a + [b[0]], b[1]);
    BigEndianLast([], b[0]);
    BigEndianLast([] + [b[0]], b[1]);
  }

  lemma ConcatAssociates<T>(a: seq<T>, b: seq<T>, c: seq<T>)
    ensures (a + b) + c == a + (b + c)
  {
  }

  lemma Uncons<T>(s: seq<T>)
    requires |s| > 0
    ensures [s[0]] + s[1..] == s
  {
  }

  /** `base` with the bytes at `offset` replaced by `data`. */
  function Patch(base: seq<byte>, offset: nat, data: seq<byte>): (r: seq<byte>)
    requires offset + |data| <= |base|
    ensures |r| == |base|
    ensures forall i :: 0 <= i < |base| ==>
      r[i] == if offset <= i < offset + |data| then data[i - offset] else base[i]
  {
    base[..offset] + data + base[offset + |data|..]
  }

  /** Puts `data` at `done`, leaving the rest of the buffer alone. */
  method CopyInto(p: array<byte>, done: nat, data: seq<byte>)
    requires done + |data| <= p.Length
    modifies p
    ensures p[..] == Patch(old(p[..]), done, data)
    ensures p[done..done + |data|] == data && p[..done] == old(p[..done])
  {
    var before := p[..];
    for i := 0 to |data|
      invariant forall k :: 0 <= k < p.Length ==> p[k] == if done <= k < done + i then data[k - done] else before[k]
    {
      p[done + i] := data[i];
    }
  }
}
