/** Byte strings and big-endian integers, as struct.pack and encoding/binary lay them out. */
module Bytes {
  type Byte = b: int | 0 <= b < 256
  type ByteString = seq<Byte>

  function Capacity(n: nat): (c: nat)
    ensures c > 0
  {
    if n == 0 then 1 else 256 * Capacity(n - 1)
  }

  function BigEndian(v: nat, n: nat): (b: ByteString)
    ensures |b| == n
  {
    if n == 0 then [] else BigEndian(v / 256, n - 1) + [v % 256]
  }

  function FromBigEndian(b: ByteString): nat {
    if b == [] then 0 else FromBigEndian(b[..|b| - 1]) * 256 + b[|b| - 1]
  }

  lemma {:induction false} BigEndianRoundTrip(v: nat, n: nat)
    requires v < Capacity(n)
    ensures FromBigEndian(BigEndian(v, n)) == v
  {
    if n > 0 {
      BigEndianRoundTrip(v / 256, n - 1);
      assert BigEndian(v, n)[..n - 1] == BigEndian(v / 256, n - 1);
    }
  }

  lemma LastByte(high: nat, low: Byte)
    ensures (high * 256 + low) / 256 == high && (high * 256 + low) % 256 == low
  {
  }

  lemma {:induction false} FromBigEndianRoundTrip(b: ByteString)
    ensures FromBigEndian(b) < Capacity(|b|)
    ensures BigEndian(FromBigEndian(b), |b|) == b
  {
    if b != [] {
      var front, last := b[..|b| - 1], b[|b| - 1];
      FromBigEndianRoundTrip(front);
      LastByte(FromBigEndian(front), last);
      assert b == front + [last];
    }
  }

  lemma Capacities()
    ensures Capacity(1) == 0x100 && Capacity(2) == 0x1_0000 && Capacity(4) == 0x1_0000_0000
    ensures Capacity(8) == 0x1_0000_0000_0000_0000
  {
    assert Capacity(1) == 256 * Capacity(0);
    assert Capacity(3) == 256 * Capacity(2);
    assert Capacity(5) == 256 * Capacity(4);
    assert Capacity(6) == 256 * Capacity(5);
    assert Capacity(7) == 256 * Capacity(6);
  }

  /** Network order: the most significant byte comes first. */
  lemma {:induction false} MostSignificantFirst(b: ByteString)
    requires b != []
    ensures FromBigEndian(b) == b[0] * Capacity(|b| - 1) + FromBigEndian(b[1..])
    decreases |b|
  {
    if |b| > 1 {
      var front := b[..|b| - 1];
      MostSignificantFirst(front);
      assert front[1..] == b[1..][..|b| - 2];
      assert b[0] * Capacity(|b| - 1) == 256 * (b[0] * Capacity(|b| - 2));
    } else {
      assert b[..0] == [] && b[1..] == [];
    }
  }
}
