/** Big-endian integers on byte strings, as both the KCP header and the TCP frames use them. */
module Bytes {

  newtype byte = x: int | 0 <= x < 256

  const TWO_8 := 0x100
  const TWO_16 := 0x1_0000
  const TWO_32 := 0x1_0000_0000

  /** The last 16 bits of `v`, high byte first. */
  function U16(v: nat): (r: seq<byte>)
    ensures |r| == 2
  {
    [(v / 0x100 % 0x100) as byte, (v % 0x100) as byte]
  }

  function FromU16(b: seq<byte>): (v: nat)
    requires |b| == 2
    ensures v < TWO_16
  {
    b[0] as nat * 0x100 + b[1] as nat
  }

  /** The last 32 bits of `v`, high byte first. */
  function U32(v: nat): (r: seq<byte>)
    ensures |r| == 4
  {
    U16(v / TWO_16) + U16(v)
  }

  function FromU32(b: seq<byte>): (v: nat)
    requires |b| == 4
    ensures v < TWO_32
  {
    FromU16(b[..2]) * TWO_16 + FromU16(b[2..])
  }

  lemma U16RoundTrip(v: nat)
    ensures FromU16(U16(v)) == v % TWO_16
  {
    var high, low := v / 0x100, v % 0x100;
    assert v % TWO_16 == (high % 0x100) * 0x100 + low;
  }

  lemma U16Onto(b: seq<byte>)
    requires |b| == 2
    ensures U16(FromU16(b)) == b
  {
  }

  lemma U32RoundTrip(v: nat)
    ensures FromU32(U32(v)) == v % TWO_32
  {
    U16RoundTrip(v / TWO_16);
    U16RoundTrip(v);
    assert U32(v)[..2] == U16(v / TWO_16) && U32(v)[2..] == U16(v);
    hide U16, FromU16;
    assert v % TWO_32 == v / TWO_16 % TWO_16 * TWO_16 + v % TWO_16;
  }

  /** Every four bytes are the printed form of the number they denote. */
  lemma U32Onto(b: seq<byte>)
    requires |b| == 4
    ensures U32(FromU32(b)) == b
  {
    var hi, lo := FromU16(b[..2]), FromU16(b[2..]);
    U16Onto(b[..2]);
    U16Onto(b[2..]);
    U16Low(hi, lo);
    assert b == b[..2] + b[2..];
    hide U16, FromU16;
  }

  lemma U16Low(hi: nat, lo: nat)
    requires lo < TWO_16
    ensures (hi * TWO_16 + lo) / TWO_16 == hi && U16(hi * TWO_16 + lo) == U16(lo)
  {
    var v := hi * TWO_16 + lo;
    assert v / 0x100 == hi * 0x100 + lo / 0x100;
  }
}
