/** The KCP segment, the protocol constants and the 24-byte header (kcp/define.go, kcp/seg.go). */
module Segments {
  import opened Bytes

  const RTO_NDL: nat := 30
  const RTO_MIN: nat := 100
  const RTO_DEF: nat := 200
  const RTO_MAX: nat := 60000
  const CMD_PUSH: nat := 81
  const CMD_ACK: nat := 82
  const CMD_WASK: nat := 83
  const CMD_WINS: nat := 84
  const WND_SND: nat := 32
  const WND_RCV: nat := 128
  const MTU_DEF: nat := 1400
  const INTERVAL: nat := 100
  const OVERHEAD: nat := 24
  const DEADLINK: nat := 20
  const THRESH_INIT: nat := 2
  const THRESH_MIN: nat := 2
  const PROBE_INIT: nat := 7000
  const PROBE_LIMIT: nat := 120000
  const FASTACK_LIMIT: nat := 5

  /** `IKCPSEG`. The length field of the source is the length of `data`. */
  datatype Seg = Seg(
    conv: nat, cmd: nat, frg: nat, wnd: nat, ts: nat, sn: nat, una: nat,
    resendTs: nat, rto: nat, fastack: nat, xmit: nat,
    data: seq<byte>)

  /** What the application put into a segment: everything else is protocol bookkeeping. */
  datatype Payload = Payload(frg: nat, data: seq<byte>)

  function PayloadOf(s: Seg): Payload {
    Payload(s.frg, s.data)
  }

  // ----- Lists of segments ordered by number -----

  ghost predicate Ascending(buf: seq<Seg>) {
    forall i, j :: 0 <= i < j < |buf| ==> buf[i].sn < buf[j].sn
  }

  ghost predicate Has(buf: seq<Seg>, sn: nat) {
    exists s :: s in buf && s.sn == sn
  }

  /** How many leading segments are numbered below `sn`. */
  function Position(buf: seq<Seg>, sn: nat): (p: nat)
    ensures p <= |buf|
    ensures forall i :: 0 <= i < p ==> buf[i].sn < sn
    ensures p < |buf| ==> buf[p].sn >= sn
  {
    if buf == [] || buf[0].sn >= sn then 0 else 1 + Position(buf[1..], sn)
  }

  /** Strictly ascending lists with the same members are the same list. */
  lemma {:induction false} AscendingUnique(xs: seq<Seg>, ys: seq<Seg>)
    requires Ascending(xs) && Ascending(ys)
    requires forall s :: s in xs <==> s in ys
    ensures xs == ys
  {
    assert (ys == [] || ys[0] in xs) && (xs == [] || xs[0] in ys);
    if xs != [] {
      SameHead(xs, ys);
      AscendingUnique(xs[1..], ys[1..]);
      assert xs == [xs[0]] + xs[1..] && ys == [ys[0]] + ys[1..];
    }
  }

  lemma SameHead(xs: seq<Seg>, ys: seq<Seg>)
    requires Ascending(xs) && Ascending(ys) && xs != [] && ys != []
    requires forall s :: s in xs <==> s in ys
    ensures xs[0] == ys[0] && forall s :: s in xs[1..] <==> s in ys[1..]
  {
    assert xs[0] in ys && ys[0] in xs;
    var j :| 0 <= j < |ys| && ys[j] == xs[0];
    var i :| 0 <= i < |xs| && xs[i] == ys[0];
    assert i == 0 && j == 0;
    TailMembers(xs);
    TailMembers(ys);
  }

  lemma TailMembers(xs: seq<Seg>)
    requires Ascending(xs) && xs != []
    ensures forall s :: s in xs[1..] <==> s in xs && s != xs[0]
  {
    assert xs == [xs[0]] + xs[1..];
    forall s | s in xs[1..] ensures s != xs[0] {
      var k :| 1 <= k < |xs| && xs[k] == s;
      assert xs[0].sn < xs[k].sn;
    }
  }

  // ----- The wire format -----

  predicate KnownCmd(cmd: nat) {
    cmd == CMD_ACK || cmd == CMD_PUSH || cmd == CMD_WASK || cmd == CMD_WINS
  }

  /** The 24 header bytes. */
  function Header(s: Seg): (h: seq<byte>)
    ensures |h| == OVERHEAD
  {
    U32(s.conv) + [(s.cmd % TWO_8) as byte] + [(s.frg % TWO_8) as byte] + U16(s.wnd)
    + U32(s.ts) + U32(s.sn) + U32(s.una) + U32(|s.data|)
  }

  /** Header followed by data: one segment on the wire. */
  function Wire(s: Seg): (w: seq<byte>)
    ensures |w| == OVERHEAD + |s.data|
  {
    Header(s) + s.data
  }

  /** The length a header announces. */
  function LenField(h: seq<byte>): (n: nat)
    requires |h| >= OVERHEAD
  {
    FromU32(h[20..24])
  }

  /** Reads the header fields; `body` becomes the data. */
  function FromHeader(h: seq<byte>, body: seq<byte>): (s: Seg)
    requires |h| >= OVERHEAD
  {
    Seg(FromU32(h[0..4]), h[4] as nat, h[5] as nat, FromU16(h[6..8]),
        FromU32(h[8..12]), FromU32(h[12..16]), FromU32(h[16..20]),
        0, 0, 0, 0, body)
  }

  /** What survives the wire: fields cut to their width, local bookkeeping gone. */
  function OnWire(s: Seg): Seg {
    Seg(s.conv % TWO_32, s.cmd % TWO_8, s.frg % TWO_8, s.wnd % TWO_16,
        s.ts % TWO_32, s.sn % TWO_32, s.una % TWO_32, 0, 0, 0, 0, s.data)
  }

  /** All fields fit the width the header gives them. */
  predicate Fits(s: Seg) {
    && s.conv < TWO_32 && s.cmd < TWO_8 && s.frg < TWO_8 && s.wnd < TWO_16
    && s.ts < TWO_32 && s.sn < TWO_32 && s.una < TWO_32
    && s.resendTs == 0 && s.rto == 0 && s.fastack == 0 && s.xmit == 0
  }

  lemma HeaderFields(s: Seg, tail: seq<byte>)
    ensures var w := Header(s) + tail;
            && w[0..4] == U32(s.conv) && w[4] == (s.cmd % TWO_8) as byte
            && w[5] == (s.frg % TWO_8) as byte && w[6..8] == U16(s.wnd)
            && w[8..12] == U32(s.ts) && w[12..16] == U32(s.sn)
            && w[16..20] == U32(s.una) && w[20..24] == U32(|s.data|)
            && w[24..] == tail
  {
  }

  /** Reading back a printed header gives the segment cut to the wire widths. */
  lemma HeaderRoundTrip(s: Seg, tail: seq<byte>)
    requires |s.data| < TWO_32
    ensures FromHeader(Header(s) + tail, s.data) == OnWire(s)
    ensures LenField(Header(s) + tail) == |s.data|
  {
    hide Header, U32, U16, FromU32, FromU16;
    HeaderFields(s, tail);
    U32RoundTrip(s.conv);
    U16RoundTrip(s.wnd);
    U32RoundTrip(s.ts);
    U32RoundTrip(s.sn);
    U32RoundTrip(s.una);
    U32RoundTrip(|s.data|);
  }

  /** Printing back a header that was read gives its 24 bytes: no two headers read alike. */
  lemma HeaderOnto(h: seq<byte>, body: seq<byte>)
    requires |h| >= OVERHEAD && LenField(h) == |body|
    ensures Header(FromHeader(h, body)) == h[..OVERHEAD]
  {
    hide U32, U16, FromU32, FromU16;
    U32Onto(h[0..4]);
    U16Onto(h[6..8]);
    U32Onto(h[8..12]);
    U32Onto(h[12..16]);
    U32Onto(h[16..20]);
    U32Onto(h[20..24]);
    assert h[4..6] == [h[4]] + [h[5]];
    assert h[..OVERHEAD] == h[0..4] + h[4..6] + h[6..8] + h[8..12] + h[12..16] + h[16..20] + h[20..24];
  }

  lemma OnWireIsIdentityIffFits(s: Seg)
    ensures OnWire(s) == s <==> Fits(s)
  {
    Cut(s.conv, TWO_32);
    Cut(s.cmd, TWO_8);
    Cut(s.frg, TWO_8);
    Cut(s.wnd, TWO_16);
    Cut(s.ts, TWO_32);
    Cut(s.sn, TWO_32);
    Cut(s.una, TWO_32);
  }

  lemma Cut(v: nat, m: nat)
    requires m > 0
    ensures v % m == v <==> v < m
  {
  }

  /** The header loses nothing exactly when every field fits its width. */
  lemma LosslessIffFits(s: Seg)
    requires |s.data| < TWO_32
    ensures FromHeader(Header(s) + [], s.data) == s <==> Fits(s)
  {
    HeaderRoundTrip(s, []);
    OnWireIsIdentityIffFits(s);
  }

  /** `binary.BigEndian.PutUint16` into a buffer. */
  method PutUint16(a: array<byte>, off: nat, v: nat)
    requires off + 2 <= a.Length
    modifies a
    ensures a[..] == old(a[..off]) + U16(v) + old(a[off + 2..])
  {
    a[off] := (v / 0x100 % 0x100) as byte;
    a[off + 1] := (v % 0x100) as byte;
  }

  /** `binary.BigEndian.PutUint32` into a buffer, half by half. */
  method PutUint32(a: array<byte>, off: nat, v: nat)
    requires off + 4 <= a.Length
    modifies a
    ensures a[..] == old(a[..off]) + U32(v) + old(a[off + 4..])
  {
    PutUint16(a, off, v / TWO_16);
    PutUint16(a, off + 2, v);
  }

  /** The first eight bytes: conversation, command, fragment, window. */
  method EncodeFront(a: array<byte>, s: Seg)
    requires a.Length == OVERHEAD
    modifies a
    ensures a[..8] == U32(s.conv) + [(s.cmd % TWO_8) as byte] + [(s.frg % TWO_8) as byte] + U16(s.wnd)
  {
    hide U32, U16;
    PutUint32(a, 0, s.conv);
    a[4] := (s.cmd % TWO_8) as byte;
    a[5] := (s.frg % TWO_8) as byte;
    PutUint16(a, 6, s.wnd);
  }

  /** The other sixteen: time, number, `una` and length. */
  method EncodeBack(a: array<byte>, s: Seg)
    requires a.Length == OVERHEAD
    modifies a
    ensures a[..8] == old(a[..8]) && a[8..] == U32(s.ts) + U32(s.sn) + U32(s.una) + U32(|s.data|)
  {
    hide U32, U16;
    PutUint32(a, 8, s.ts);
    PutUint32(a, 12, s.sn);
    assert a[8..16] == U32(s.ts) + U32(s.sn);
    PutUint32(a, 16, s.una);
    PutUint32(a, 20, |s.data|);
  }

  /** `IKCPSEG.Encode`, on a buffer of length 24: fills it field by field. */
  method Encode(s: Seg) returns (a: array<byte>)
    ensures fresh(a) && a[..] == Header(s)
  {
    hide U32, U16;
    a := new byte[OVERHEAD];
    EncodeFront(a, s);
    EncodeBack(a, s);
    assert a[..] == a[..8] + a[8..];
  }
}
