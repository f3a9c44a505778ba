/** The header printed into a buffer of length 0, as written (kcp/seg.go:6-17). */
module WrittenHeaders {
  import opened Bytes
  import opened Departures
  import opened Segments

  /** A Go slice of bytes: its backing array up to its capacity, and its length. */
  datatype Slice = Slice(store: seq<byte>, len: nat)

  /** `make([]byte, len, cap)` */
  function MakeSlice(len: nat, cap: nat): Slice {
    Slice(seq(cap, _ => 0 as byte), len)
  }

  /** A write through `data[at:at + n]`: slicing is checked against the capacity. */
  function PutWide(data: Go<Slice>, at: nat, bytes: seq<byte>): Go<Slice> {
    match data
    case Panic => Panic
    case Done(d) =>
      if at + |bytes| > |d.store| then Panic
      else Done(d.(store := d.store[..at] + bytes + d.store[at + |bytes|..]))
  }

  /** A write through `data[at]`: indexing is checked against the length. */
  function PutByte(data: Go<Slice>, at: nat, b: byte): Go<Slice> {
    match data
    case Panic => Panic
    case Done(d) => if at >= d.len || at >= |d.store| then Panic else Done(d.(store := d.store[at := b]))
  }

  /** `Encode`, write by write, on a slice made with any length and capacity. */
  function WrittenEncode(len: nat, cap: nat, s: Seg): Go<seq<byte>>
    requires len <= cap
  {
    var d0 := Done(MakeSlice(len, cap));
    var d1 := PutWide(d0, 0, U32(s.conv));
    var d2 := PutByte(d1, 4, (s.cmd % TWO_8) as byte);
    var d3 := PutByte(d2, 5, (s.frg % TWO_8) as byte);
    var d4 := PutWide(d3, 6, U16(s.wnd));
    var d5 := PutWide(d4, 8, U32(s.ts));
    var d6 := PutWide(d5, 12, U32(s.sn));
    var d7 := PutWide(d6, 16, U32(s.una));
    var d8 := PutWide(d7, 20, U32(|s.data|));
    match d8
    case Panic => Panic
    case Done(d) => if d.len <= |d.store| then Done(d.store[..d.len]) else Panic
  }

  /** A slice whose first bytes are written. */
  function Filled(front: seq<byte>, len: nat, cap: nat): Go<Slice>
    requires |front| <= cap
  {
    Done(Slice(front + seq(cap - |front|, _ => 0 as byte), len))
  }

  lemma WideStep(front: seq<byte>, len: nat, cap: nat, bytes: seq<byte>)
    requires |front| + |bytes| <= cap
    ensures PutWide(Filled(front, len, cap), |front|, bytes) == Filled(front + bytes, len, cap)
  {
    var zeros := seq(cap - |front|, _ => 0 as byte);
    assert (front + zeros)[..|front|] == front;
    assert (front + zeros)[|front| + |bytes|..] == seq(cap - |front| - |bytes|, _ => 0 as byte);
  }

  lemma ByteStep(front: seq<byte>, len: nat, cap: nat, b: byte)
    requires |front| < len <= cap
    ensures PutByte(Filled(front, len, cap), |front|, b) == Filled(front + [b], len, cap)
  {
    var zeros := seq(cap - |front|, _ => 0 as byte);
    assert (front + zeros)[|front| := b] == front + [b] + seq(cap - |front| - 1, _ => 0 as byte);
  }

  lemma Headed(s: Seg, len: nat, cap: nat)
    requires 6 <= len <= cap && OVERHEAD <= cap
    ensures WrittenEncode(len, cap, s) == Done((Header(s) + seq(cap - OVERHEAD, _ => 0 as byte))[..len])
  {
    hide PutWide, PutByte, U32, U16;
    assert MakeSlice(len, cap).store == [] + seq(cap, _ => 0 as byte);
    var f1 := U32(s.conv);
    var f2 := f1 + [(s.cmd % TWO_8) as byte];
    var f3 := f2 + [(s.frg % TWO_8) as byte];
    var f4 := f3 + U16(s.wnd);
    var f5 := f4 + U32(s.ts);
    var f6 := f5 + U32(s.sn);
    var f7 := f6 + U32(s.una);
    assert [] + f1 == f1;
    WideStep([], len, cap, U32(s.conv));
    ByteStep(f1, len, cap, (s.cmd % TWO_8) as byte);
    ByteStep(f2, len, cap, (s.frg % TWO_8) as byte);
    WideStep(f3, len, cap, U16(s.wnd));
    WideStep(f4, len, cap, U32(s.ts));
    WideStep(f5, len, cap, U32(s.sn));
    WideStep(f6, len, cap, U32(s.una));
    WideStep(f7, len, cap, U32(|s.data|));
    assert Header(s) == f7 + U32(|s.data|);
  }

  /** The header comes out for exactly those slices that are made 24 bytes long, whatever their capacity. */
  lemma WrittenEncodeIff(len: nat, cap: nat, s: Seg)
    requires len <= cap
    ensures WrittenEncode(len, cap, s) == Done(Header(s)) <==> len == OVERHEAD
  {
    if 6 <= len && OVERHEAD <= cap {
      Headed(s, len, cap);
      hide WrittenEncode, Header;
      assert (Header(s) + seq(cap - OVERHEAD, _ => 0 as byte))[..OVERHEAD] == Header(s);
    } else {
      ShortSlicePanics(len, cap, s);
    }
  }

  lemma ShortSlicePanics(len: nat, cap: nat, s: Seg)
    requires len <= cap && (len < 6 || cap < OVERHEAD)
    ensures WrittenEncode(len, cap, s) == Panic
  {
    hide U32, U16;
  }

  /** As written, with length 0 and capacity 24, every call panics at its fifth byte. */
  lemma WrittenEncodePanics(s: Seg)
    ensures PutWide(Done(MakeSlice(0, OVERHEAD)), 0, U32(s.conv)) != Panic
    ensures WrittenEncode(0, OVERHEAD, s) == Panic
  {
    ShortSlicePanics(0, OVERHEAD, s);
    hide U32, WrittenEncode;
  }
}
