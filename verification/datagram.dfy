/** Datagrams: the parse loop of `Input` and the packing of `Flush` (kcp/kcp.go). */
module Datagrams {
  import opened Bytes
  import opened Lists
  import opened Segments

  /** The segments read before the loop stopped, and the code it stopped with. */
  datatype Parsed = Parsed(segs: seq<Seg>, code: int)

  /** The parse loop: fewer than 24 bytes left ends it, a bad header aborts it. */
  function Parse(conv: nat, data: seq<byte>): Parsed
    decreases |data|
  {
    if |data| < OVERHEAD then Parsed([], 0)
    else
      var head := FromHeader(data, []);
      var len, body := LenField(data), data[OVERHEAD..];
      if head.conv != conv then Parsed([], -1)
      else if |body| < len then Parsed([], -2)
      else if !KnownCmd(head.cmd) then Parsed([], -3)
      else
        var rest := Parse(conv, body[len..]);
        Parsed([head.(data := body[..len])] + rest.segs, rest.code)
  }

  /** All segments of a list of datagrams, in order. */
  function ParseAll(conv: nat, ds: seq<seq<byte>>): seq<Seg> {
    if ds == [] then []
    else ParseAll(conv, ds[..|ds| - 1]) + Parse(conv, ds[|ds| - 1]).segs
  }

  function Wires(segs: seq<Seg>): seq<byte> {
    if segs == [] then [] else Wires(segs[..|segs| - 1]) + Wire(segs[|segs| - 1])
  }

  function OnWires(segs: seq<Seg>): seq<Seg> {
    seq(|segs|, i requires 0 <= i < |segs| => OnWire(segs[i]))
  }

  /** A segment an endpoint of conversation `conv` with this MTU may emit. */
  predicate Sendable(conv: nat, mtu: nat, s: Seg) {
    s.conv == conv < TWO_32 && KnownCmd(s.cmd) && OVERHEAD + |s.data| <= mtu < TWO_32
  }

  lemma {:induction false} WiresConcat(xs: seq<Seg>, ys: seq<Seg>)
    ensures Wires(xs + ys) == Wires(xs) + Wires(ys)
  {
    if ys == [] {
      AppendNothing(xs);
      AppendNothing(Wires(xs));
    } else {
      var n := |ys| - 1;
      WiresConcat(xs, ys[..n]);
      AppendSplit(xs, ys);
      SplitLast(ys);
      WiresStep(xs + ys[..n], ys[n]);
      WiresStep(ys[..n], ys[n]);
      hide Wires, Wire;
    }
  }

  lemma WiresStep(xs: seq<Seg>, s: Seg)
    ensures Wires(xs + [s]) == Wires(xs) + Wire(s)
  {
    assert (xs + [s])[..|xs|] == xs;
  }

  lemma WireHead(s: Seg, tail: seq<byte>)
    requires |s.data| < TWO_32
    ensures var d := Wire(s) + tail;
            && |d| == OVERHEAD + |s.data| + |tail|
            && LenField(d) == |s.data| && FromHeader(d, []) == OnWire(s).(data := [])
            && d[OVERHEAD..][..|s.data|] == s.data && d[OVERHEAD..][|s.data|..] == tail
  {
    var d := Wire(s) + tail;
    assert d == Header(s) + (s.data + tail);
    HeaderRoundTrip(s, s.data + tail);
  }

  lemma OnWiresConcat(xs: seq<Seg>, ys: seq<Seg>)
    ensures OnWires(xs + ys) == OnWires(xs) + OnWires(ys)
    ensures OnWires([]) == []
  {
    hide OnWire;
  }

  lemma Single(s: Seg)
    ensures Wires([s]) == Wire(s) && OnWires([s]) == [OnWire(s)]
  {
    assert [s][..0] == [];
    hide Wire, OnWire;
  }

  lemma OnWireKeeps(s: Seg)
    requires s.conv < TWO_32 && KnownCmd(s.cmd)
    ensures OnWire(s).conv == s.conv && OnWire(s).cmd == s.cmd && OnWire(s).data == s.data
  {
  }

  lemma ParseOne(conv: nat, mtu: nat, s: Seg, tail: seq<byte>)
    requires Sendable(conv, mtu, s)
    ensures var rest := Parse(conv, tail);
            Parse(conv, Wire(s) + tail) == Parsed([OnWire(s)] + rest.segs, rest.code)
  {
    WireHead(s, tail);
    hide Wire, LenField, FromHeader, OnWire, KnownCmd;
    var d := Wire(s) + tail;
    assert KnownCmd(OnWire(s).cmd) && OnWire(s).conv == conv by {
      OnWireKeeps(s);
    }
  }

  /** Parsing inverts printing, for every list of segments. */
  lemma {:induction false} ParseWires(conv: nat, mtu: nat, segs: seq<Seg>)
    requires forall s <- segs :: Sendable(conv, mtu, s)
    ensures Parse(conv, Wires(segs)) == Parsed(OnWires(segs), 0)
  {
    OnWiresConcat([], []);
    if segs != [] {
      hide Wire, Wires, OnWire, OnWires, Parse;
      var s, rest := segs[0], segs[1..];
      assert segs == [s] + rest;
      assert s in segs && forall x <- rest :: x in segs;
      ParseWires(conv, mtu, rest);
      ParseOne(conv, mtu, s, Wires(rest));
      WiresConcat([s], rest);
      OnWiresConcat([s], rest);
      Single(s);
    }
  }

  lemma ParseStep(conv: nat, data: seq<byte>) returns (s: Seg, tail: seq<byte>)
    requires |data| >= OVERHEAD && Refusal(conv, data) == 0
    ensures Parse(conv, data) == Parsed([s] + Parse(conv, tail).segs, Parse(conv, tail).code)
    ensures data == Wire(s) + tail && s.conv == conv && KnownCmd(s.cmd) && s.sn < TWO_32 && s.ts < TWO_32
  {
    hide KnownCmd, Header, FromU32, FromU16, LenField;
    var len, body := LenField(data), data[OVERHEAD..];
    s, tail := FromHeader(data, body[..len]), body[len..];
    HeaderOnto(data, body[..len]);
    assert data == data[..OVERHEAD] + (body[..len] + tail);
  }

  /** Why a header is refused; 0 if it is not. */
  function Refusal(conv: nat, data: seq<byte>): int
    requires |data| >= OVERHEAD
  {
    if FromU32(data[0..4]) != conv then -1
    else if |data| - OVERHEAD < LenField(data) then -2
    else if !KnownCmd(data[4] as nat) then -3
    else 0
  }

  /** Printing inverts parsing, for every string of bytes: the segments read are what stands at its
      front, byte for byte; what is left is shorter than a header, or a header refused with the code. */
  lemma {:induction false} ParseIsExact(conv: nat, data: seq<byte>) returns (rest: seq<byte>)
    ensures data == Wires(Parse(conv, data).segs) + rest
    ensures forall s <- Parse(conv, data).segs :: s.conv == conv && KnownCmd(s.cmd)
    ensures Parse(conv, data).code == if |rest| < OVERHEAD then 0 else Refusal(conv, rest)
    ensures Parse(conv, data).code == 0 <==> |rest| < OVERHEAD
    decreases |data|
  {
    hide Wire, KnownCmd, Wires, Parse, Refusal;
    if |data| < OVERHEAD || Refusal(conv, data) != 0 {
      rest := data;
      ParseStops(conv, data);
    } else {
      var s, tail := ParseStep(conv, data);
      rest := ParseIsExact(conv, tail);
      WiresFront(s, Parse(conv, tail).segs, rest);
    }
  }

  lemma ParseStops(conv: nat, data: seq<byte>)
    requires |data| < OVERHEAD || Refusal(conv, data) != 0
    ensures Parse(conv, data) == Parsed([], if |data| < OVERHEAD then 0 else Refusal(conv, data))
    ensures Wires([]) + data == data
  {
  }

  lemma WiresFront(s: Seg, segs: seq<Seg>, rest: seq<byte>)
    ensures Wire(s) + (Wires(segs) + rest) == Wires([s] + segs) + rest
  {
    hide Wire, Wires;
    WiresConcat([s], segs);
    Single(s);
  }

  /** Datagrams already handed to the output function, and the one being filled. */
  datatype Packing = Packing(out: seq<seq<byte>>, buf: seq<byte>)

  /** Emits the buffer first when the segment would push it over the MTU. */
  function Put(mtu: nat, pk: Packing, s: Seg): Packing {
    if |pk.buf| + OVERHEAD + |s.data| > mtu
    then Packing(pk.out + [pk.buf], Wire(s))
    else Packing(pk.out, pk.buf + Wire(s))
  }

  function PutAll(mtu: nat, segs: seq<Seg>): Packing {
    if segs == [] then Packing([], [])
    else Put(mtu, PutAll(mtu, segs[..|segs| - 1]), segs[|segs| - 1])
  }

  function Close(pk: Packing): seq<seq<byte>> {
    if |pk.buf| > 0 then pk.out + [pk.buf] else pk.out
  }

  /** The datagrams one `Flush` emits for the segments it sends, in order. */
  function Pack(mtu: nat, segs: seq<Seg>): seq<seq<byte>> {
    Close(PutAll(mtu, segs))
  }

  lemma PutAllStep(mtu: nat, segs: seq<Seg>, s: Seg)
    ensures PutAll(mtu, segs + [s]) == Put(mtu, PutAll(mtu, segs), s)
  {
    assert (segs + [s])[..|segs|] == segs;
  }

  /** `d` is some whole segments and nothing else, and fits the MTU. */
  predicate WholeDatagram(conv: nat, mtu: nat, d: seq<byte>) {
    && 0 < |d| <= mtu
    && Parse(conv, d).code == 0
    && |Wires(Parse(conv, d).segs)| == |d|
  }

  lemma {:induction false} WiresLength(segs: seq<Seg>)
    ensures |Wires(OnWires(segs))| == |Wires(segs)|
  {
    if segs != [] {
      var n := |segs| - 1;
      WiresLength(segs[..n]);
      assert OnWires(segs)[..n] == OnWires(segs[..n]);
    }
  }

  lemma ParseAllStep(conv: nat, ds: seq<seq<byte>>, d: seq<byte>)
    ensures ParseAll(conv, ds + [d]) == ParseAll(conv, ds) + Parse(conv, d).segs
  {
    assert (ds + [d])[..|ds|] == ds;
  }

  /** The open buffer holds the segments from the `k`-th on; the emitted datagrams the rest. */
  ghost predicate Parts(conv: nat, mtu: nat, segs: seq<Seg>, pk: Packing, k: nat) {
    && k <= |segs| && (segs != [] ==> k < |segs|)
    && pk.buf == Wires(segs[k..]) && |pk.buf| <= mtu
    && ParseAll(conv, pk.out) == OnWires(segs[..k])
    && forall d <- pk.out :: WholeDatagram(conv, mtu, d)
  }

  /** Emitting a full buffer. */
  lemma Flushed(conv: nat, mtu: nat, out: seq<seq<byte>>, segs: seq<Seg>)
    requires forall s <- segs :: Sendable(conv, mtu, s)
    requires 0 < |Wires(segs)| <= mtu
    ensures WholeDatagram(conv, mtu, Wires(segs))
    ensures ParseAll(conv, out + [Wires(segs)]) == ParseAll(conv, out) + OnWires(segs)
  {
    hide Wires, OnWires, Parse;
    ParseWires(conv, mtu, segs);
    WiresLength(segs);
    ParseAllStep(conv, out, Wires(segs));
  }

  lemma PartsStep(conv: nat, mtu: nat, segs: seq<Seg>, s: Seg, pk: Packing, k: nat) returns (k': nat)
    requires Sendable(conv, mtu, s) && forall x <- segs :: Sendable(conv, mtu, x)
    requires Parts(conv, mtu, segs, pk, k)
    ensures Parts(conv, mtu, segs + [s], Put(mtu, pk, s), k')
    ensures k' == if |pk.buf| + OVERHEAD + |s.data| > mtu then |segs| else k
  {
    hide Wires, OnWire, OnWires, Parse, ParseAll;
    Single(s);
    if |pk.buf| + OVERHEAD + |s.data| > mtu {
      var done := segs[k..];
      Flushed(conv, mtu, pk.out, done);
      OnWiresConcat(segs[..k], done);
      assert segs[..k] + done == segs;
      k' := |segs|;
      assert (segs + [s])[k'..] == [s] && (segs + [s])[..k'] == segs;
    } else {
      WiresConcat(segs[k..], [s]);
      k' := k;
      assert (segs + [s])[k..] == segs[k..] + [s] && (segs + [s])[..k] == segs[..k];
    }
  }

  lemma NoParts(conv: nat, mtu: nat)
    ensures Parts(conv, mtu, [], Packing([], []), 0)
  {
  }

  lemma {:induction false} PutAllParts(conv: nat, mtu: nat, segs: seq<Seg>) returns (k: nat)
    requires forall s <- segs :: Sendable(conv, mtu, s)
    ensures Parts(conv, mtu, segs, PutAll(mtu, segs), k)
  {
    hide Parts, Put;
    if segs == [] {
      NoParts(conv, mtu);
      k := 0;
    } else {
      var n := |segs| - 1;
      var before, s := segs[..n], segs[n];
      assert s in segs && forall x <- before :: x in segs;
      k := PutAllParts(conv, mtu, before);
      k := PartsStep(conv, mtu, before, s, PutAll(mtu, before), k);
      assert before + [s] == segs;
    }
  }

  lemma SomeBytes(segs: seq<Seg>)
    requires segs != []
    ensures |Wires(segs)| > 0
  {
  }

  lemma CloseParts(conv: nat, mtu: nat, segs: seq<Seg>, pk: Packing, k: nat)
    requires segs != [] && forall s <- segs :: Sendable(conv, mtu, s)
    requires Parts(conv, mtu, segs, pk, k)
    ensures forall d <- Close(pk) :: WholeDatagram(conv, mtu, d)
    ensures ParseAll(conv, Close(pk)) == OnWires(segs)
  {
    hide Wire, Wires, OnWires, Parse, ParseAll;
    var last := segs[k..];
    SomeBytes(last);
    Flushed(conv, mtu, pk.out, last);
    OnWiresConcat(segs[..k], last);
    assert segs[..k] + last == segs;
  }

  /** Packing then parsing is the identity on what the wire carries: the datagrams are not
      empty, fit the MTU, split no segment, and give back exactly the segments, in order. */
  lemma PackParse(conv: nat, mtu: nat, segs: seq<Seg>)
    requires forall s <- segs :: Sendable(conv, mtu, s)
    ensures forall d <- Pack(mtu, segs) :: WholeDatagram(conv, mtu, d)
    ensures ParseAll(conv, Pack(mtu, segs)) == OnWires(segs)
  {
    var k := PutAllParts(conv, mtu, segs);
    if segs == [] {
      OnWiresConcat([], []);
    } else {
      CloseParts(conv, mtu, segs, PutAll(mtu, segs), k);
    }
  }

  /** What starts the datagram `e` would not have fitted behind `d`. */
  ghost predicate NoRoom(conv: nat, mtu: nat, d: seq<byte>, e: seq<byte>) {
    var segs := Parse(conv, e).segs;
    segs != [] && |d| + OVERHEAD + |segs[0].data| > mtu
  }

  ghost predicate AllFull(conv: nat, mtu: nat, ds: seq<seq<byte>>) {
    forall i :: 0 < i < |ds| ==> NoRoom(conv, mtu, ds[i - 1], ds[i])
  }

  /** Every emitted datagram is full, the last one against the `k`-th segment, which starts the open buffer. */
  ghost predicate Tight(conv: nat, mtu: nat, segs: seq<Seg>, pk: Packing, k: nat) {
    && k <= |segs| && AllFull(conv, mtu, pk.out)
    && (pk.out != [] ==> k < |segs| && |pk.out[|pk.out| - 1]| + OVERHEAD + |segs[k].data| > mtu)
  }

  lemma FullAppend(conv: nat, mtu: nat, ds: seq<seq<byte>>, segs: seq<Seg>)
    requires AllFull(conv, mtu, ds) && segs != [] && forall x <- segs :: Sendable(conv, mtu, x)
    requires ds != [] ==> |ds[|ds| - 1]| + OVERHEAD + |segs[0].data| > mtu
    ensures AllFull(conv, mtu, ds + [Wires(segs)])
  {
    hide Parse, Wires;
    ParseWires(conv, mtu, segs);
    assert segs[0] in segs;
    OnWireKeeps(segs[0]);
  }

  lemma TightStep(conv: nat, mtu: nat, segs: seq<Seg>, s: Seg, pk: Packing, k: nat)
    requires Sendable(conv, mtu, s) && forall x <- segs :: Sendable(conv, mtu, x)
    requires Parts(conv, mtu, segs, pk, k) && Tight(conv, mtu, segs, pk, k)
    ensures var full := |pk.buf| + OVERHEAD + |s.data| > mtu;
            Tight(conv, mtu, segs + [s], Put(mtu, pk, s), if full then |segs| else k)
  {
    hide Wire, Wires, Parse, ParseAll, OnWires, AllFull;
    if |pk.buf| + OVERHEAD + |s.data| > mtu {
      EmptyWires();
      assert segs != [] && forall x <- segs[k..] :: x in segs;
      FullAppend(conv, mtu, pk.out, segs[k..]);
    }
  }

  lemma NoneTight(conv: nat, mtu: nat)
    ensures Tight(conv, mtu, [], Packing([], []), 0)
  {
  }

  lemma EmptyWires()
    ensures Wires([]) == []
  {
  }

  lemma {:induction false} PutAllTight(conv: nat, mtu: nat, segs: seq<Seg>) returns (k: nat)
    requires forall s <- segs :: Sendable(conv, mtu, s)
    ensures Parts(conv, mtu, segs, PutAll(mtu, segs), k) && Tight(conv, mtu, segs, PutAll(mtu, segs), k)
  {
    hide Parts, Put, Tight, Parse;
    if segs == [] {
      NoParts(conv, mtu);
      NoneTight(conv, mtu);
      k := 0;
    } else {
      var n := |segs| - 1;
      var before, s := segs[..n], segs[n];
      assert s in segs && forall x <- before :: x in segs;
      k := PutAllTight(conv, mtu, before);
      TightStep(conv, mtu, before, s, PutAll(mtu, before), k);
      k := PartsStep(conv, mtu, before, s, PutAll(mtu, before), k);
      assert before + [s] == segs;
    }
  }

  /** No datagram is emitted early: the first segment of the next one would not have fitted. */
  lemma PackedTight(conv: nat, mtu: nat, segs: seq<Seg>)
    requires forall s <- segs :: Sendable(conv, mtu, s)
    ensures AllFull(conv, mtu, Pack(mtu, segs))
  {
    var k := PutAllTight(conv, mtu, segs);
    hide Wires, Parse, AllFull, ParseAll, OnWires;
    if segs != [] && |PutAll(mtu, segs).buf| > 0 {
      assert forall x <- segs[k..] :: x in segs;
      FullAppend(conv, mtu, PutAll(mtu, segs).out, segs[k..]);
    }
  }

  lemma {:induction false} ParseAllMember(conv: nat, ds: seq<seq<byte>>, d: seq<byte>, s: Seg)
    requires d in ds && s in Parse(conv, d).segs
    ensures s in ParseAll(conv, ds)
  {
    var n := |ds| - 1;
    if d != ds[n] {
      ParseAllMember(conv, ds[..n], d, s);
    }
  }

  /** Nothing but a segment that was sent can be read out of an emitted datagram. */
  lemma PackedOnly(conv: nat, mtu: nat, segs: seq<Seg>, d: seq<byte>, s: Seg)
    requires forall x <- segs :: Sendable(conv, mtu, x)
    ensures d in Pack(mtu, segs) && s in Parse(conv, d).segs ==> exists x :: x in segs && s == OnWire(x)
  {
    hide Sendable, Pack, Parse, ParseAll, OnWire;
    if d in Pack(mtu, segs) && s in Parse(conv, d).segs {
      PackParse(conv, mtu, segs);
      ParseAllMember(conv, Pack(mtu, segs), d, s);
      var i :| 0 <= i < |segs| && OnWires(segs)[i] == s;
      assert segs[i] in segs;
    }
  }
}
