/** Length-prefixed frames on a TCP stream (net/clientConn/client_conn.go:44-106). */
module Framing {
  import opened Bytes
  import opened Lists

  datatype ClientMsg = ClientMsg(tag: int, body: seq<byte>)

  /** What reading reports: no byte of a head, part of a head, a body cut short. */
  datatype Fault = Eof | UnexpectedEof | BadBody

  datatype Reading = Message(msg: ClientMsg, rest: seq<byte>) | Failed(fault: Fault)

  const HEAD := 8

  /** `decode`: tag and length keep their last 32 bits. */
  function Decode(m: ClientMsg): (frame: seq<byte>)
    ensures |frame| == HEAD + |m.body|
  {
    U32(m.tag % TWO_32) + U32(|m.body|) + m.body
  }

  /** `uncode` on the bytes that the stream has still to give before it ends. */
  function Uncode(s: seq<byte>): (r: Reading)
    ensures r.Message? ==> |r.rest| + HEAD + |r.msg.body| == |s|
  {
    if s == [] then Failed(Eof)
    else if |s| < HEAD then Failed(UnexpectedEof)
    else
      var length := FromU32(s[4..8]);
      if |s| < HEAD + length then Failed(BadBody)
      else Message(ClientMsg(FromU32(s[..4]), s[8..8 + length]), s[8 + length..])
  }

  /** The reader's loop: messages up to the first fault. */
  datatype Session = Session(msgs: seq<ClientMsg>, fault: Fault)

  function UncodeAll(s: seq<byte>): Session
    decreases |s|
  {
    match Uncode(s)
    case Failed(fault) => Session([], fault)
    case Message(m, rest) =>
      var later := UncodeAll(rest);
      Session([m] + later.msgs, later.fault)
  }

  /** The frames of some messages, one after the other. */
  function Stream(ms: seq<ClientMsg>): (s: seq<byte>) {
    if ms == [] then [] else Decode(ms[0]) + Stream(ms[1..])
  }

  predicate Fits(m: ClientMsg) {
    0 <= m.tag < TWO_32 && |m.body| < TWO_32
  }

  // ----- One frame -----

  lemma HeadFields(m: ClientMsg, rest: seq<byte>)
    ensures var s := Decode(m) + rest;
            FromU32(s[..4]) == m.tag % TWO_32 && FromU32(s[4..8]) == |m.body| % TWO_32
  {
    var s := Decode(m) + rest;
    assert s[..4] == U32(m.tag % TWO_32) && s[4..8] == U32(|m.body|);
    U32RoundTrip(m.tag % TWO_32);
    U32RoundTrip(|m.body|);
  }

  /** A frame is read back, and what follows it left alone, exactly when its tag is a 32-bit number
      and its length fits 32 bits. */
  lemma FrameRoundTripIff(m: ClientMsg, rest: seq<byte>)
    ensures Uncode(Decode(m) + rest) == Message(m, rest) <==> Fits(m)
  {
    HeadFields(m, rest);
    var s := Decode(m) + rest;
    if Fits(m) {
      hide U32, FromU32;
      assert s[8..8 + |m.body|] == m.body && s[8 + |m.body|..] == rest;
    }
  }

  /** What is read is what was framed: no two streams give the same message and the same rest. */
  lemma UncodeExact(s: seq<byte>)
    requires Uncode(s).Message?
    ensures Fits(Uncode(s).msg) && s == Decode(Uncode(s).msg) + Uncode(s).rest
  {
    U32Onto(s[..4]);
    U32Onto(s[4..8]);
    var length := FromU32(s[4..8]);
    hide U32, FromU32;
    assert s == s[..4] + s[4..8] + s[8..8 + length] + s[8 + length..];
  }

  // ----- Many frames -----

  lemma {:induction false} StreamConcat(ms: seq<ClientMsg>, ns: seq<ClientMsg>)
    ensures Stream(ms + ns) == Stream(ms) + Stream(ns)
  {
    hide Stream, Decode;
    NoFrames();
    if ms == [] {
      assert ms + ns == ns;
    } else {
      StreamConcat(ms[1..], ns);
      StreamCons(ms[0], ms[1..]);
      StreamCons(ms[0], ms[1..] + ns);
      assert ms == [ms[0]] + ms[1..];
      assert ms + ns == [ms[0]] + (ms[1..] + ns);
    }
  }

  lemma NoFrames()
    ensures Stream([]) == []
  {
  }

  lemma StreamCons(m: ClientMsg, ms: seq<ClientMsg>)
    ensures Stream([m] + ms) == Decode(m) + Stream(ms)
  {
    assert ([m] + ms)[1..] == ms;
  }

  lemma StreamOne(m: ClientMsg)
    ensures Stream([m]) == Decode(m)
  {
    assert [m][1..] == [];
  }

  /** Whole frames in front are read off, message by message. */
  lemma {:induction false} ReadOff(ms: seq<ClientMsg>, rest: seq<byte>)
    requires forall m <- ms :: Fits(m)
    ensures UncodeAll(Stream(ms) + rest) == Session(ms + UncodeAll(rest).msgs, UncodeAll(rest).fault)
  {
    hide Decode, Uncode;
    if ms == [] {
      assert Stream(ms) + rest == rest && ms + UncodeAll(rest).msgs == UncodeAll(rest).msgs;
    } else {
      var after := Stream(ms[1..]) + rest;
      ReadOff(ms[1..], rest);
      FrameRoundTripIff(ms[0], after);
      assert Stream(ms) + rest == Decode(ms[0]) + after;
      assert [ms[0]] + (ms[1..] + UncodeAll(rest).msgs) == ms + UncodeAll(rest).msgs;
    }
  }

  /** Reading inverts framing, for every list of messages. */
  lemma StreamRoundTrip(ms: seq<ClientMsg>)
    requires forall m <- ms :: Fits(m)
    ensures UncodeAll(Stream(ms)) == Session(ms, Eof)
  {
    ReadOff(ms, []);
    AppendNothing(Stream(ms));
    AppendNothing(ms);
  }

  /** Framing inverts reading, for every stream of bytes: the messages read are the whole frames at
      its front, and the fault tells what the bytes behind them look like. */
  lemma {:induction false} ReadingIsExact(s: seq<byte>) returns (rest: seq<byte>)
    ensures s == Stream(UncodeAll(s).msgs) + rest
    ensures forall m <- UncodeAll(s).msgs :: Fits(m)
    ensures Uncode(rest) == Failed(UncodeAll(s).fault)
    decreases |s|
  {
    hide Decode, Uncode, Fits, Stream;
    var r := Uncode(s);
    if r.Failed? {
      rest := s;
      RestOnly(s);
    } else {
      UncodeExact(s);
      rest := ReadingIsExact(r.rest);
      FrontFrame(r.msg, UncodeAll(r.rest).msgs, rest);
    }
  }

  lemma RestOnly(s: seq<byte>)
    ensures Stream([]) + s == s
  {
  }

  lemma FrontFrame(m: ClientMsg, ms: seq<ClientMsg>, rest: seq<byte>)
    ensures Decode(m) + (Stream(ms) + rest) == Stream([m] + ms) + rest
  {
    hide Decode;
    assert ([m] + ms)[1..] == ms;
  }

  /** What a proper part of a frame reads as. */
  function CutFault(n: nat): Fault {
    if n == 0 then Eof else if n < HEAD then UnexpectedEof else BadBody
  }

  lemma CutFrame(m: ClientMsg, n: nat)
    requires Fits(m) && n < |Decode(m)|
    ensures Uncode(Decode(m)[..n]) == Failed(CutFault(n))
  {
    HeadFields(m, []);
    AppendNothing(Decode(m));
    var s := Decode(m)[..n];
    if n >= HEAD {
      hide U32, FromU32;
      assert s[4..8] == Decode(m)[4..8];
    }
  }

  lemma FrameBounds(ms: seq<ClientMsg>, k: nat)
    requires k < |ms|
    ensures Stream(ms) == Stream(ms[..k]) + (Decode(ms[k]) + Stream(ms[k + 1..]))
  {
    hide Stream, Decode;
    SplitAround(ms, k);
    StreamConcat(ms[..k], [ms[k]] + ms[k + 1..]);
    StreamCons(ms[k], ms[k + 1..]);
  }

  /** A stream cut anywhere inside frame `k` gives exactly the `k` messages before it, then the fault
      that the cut explains. */
  lemma CutStream(ms: seq<ClientMsg>, k: nat, n: nat)
    requires forall m <- ms :: Fits(m)
    requires k < |ms| && n < |Decode(ms[k])|
    ensures |Stream(ms[..k])| + n < |Stream(ms)|
    ensures UncodeAll(Stream(ms)[..|Stream(ms[..k])| + n]) == Session(ms[..k], CutFault(n))
  {
    FrameBounds(ms, k);
    CutFrame(ms[k], n);
    ReadOff(ms[..k], Decode(ms[k])[..n]);
    AppendNothing(ms[..k]);
    hide Stream, Decode, Uncode, CutFault;
    assert Stream(ms)[..|Stream(ms[..k])| + n] == Stream(ms[..k]) + Decode(ms[k])[..n];
  }

  /** Every cut is inside some frame. */
  lemma {:induction false} CutIsInAFrame(ms: seq<ClientMsg>, cut: nat) returns (k: nat, n: nat)
    requires cut < |Stream(ms)|
    ensures k < |ms| && n < |Decode(ms[k])| && cut == |Stream(ms[..k])| + n
  {
    if cut < |Decode(ms[0])| {
      k, n := 0, cut;
      assert ms[..0] == [];
    } else {
      k, n := CutIsInAFrame(ms[1..], cut - |Decode(ms[0])|);
      k := k + 1;
      assert ms[..k][1..] == ms[1..][..k - 1];
    }
  }

  /** On any truncated stream the reader gets exactly the messages whose frames are complete, then a
      fault; a clean end of file only at a frame boundary. */
  lemma TruncatedStream(ms: seq<ClientMsg>, cut: nat) returns (k: nat)
    requires forall m <- ms :: Fits(m)
    requires cut < |Stream(ms)|
    ensures k < |ms| && |Stream(ms[..k])| <= cut < |Stream(ms[..k + 1])|
    ensures UncodeAll(Stream(ms)[..cut]).msgs == ms[..k]
    ensures UncodeAll(Stream(ms)[..cut]).fault == Eof <==> cut == |Stream(ms[..k])|
  {
    var n;
    k, n := CutIsInAFrame(ms, cut);
    CutStream(ms, k, n);
    StreamConcat(ms[..k], [ms[k]]);
    StreamOne(ms[k]);
    assert ms[..k + 1] == ms[..k] + [ms[k]];
  }

  // ----- The connection object -----

  /** The reading side of `ClientConn_tcp`: bytes still to come, and the messages handed over. */
  class ClientConnTcp {
    var inStream: seq<byte>
    var recvQueue: seq<ClientMsg>
    var closed: bool

    constructor (incoming: seq<byte>)
      ensures inStream == incoming && recvQueue == [] && !closed
    {
      inStream, recvQueue, closed := incoming, [], false;
    }

    /** `io.ReadFull`: fills the buffer or takes all there is. */
    method ReadFull(n: nat) returns (buffer: seq<byte>, ok: bool)
      modifies this`inStream
      ensures ok <==> n <= |old(inStream)|
      ensures buffer + inStream == old(inStream) && |buffer| == if ok then n else |old(inStream)|
    {
      var m := if n <= |inStream| then n else |inStream|;
      ok := n <= |inStream|;
      buffer := inStream[..m];
      inStream := inStream[m..];
    }

    method UncodeOne() returns (r: Reading)
      modifies this`inStream
      ensures r == Uncode(old(inStream))
      ensures inStream == if r.Message? then r.rest else []
    {
      hide U32, FromU32;
      ghost var s := inStream;
      var head, ok := ReadFull(HEAD);
      if !ok {
        assert head + [] == s;
        return Failed(if |head| == 0 then Eof else UnexpectedEof);
      }
      assert s == head + inStream && s[..4] == head[..4] && s[4..8] == head[4..];
      ghost var behind := inStream;
      var tag, length := FromU32(head[..4]), FromU32(head[4..]);
      var body;
      body, ok := ReadFull(length);
      if !ok {
        assert body + [] == behind;
        return Failed(BadBody);
      }
      assert s == head + body + inStream;
      assert s[8..8 + length] == body && s[8 + length..] == inStream;
      return Message(ClientMsg(tag, body), inStream);
    }

    /** `ReadRecvMsg`: hands over every whole message, then closes the connection. */
    method ReadRecvMsg() returns (fault: Fault)
      modifies this
      ensures recvQueue == old(recvQueue) + UncodeAll(old(inStream)).msgs
      ensures fault == UncodeAll(old(inStream)).fault
      ensures closed && inStream == []
    {
      hide Uncode;
      while true
        invariant recvQueue + UncodeAll(inStream).msgs == old(recvQueue) + UncodeAll(old(inStream)).msgs
        invariant UncodeAll(inStream).fault == UncodeAll(old(inStream)).fault
        decreases |inStream|
      {
        ghost var s, q := inStream, recvQueue;
        var r := UncodeOne();
        if r.Failed? {
          AppendNothing(q);
          closed := true;
          return r.fault;
        }
        recvQueue := recvQueue + [r.msg];
        assert recvQueue + UncodeAll(inStream).msgs == q + ([r.msg] + UncodeAll(inStream).msgs);
      }
    }
  }
}
