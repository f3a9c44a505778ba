/** Concrete runs: states an endpoint reaches, and what the written forms of `Departures` do there. */
module Scenarios {
  import opened Bytes
  import opened Departures
  import opened Segments
  import opened Endpoints
  import opened WrittenDeletions
  import AckListRuns
  import Congestion
  import CopiedRuns
  import D = Datagrams
  import Emissions
  import LaggingRuns
  import M = Messages
  import P = Probing
  import R = Receivers
  import Rtt = RttEstimator
  import S = Senders
  import T = Retransmission

  // ----- Single events -----

  lemma OneMore(conv: nat, es: seq<Event>, e: Event)
    ensures ApplyAll(Create(conv), es + [e]) == Apply(ApplyAll(Create(conv), es), e)
  {
    assert (es + [e])[..|es|] == es;
  }

  /** A datagram of one segment. */
  lemma OneSegment(p: Pcb, s: Seg)
    requires s.conv == p.cfg.conv < TWO_32 && KnownCmd(s.cmd) && Fits(s) && |s.data| < MTU_DEF
    ensures D.Parse(p.cfg.conv, Wire(s)) == D.Parsed([s], 0)
    ensures Input(p, Wire(s)) == Outcome(Conclude(ProcessSeg(Pass(p, NoAck), s), p.snd.una), 0)
  {
    hide Wire, OnWire, ProcessSeg, Conclude;
    D.ParseOne(p.cfg.conv, MTU_DEF + OVERHEAD, s, []);
    assert Wire(s) + [] == Wire(s);
    assert D.Parse(p.cfg.conv, []) == D.Parsed([], 0);
    OnWireIsIdentityIffFits(s);
    OneOfAll(Pass(p, NoAck), s);
  }

  lemma OneOfAll(a: Pass, s: Seg)
    ensures ProcessAll(a, [s]) == ProcessSeg(a, s)
  {
    assert [s][..0] == [];
    hide ProcessSeg;
  }

  lemma SendOne(p: Pcb, b: byte)
    requires p.cfg.mss > 0
    ensures Send(p, [b]).pcb == p.(snd := p.snd.(queue := p.snd.queue + [Waiting(Payload(0, [b]))]))
  {
    assert M.Fragment([b], p.cfg.mss) == [Payload(0, [b])];
    assert WaitingAll([Payload(0, [b])]) == [Waiting(Payload(0, [b]))];
  }

  /** A flush with one segment waiting, room for it, and nothing else to transmit. */
  lemma FlushSendsOne(p: Pcb, w: Seg)
    requires p.updated != 0 && p.snd.queue == [w] && p.snd.nxt < p.snd.una + Window(p)
    requires forall s <- p.snd.buf :: Resting(s, FlushContext(p))
    ensures var q, first := Flush(p).pcb, T.Touch(S.Stamped(StampOf(p), w, p.snd.nxt), FlushContext(p));
            && q.snd == S.Sender(p.snd.una, p.snd.nxt + 1, p.snd.buf + [first], [])
            && q.rcv == p.rcv && q.rtt == p.rtt && q.cfg == p.cfg && q.current == p.current
            && q.updated == p.updated && q.rmtWnd == p.rmtWnd && q.acks == []
  {
    var limit := p.snd.una + Window(p);
    var entering := S.Stamped(StampOf(p), w, p.snd.nxt);
    S.AdmitPrefix(p.snd, limit, StampOf(p));
    assert S.Numbered(p.snd, 1, StampOf(p)) == [entering];
    assert Admitted(p) == S.Sender(p.snd.una, p.snd.nxt + 1, p.snd.buf + [entering], []);
    hide S.Admit, Window, StampOf, FlushContext, T.Touch, Congestion.React, Dead, T.CountKind, Admitted, D.Pack, P.Tick;
    CopiedDataLoopIff(p.snd.buf, FlushContext(p));
    assert T.TouchAll(p.snd.buf + [entering], FlushContext(p)) == T.TouchAll(p.snd.buf, FlushContext(p)) + [T.Touch(entering, FlushContext(p))];
  }

  // ----- An endpoint that sends -----

  const OPEN: seq<Event> := [DoSettings(0, INTERVAL, 0, 1), DoClock(0)]

  /** A fresh endpoint that is running, without congestion control. */
  function Opened(conv: nat): Pcb {
    Create(conv).(cfg := Create(conv).cfg.(nocwnd := 1), updated := 1)
  }

  lemma OpenedState(conv: nat)
    ensures ApplyAll(Create(conv), OPEN) == Opened(conv)
  {
    assert OPEN == [] + [DoSettings(0, INTERVAL, 0, 1)] + [DoClock(0)];
    OneMore(conv, [DoSettings(0, INTERVAL, 0, 1)], DoClock(0));
    OneMore(conv, [], DoSettings(0, INTERVAL, 0, 1));
  }

  /** A one-byte segment after its first transmission at time 0. */
  function SentSeg(conv: nat, sn: nat, b: byte): Seg {
    Seg(conv, CMD_PUSH, 0, WND_RCV, 0, sn, 0, 225, RTO_DEF, 0, 1, [b])
  }

  /** A running endpoint at time 0 that has received nothing and sends `b`. */
  lemma SendAndFlush(p: Pcb, b: byte) returns (q: Pcb)
    requires p.updated == 1 && p.cfg == Opened(p.cfg.conv).cfg && p.rtt == Rtt.FRESH && p.rcv == R.Receiver(0, WND_RCV, [], [])
    requires p.current == 0 && p.rmtWnd == WND_RCV && p.snd.queue == [] && p.snd.nxt <= p.snd.una + 1
    requires forall s <- p.snd.buf :: s.xmit == 1 && s.resendTs == 225 && s.fastack == 0
    ensures q == Flush(Send(p, [b]).pcb).pcb
    ensures q.snd == S.Sender(p.snd.una, p.snd.nxt + 1, p.snd.buf + [SentSeg(p.cfg.conv, p.snd.nxt, b)], [])
    ensures q.cfg == p.cfg && q.rtt == p.rtt && q.rcv == p.rcv && q.current == 0 && q.updated == 1 && q.rmtWnd == WND_RCV
  {
    var w := Waiting(Payload(0, [b]));
    SendOne(p, b);
    var r := p.(snd := p.snd.(queue := [w]));
    assert p.snd.queue + [w] == [w];
    q := Flush(r).pcb;
    FlushSendsOne(r, w);
  }

  const TWO_SENT: seq<Event> := OPEN + [DoSend([7]), DoFlush] + [DoSend([8]), DoFlush]

  lemma TwoMore(conv: nat, es: seq<Event>, e: Event, f: Event)
    ensures ApplyAll(Create(conv), es + [e, f]) == Apply(Apply(ApplyAll(Create(conv), es), e), f)
  {
    assert es + [e, f] == (es + [e]) + [f];
    OneMore(conv, es, e);
    OneMore(conv, es + [e], f);
  }

  /** Two one-byte messages in flight. */
  lemma TwoSentState(conv: nat)
    ensures var p := ApplyAll(Create(conv), TWO_SENT);
            && p.snd == S.Sender(0, 2, [SentSeg(conv, 0, 7), SentSeg(conv, 1, 8)], [])
            && p.cfg == Opened(conv).cfg && p.rtt == Rtt.FRESH && p.rcv == R.Receiver(0, WND_RCV, [], []) && p.current == 0
  {
    OpenedState(conv);
    TwoMore(conv, OPEN, DoSend([7]), DoFlush);
    TwoMore(conv, OPEN + [DoSend([7]), DoFlush], DoSend([8]), DoFlush);
    hide Flush, Send;
    var p := SendAndFlush(Opened(conv), 7);
    assert [] + [SentSeg(conv, 0, 7)] == [SentSeg(conv, 0, 7)];
    var q := SendAndFlush(p, 8);
  }

  // ----- An endpoint that receives -----

  /** A one-byte data segment as it is read off the wire. */
  function Pushed(conv: nat, sn: nat): Seg {
    Seg(conv, CMD_PUSH, 0, WND_RCV, 0, sn, 0, 0, 0, 0, 0, [0])
  }

  function Pushes(conv: nat, k: nat): (r: seq<Seg>)
    ensures |r| == k
  {
    seq(k, i requires 0 <= i < k => Pushed(conv, i))
  }

  function Arrival(conv: nat, sn: nat): Event {
    DoInput(Wire(Pushed(conv, sn)))
  }

  function Arrivals(conv: nat, k: nat): (r: seq<Event>)
    ensures |r| == k
  {
    seq(k, i requires 0 <= i < k => Arrival(conv, i))
  }

  lemma PushArrives(p: Pcb, sn: nat)
    requires p.cfg.conv < TWO_32 && R.InWindow(p.rcv, sn) && sn < TWO_32
    ensures var q := Apply(p, Arrival(p.cfg.conv, sn));
            q.rcv == R.ParseData(p.rcv, Pushed(p.cfg.conv, sn)) && q.cfg == p.cfg
  {
    var s := Pushed(p.cfg.conv, sn);
    OneSegment(p, s);
    hide Wire, Input, S.ShrinkBuf, S.ParseUna, R.ParseData, S.ParseFastack, Congestion.Grow;
  }

  lemma NextInLine(r: R.Receiver, s: Seg)
    requires r.buf == [] && |r.queue| < r.wnd && s.sn == r.nxt
    ensures R.ParseData(r, s) == r.(nxt := r.nxt + 1, queue := r.queue + [s])
  {
    var r1 := r.(buf := [s]);
    assert R.Insert([], s) == [s] && r1.buf[1..] == [];
    assert R.Drain(r1) == R.Drain(R.TakeHead(r1));
  }

  lemma Ahead(r: R.Receiver, s: Seg)
    requires r.buf == [] && r.nxt <= s.sn < r.nxt + r.wnd && (s.sn != r.nxt || |r.queue| >= r.wnd)
    ensures R.ParseData(r, s) == r.(buf := [s])
  {
    assert R.Insert([], s) == [s];
  }

  /** Segments 0 to k-1 arrive in order, up to a full queue. */
  lemma {:induction false} ArrivalsQueued(conv: nat, k: nat)
    requires conv < TWO_32 && k <= WND_RCV
    ensures var p := ApplyAll(Create(conv), Arrivals(conv, k));
            p.rcv == R.Receiver(k, WND_RCV, [], Pushes(conv, k)) && p.cfg.conv == conv
  {
    hide Apply, ApplyAll, Arrival, Arrivals, Pushes, R.ParseData;
    ArrivalsStep(conv, k);
    if k == 0 {
      NothingArrived(conv);
    } else {
      ArrivalsQueued(conv, k - 1);
      var p := ApplyAll(Create(conv), Arrivals(conv, k - 1));
      OneMore(conv, Arrivals(conv, k - 1), Arrival(conv, k - 1));
      PushArrives(p, k - 1);
      NextInLine(p.rcv, Pushed(conv, k - 1));
    }
  }

  lemma ArrivalsStep(conv: nat, k: nat)
    ensures k > 0 ==> Arrivals(conv, k) == Arrivals(conv, k - 1) + [Arrival(conv, k - 1)]
    ensures k > 0 ==> Pushes(conv, k) == Pushes(conv, k - 1) + [Pushed(conv, k - 1)]
  {
    hide Arrival, Pushed;
  }

  lemma NothingArrived(conv: nat)
    ensures Arrivals(conv, 0) == [] && Pushes(conv, 0) == []
    ensures var p := ApplyAll(Create(conv), []); p.rcv == R.Receiver(0, WND_RCV, [], []) && p.cfg.conv == conv
  {
  }

  function UntilEmptied(conv: nat): seq<Event> {
    Arrivals(conv, WND_RCV) + [Arrival(conv, WND_RCV), DoTake(WND_RCV)]
  }

  /** A run that leaves a deliverable segment stuck (kcp/parse.go:93-95): a window of segments fills the
      queue, one more waits behind it, the application empties the queue, and the retransmission of the
      waiting segment does not release it. */
  lemma RepeatedSegmentDoesNotDrain(conv: nat)
    requires conv < TWO_32
    ensures var p := ApplyAll(Create(conv), UntilEmptied(conv));
            && p.rcv == R.Receiver(WND_RCV, WND_RCV, [Pushed(conv, WND_RCV)], [])
            && Apply(p, Arrival(conv, WND_RCV)).rcv == p.rcv && !R.Settled(p.rcv)
  {
    hide ApplyAll, Arrivals, Arrival, Apply, Pushes, Pushed, R.ParseData;
    var es, n := Arrivals(conv, WND_RCV), WND_RCV;
    ArrivalsQueued(conv, n);
    TwoMore(conv, es, Arrival(conv, n), DoTake(n));
    var p := ApplyAll(Create(conv), es);
    var q := Apply(p, Arrival(conv, n));
    PushArrives(p, n);
    PushedNumber(conv, n);
    Ahead(p.rcv, Pushed(conv, n));
    TakeWhole(q, n);
    var r := Apply(q, DoTake(n));
    PushArrives(r, n);
    Repeated(r.rcv, Pushed(conv, n));
  }

  lemma PushedNumber(conv: nat, sn: nat)
    ensures Pushed(conv, sn).sn == sn
  {
  }

  lemma TakeWhole(p: Pcb, k: nat)
    requires |p.rcv.queue| == k
    ensures Apply(p, DoTake(k)) == p.(rcv := p.rcv.(queue := []))
  {
    assert p.rcv.queue[k..] == [];
  }

  lemma Repeated(r: R.Receiver, s: Seg)
    requires r.buf == [s]
    ensures R.ParseData(r, s) == r
  {
  }

  // ----- The written forms, each at a state an endpoint reaches -----

  /** kcp/kcp.go:104-112: every datagram that any endpoint emits ends the written parse loop in a panic. */
  lemma WrittenParsePanicsOnEmitted(p: Pcb, d: seq<byte>)
    requires Valid(p) && p.cfg.conv < TWO_32 && p.updated != 0
    ensures d in Flush(p).out ==> WrittenParse(p.cfg.conv, d) == Panic
  {
    hide Valid, Flush;
    if d in Flush(p).out {
      Emissions.FlushIsReadBack(p);
      hide D.ParseAll;
      assert D.WholeDatagram(p.cfg.conv, p.cfg.mtu, d);
      hide D.Parse, D.Wires;
      var rest := D.ParseIsExact(p.cfg.conv, d);
      WrittenParsePanics(p.cfg.conv, d);
    }
  }

  /** A datagram of whole segments runs the written loop past the end of the data. */
  lemma {:induction false} WrittenParsePanics(conv: nat, d: seq<byte>)
    requires D.Parse(conv, d).code == 0 && |D.Wires(D.Parse(conv, d).segs)| == |d|
    ensures WrittenParse(conv, d) == Panic
    decreases |d|
  {
    hide D.Wires, D.Parse, WrittenParse, D.Refusal;
    if |d| < OVERHEAD || D.Refusal(conv, d) != 0 {
      NothingParsed(conv, d);
    } else {
      var s, tail := WrittenStep(conv, d);
      D.WiresConcat([s], D.Parse(conv, tail).segs);
      D.Single(s);
      WrittenParsePanics(conv, tail);
    }
  }

  lemma NothingParsed(conv: nat, d: seq<byte>)
    requires |d| < OVERHEAD || D.Refusal(conv, d) != 0
    requires D.Parse(conv, d).code == 0 && |D.Wires(D.Parse(conv, d).segs)| == |d|
    ensures WrittenParse(conv, d) == Panic
  {
    D.ParseStops(conv, d);
    assert D.Wires([]) == [];
  }

  lemma WrittenStep(conv: nat, d: seq<byte>) returns (s: Seg, tail: seq<byte>)
    requires |d| >= OVERHEAD && D.Refusal(conv, d) == 0
    ensures D.Parse(conv, d) == D.Parsed([s] + D.Parse(conv, tail).segs, D.Parse(conv, tail).code)
    ensures WrittenParse(conv, d) == WrittenParse(conv, tail) && |d| == |Wire(s)| + |tail|
  {
    hide KnownCmd, FromU32, FromU16, LenField, Header;
    var len, body := LenField(d), d[OVERHEAD..];
    s, tail := FromHeader(d, body[..len]), body[len..];
    assert d[..4] == d[0..4];
  }

  /** kcp/kcp.go:104-112: the datagram of one segment. */
  lemma WrittenParseOfOne(conv: nat)
    requires conv < TWO_32
    ensures WrittenParse(conv, Wire(Pushed(conv, 0))) == Panic && D.Parse(conv, Wire(Pushed(conv, 0))).code == 0
  {
    OneSegment(Create(conv), Pushed(conv, 0));
    D.Single(Pushed(conv, 0));
    WrittenParsePanics(conv, Wire(Pushed(conv, 0)));
  }

  /** kcp/kcp.go:180: the first of two segments in one datagram is stored with 25 bytes too many. */
  lemma WrittenDataOfTwo(conv: nat)
    ensures var d := Wire(Pushed(conv, 0)) + Wire(Pushed(conv, 1));
            WrittenData(d) == [0] + Wire(Pushed(conv, 1)) && |WrittenData(d)| == 26
  {
    hide Wire, LenField;
    D.WireHead(Pushed(conv, 0), Wire(Pushed(conv, 1)));
    var d := Wire(Pushed(conv, 0)) + Wire(Pushed(conv, 1));
    assert d[OVERHEAD..] == d[OVERHEAD..][..1] + d[OVERHEAD..][1..];
  }

  /** A control segment with a closed window, as it is read off the wire. */
  function Closed(conv: nat, cmd: nat): Seg {
    Seg(conv, cmd, 0, 0, 0, 0, 0, 0, 0, 0, 0, [])
  }

  /** The peer closes its window; seven seconds later a question is due and the peer asks one of its own. */
  function BothAsked(conv: nat): seq<Event> {
    [DoClock(0)] + [DoInput(Wire(Closed(conv, CMD_WINS))), DoFlush] + [DoClock(7000), DoInput(Wire(Closed(conv, CMD_WASK)))]
  }

  lemma ControlArrives(p: Pcb, cmd: nat)
    requires p.cfg.conv < TWO_32 && (cmd == CMD_WINS || cmd == CMD_WASK)
    ensures var q := Apply(p, DoInput(Wire(Closed(p.cfg.conv, cmd))));
            && q.rmtWnd == 0 && q.ask == (if cmd == CMD_WASK then p.ask.(tell := true) else p.ask)
            && q.prober == p.prober && q.current == p.current && q.updated == p.updated && q.cfg == p.cfg
  {
    OneSegment(p, Closed(p.cfg.conv, cmd));
    hide Wire, Input, S.ShrinkBuf, S.ParseUna, S.ParseFastack, Congestion.Grow;
  }

  lemma FlushedProber(p: Pcb)
    requires p.updated != 0
    ensures var q := Apply(p, DoFlush);
            q.prober == P.Tick(p.prober, p.rmtWnd, p.current) && q.ask == Ask(false, false)
            && q.rmtWnd == p.rmtWnd && q.updated == p.updated && q.cfg == p.cfg
  {
    hide Admitted, P.Tick, D.Pack, FlushSegs, DueSegs, Congestion.React, FlushContext;
  }

  /** kcp/kcp.go:319: a run in which both bits are set when the next flush comes: it should send a question and an
      answer, and the written test sends neither. */
  lemma WrittenProbesOfBoth(conv: nat, t: Seg)
    requires conv < TWO_32
    ensures var p := ApplyAll(Create(conv), BothAsked(conv));
            && p.updated != 0 && Asking(p) == Ask(true, true)
            && WrittenProbes(Bits(Asking(p)), t) == [] && |Probes(Asking(p), t)| == 2
  {
    var es := [DoClock(0)];
    var tell, ask := DoInput(Wire(Closed(conv, CMD_WINS))), DoInput(Wire(Closed(conv, CMD_WASK)));
    OneMore(conv, [], DoClock(0));
    assert [] + es == es;
    TwoMore(conv, es, tell, DoFlush);
    TwoMore(conv, es + [tell, DoFlush], DoClock(7000), ask);
    hide Wire, Input, Flush, Closed;
    var p0 := Clock(Create(conv), 0);
    ControlArrives(p0, CMD_WINS);
    var p1 := Apply(p0, tell);
    FlushedProber(p1);
    ControlArrives(Clock(Apply(p1, DoFlush), 7000), CMD_WASK);
  }

  /** kcp/kcp.go:388: the first flush of a first message leaves `Xmit` at 0. */
  lemma CopiedLoopForgets(conv: nat)
    ensures var p := ApplyAll(Create(conv), OPEN + [DoSend([7])]);
            && Flush(p).pcb.snd.buf == [SentSeg(conv, 0, 7)]
            && |CopiedRuns.CopiedFlush(p).pcb.snd.buf| == 1 && CopiedRuns.CopiedFlush(p).pcb.snd.buf[0].xmit == 0
  {
    OpenedState(conv);
    OneMore(conv, OPEN, DoSend([7]));
    var p := ApplyAll(Create(conv), OPEN + [DoSend([7])]);
    SendOne(Opened(conv), 7);
    hide Send;
    var q := SendAndFlush(Opened(conv), 7);
    S.AdmitPrefix(p.snd, p.snd.una + Window(p), StampOf(p));
  }

  /** An acknowledgement of `sn` as it is read off the wire. */
  function Acked(conv: nat, sn: nat, una: nat): Seg {
    Seg(conv, CMD_ACK, 0, WND_RCV, 0, sn, una, 0, 0, 0, 0, [])
  }

  /** kcp/parse.go:116: two segments in flight, the second acknowledged: the first is skipped once, and the
      written form does not count it. */
  lemma CopiedFastackForgets(conv: nat)
    requires conv < TWO_32
    ensures var p := ApplyAll(Create(conv), TWO_SENT);
            var before := ProcessSeg(Pass(p, NoAck), Acked(conv, 1, 0)).pcb.snd.buf;
            && before == [SentSeg(conv, 0, 7)]
            && Input(p, Wire(Acked(conv, 1, 0))).pcb.snd.buf == [SentSeg(conv, 0, 7).(fastack := 1)]
            && S.Bump(before, 1) != before
  {
    TwoSentState(conv);
    var p, s := ApplyAll(Create(conv), TWO_SENT), Acked(conv, 1, 0);
    OneSegment(p, s);
    AckOfSecond(p, SentSeg(conv, 0, 7), SentSeg(conv, 1, 8), s);
    hide Wire, Input, ApplyAll;
    var a := ProcessSeg(Pass(p, NoAck), s);
    hide ProcessSeg;
    assert S.Bump(a.pcb.snd.buf, 1) == [SentSeg(conv, 0, 7).(fastack := 1)];
    hide Congestion.Grow;
  }

  lemma AckOfSecond(p: Pcb, x: Seg, y: Seg, s: Seg)
    requires p.snd == S.Sender(0, 2, [x, y], []) && x.sn == 0 && y.sn == 1
    requires s.cmd == CMD_ACK && s.sn == 1 && s.una == 0
    ensures var a := ProcessSeg(Pass(p, NoAck), s);
            a.pcb.snd == S.Sender(0, 2, [x], []) && a.best == Best(1, s.ts) && a.pcb.cfg == p.cfg
  {
    hide Rtt.Update;
    DropNone([x, y], 0);
    assert Position([x, y], 1) == 1 by {
      assert [x, y][1..] == [y];
    }
    assert [x, y][..1] + [x, y][2..] == [x];
  }

  /** kcp/parse.go:67-72: the first data segment a fresh endpoint receives panics it. */
  lemma FirstDataPanics(conv: nat)
    requires conv < TWO_32
    ensures AckListRuns.ListedRun(conv, [Arrival(conv, 0)]) == Panic
  {
    OneSegment(Create(conv), Pushed(conv, 0));
    hide Wire, D.Parse, AckListRuns.ListedRun;
    AckListRuns.RunPanicsIff(conv, [Arrival(conv, 0)]);
    assert Pushed(conv, 0) in D.Parse(conv, Wire(Pushed(conv, 0))).segs;
    assert AckListRuns.Fatal(conv, Arrival(conv, 0));
    assert Arrival(conv, 0) in [Arrival(conv, 0)];
  }

  /** kcp/kcp.go:523: fast mode with a flush interval of 100 milliseconds is set up with one of 10. */
  lemma WrittenIntervalOfFastMode(conv: nat)
    ensures SetNodelay(Create(conv), 1, 100, 2, 1).pcb.cfg.interval == 100 && Clamped(1) == 10
  {
  }

  /** kcp/parse.go:9-18: two segments in flight, both acknowledged at once: the written loop panics. */
  lemma WrittenUnaOfTwo(conv: nat)
    ensures var buf := ApplyAll(Create(conv), TWO_SENT).snd.buf;
            S.DropBelow(buf, 2) == [] && |buf| == 2 && WrittenUna(buf, 2, 0, 2) == Panic
  {
    TwoSentState(conv);
    var x, y := SentSeg(conv, 0, 7), SentSeg(conv, 1, 8);
    hide ApplyAll, SentSeg;
    UnaOfTwo(x, y);
  }

  lemma UnaOfTwo(x: Seg, y: Seg)
    requires x.sn == 0 && y.sn == 1
    ensures S.DropBelow([x, y], 2) == [] && WrittenUna([x, y], 2, 0, 2) == Panic
  {
    DropAll([x, y], 2);
    DeleteStep([x, y], 2, 0, 2);
    ShiftedFirst([x, y]);
    assert [x, y][1..] + [y] == [y, y];
    assert WrittenUna([y, y], 1, 1, 2) == Panic;
  }

  /** kcp/parse.go:98-108: segment 1 arrives before segment 0: the written drain panics on the second. */
  lemma WrittenDrainOfTwo(conv: nat)
    requires conv < TWO_32
    ensures var r := ApplyAll(Create(conv), [Arrival(conv, 1)]).rcv;
            var s0, s1 := Pushed(conv, 0), Pushed(conv, 1);
            var r1 := r.(buf := R.Insert(r.buf, s0));
            && r1.buf == [s0, s1] && WrittenDrain(r1.buf, 2, 0, r1) == Panic
            && R.Drain(r1) == R.Receiver(2, WND_RCV, [], [s0, s1])
  {
    OneMore(conv, [], Arrival(conv, 1));
    assert [] + [Arrival(conv, 1)] == [Arrival(conv, 1)];
    PushArrives(Create(conv), 1);
    Ahead(Create(conv).rcv, Pushed(conv, 1));
    hide Apply, Arrival;
    DrainOfTwo(Pushed(conv, 0), Pushed(conv, 1));
  }

  lemma DrainOfTwo(x: Seg, y: Seg)
    requires x.sn == 0 && y.sn == 1
    ensures R.Insert([y], x) == [x, y]
    ensures var r := R.Receiver(0, WND_RCV, [x, y], []);
            WrittenDrain(r.buf, 2, 0, r) == Panic && R.Drain(r) == R.Receiver(2, WND_RCV, [], [x, y])
  {
    var r := R.Receiver(0, WND_RCV, [x, y], []);
    assert [y][..0] + [x] + [y][0..] == [x, y];
    assert [x, y][..0] + [x, y][1..2] + [x, y][1..] == [y, y];
    assert R.TakeHead(r) == R.Receiver(1, WND_RCV, [y], [x]);
    assert R.TakeHead(R.TakeHead(r)) == R.Receiver(2, WND_RCV, [], [x, y]);
    assert R.Drain(r) == R.Drain(R.TakeHead(r));
  }

  /** kcp/parse.go:80-95: segment 2 arrives before segment 1: the written form stores them out of order. */
  lemma WrittenStoreOfTwo(conv: nat)
    requires conv < TWO_32
    ensures var r := ApplyAll(Create(conv), [Arrival(conv, 2)]).rcv;
            var s1, s2 := Pushed(conv, 1), Pushed(conv, 2);
            && r.buf == [s2] && WrittenStore(r.buf, s1) == [s2, s1] && Store(r.buf, s1) == [s1, s2]
  {
    OneMore(conv, [], Arrival(conv, 2));
    assert [] + [Arrival(conv, 2)] == [Arrival(conv, 2)];
    PushArrives(Create(conv), 2);
    Ahead(Create(conv).rcv, Pushed(conv, 2));
    hide Apply, Arrival;
    StoreOfTwo(Pushed(conv, 1), Pushed(conv, 2));
  }

  lemma StoreOfTwo(x: Seg, y: Seg)
    requires x.sn == 1 && y.sn == 2
    ensures WrittenStore([y], x) == [y, x] && Store([y], x) == [x, y]
  {
    assert Position([y], 1) == 0;
    assert [y][..0] + [x] + [y][0..] == [x, y];
    assert !WrittenScan([y][1..], 1);
  }

  // ----- kcp/parse.go:21-27: a run in which `Snd_una` goes back -----

  function Told(conv: nat, una: nat): Seg {
    Seg(conv, CMD_WINS, 0, WND_RCV, 0, 0, una, 0, 0, 0, 0, [])
  }

  /** One message sent and acknowledged, a second one sent, then a window announcement. */
  function AckedOnce(conv: nat): seq<Event> {
    OPEN + [DoSend([7]), DoFlush] + [DoInput(Wire(Acked(conv, 0, 1)))]
  }

  lemma LagMore(conv: nat, es: seq<Event>, e: Event)
    ensures LaggingRuns.LagTrace(conv, es + [e]) == LaggingRuns.LagStep(LaggingRuns.LagTrace(conv, es), e)
  {
    assert (es + [e])[..|es|] == es;
  }

  lemma LagTwoMore(conv: nat, es: seq<Event>, e: Event, f: Event)
    ensures LaggingRuns.LagTrace(conv, es + [e, f]) == LaggingRuns.LagStep(LaggingRuns.LagStep(LaggingRuns.LagTrace(conv, es), e), f)
  {
    assert es + [e, f] == (es + [e]) + [f];
    LagMore(conv, es, e);
    LagMore(conv, es + [e], f);
  }

  lemma LagOpened(conv: nat)
    ensures LaggingRuns.LagTrace(conv, OPEN).pcb == Opened(conv)
  {
    assert OPEN == [] + [DoSettings(0, INTERVAL, 0, 1), DoClock(0)];
    LagTwoMore(conv, [], DoSettings(0, INTERVAL, 0, 1), DoClock(0));
  }

  /** A datagram of one segment that is no data. */
  lemma LagOneSegment(p: Pcb, s: Seg)
    requires s.conv == p.cfg.conv < TWO_32 && (s.cmd == CMD_ACK || s.cmd == CMD_WINS) && Fits(s) && s.data == []
    ensures var snd, q := LaggingRuns.LagSnd(p.snd, s), LaggingRuns.LagInput(p, Wire(s));
            && (s.cmd == CMD_WINS || !S.Outstanding(snd, s.sn) ==> q.snd == snd)
            && q.rcv == p.rcv && q.cfg == p.cfg && q.current == p.current && q.updated == p.updated && q.rmtWnd == s.wnd
  {
    hide Wire, D.Parse, LaggingRuns.LagSeg, Conclude, Fits, LaggingRuns.LagSnd;
    OneSegment(p, s);
    LagOne(Pass(p, NoAck), s);
    LagSegShape(p, s);
    var a := LaggingRuns.LagSeg(Pass(p, NoAck), s);
    ConcludeShape(a, p.snd.una);
  }

  lemma LagOne(a: Pass, s: Seg)
    ensures LaggingRuns.LagSegs(a, [s]) == LaggingRuns.LagSeg(a, s)
  {
    assert [s][..0] == [];
    hide LaggingRuns.LagSeg;
  }

  lemma LagSegShape(p: Pcb, s: Seg)
    requires s.cmd == CMD_ACK || s.cmd == CMD_WINS
    ensures var a := LaggingRuns.LagSeg(Pass(p, NoAck), s);
            && a.pcb.snd == LaggingRuns.LagSnd(p.snd, s) && a.best == (if s.cmd == CMD_ACK then Best(s.sn, s.ts) else NoAck)
            && a.pcb.rcv == p.rcv && a.pcb.cfg == p.cfg && a.pcb.current == p.current && a.pcb.updated == p.updated
            && a.pcb.rmtWnd == s.wnd
  {
    hide LaggingRuns.LagSnd, Rtt.Update, S.ParseUna, S.ParseAck, S.ShrinkBuf;
  }

  lemma ConcludeShape(a: Pass, prevUna: nat)
    ensures var q := Conclude(a, prevUna);
            && (a.best == NoAck || !S.Outstanding(a.pcb.snd, a.best.sn) ==> q.snd == a.pcb.snd)
            && q.rcv == a.pcb.rcv && q.cfg == a.pcb.cfg && q.current == a.pcb.current && q.updated == a.pcb.updated
            && q.rmtWnd == a.pcb.rmtWnd
  {
    hide Congestion.Grow, S.Bump;
  }

  /** The first message acknowledged: the buffer is empty and `Snd_una` is 1. */
  lemma AckedOnceState(conv: nat)
    requires conv < TWO_32
    ensures var p := LaggingRuns.LagTrace(conv, AckedOnce(conv)).pcb;
            && p.snd == S.Sender(1, 1, [], []) && p.rcv == R.Receiver(0, WND_RCV, [], [])
            && p.cfg == Opened(conv).cfg && p.current == 0 && p.updated == 1 && p.rmtWnd == WND_RCV
  {
    var s := Acked(conv, 0, 1);
    LagOpened(conv);
    LagTwoMore(conv, OPEN, DoSend([7]), DoFlush);
    LagMore(conv, OPEN + [DoSend([7]), DoFlush], DoInput(Wire(s)));
    hide Flush, Send, Wire, Fits, LaggingRuns.LagInput;
    var p := SendAndFlush(Opened(conv), 7);
    assert [] + [SentSeg(conv, 0, 7)] == [SentSeg(conv, 0, 7)];
    SmallFits(conv);
    LagOneSegment(p, s);
    AckEmpties(SentSeg(conv, 0, 7), s);
  }

  lemma SmallFits(conv: nat)
    requires conv < TWO_32
    ensures Fits(Acked(conv, 0, 1)) && Fits(Told(conv, 1))
  {
  }

  lemma AckEmpties(x: Seg, s: Seg)
    requires x.sn == 0 && s.cmd == CMD_ACK && s.sn == 0 && s.una == 1
    ensures LaggingRuns.LagSnd(S.Sender(0, 1, [x], []), s) == S.Sender(1, 1, [], [])
  {
    DropAll([x], 1);
  }

  /** `Snd_una` goes back: it is 1 once the first message is acknowledged, and 0 again after a second message is
      sent and any segment arrives, although the second message has number 1. */
  lemma SndUnaGoesBack(conv: nat)
    requires conv < TWO_32
    ensures var es := AckedOnce(conv);
            var p := LaggingRuns.LagTrace(conv, es).pcb;
            var q := LaggingRuns.LagTrace(conv, es + [DoSend([8]), DoFlush] + [DoInput(Wire(Told(conv, 1)))]).pcb;
            p.snd.una == 1 && q.snd.una == 0 && |q.snd.buf| == 1 && q.snd.buf[0].sn == 1
  {
    var es, s := AckedOnce(conv), Told(conv, 1);
    AckedOnceState(conv);
    LagTwoMore(conv, es, DoSend([8]), DoFlush);
    LagMore(conv, es + [DoSend([8]), DoFlush], DoInput(Wire(s)));
    hide Flush, Send, Wire, Fits, LaggingRuns.LagInput, LaggingRuns.LagTrace, AckedOnce;
    SmallFits(conv);
    var p := LaggingRuns.LagTrace(conv, es).pcb;
    SendOne(p, 8);
    var w := Waiting(Payload(0, [8]));
    var r := p.(snd := p.snd.(queue := [w]));
    assert [] + [w] == [w];
    FlushSendsOne(r, w);
    var x := T.Touch(S.Stamped(StampOf(r), w, 1), FlushContext(r));
    assert [] + [x] == [x];
    LagOneSegment(Flush(r).pcb, s);
    NothingRemoved(x, s);
  }

  lemma NothingRemoved(x: Seg, s: Seg)
    requires x.sn == 1 && x.una == 0 && s.cmd == CMD_WINS && s.una == 1
    ensures LaggingRuns.LagSnd(S.Sender(1, 2, [x], []), s) == S.Sender(0, 2, [x], [])
  {
    DropNone([x], 1);
  }
}
