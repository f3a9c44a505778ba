/** The control block as the source has it: one object whose methods update its fields in loops
    (`IKCPCB`, kcp/define.go; kcp/kcp.go, kcp/parse.go). Each method is proved to do to the object's
    value what the specification in `Endpoints` says. */
module ControlBlock {
  import opened Bytes
  import opened Compare
  import opened Lists
  import opened Segments
  import opened Endpoints
  import Congestion
  import D = Datagrams
  import M = Messages
  import P = Probing
  import R = Receivers
  import Rtt = RttEstimator
  import S = Senders
  import T = Retransmission

  const ASK_SEND: bv32 := 1
  const ASK_TELL: bv32 := 2

  function AskOf(probe: bv32): Ask {
    Ask(probe & ASK_SEND != 0, probe & ASK_TELL != 0)
  }

  function WithSend(probe: bv32): bv32 {
    probe | ASK_SEND
  }

  function WithTell(probe: bv32): bv32 {
    probe | ASK_TELL
  }

  lemma AskBits(probe: bv32)
    ensures AskOf(WithSend(probe)) == AskOf(probe).(send := true)
    ensures AskOf(WithTell(probe)) == AskOf(probe).(tell := true)
    ensures AskOf(0) == Ask(false, false)
  {
  }

  lemma PositionUnique(buf: seq<Seg>, sn: nat, i: nat)
    requires i <= |buf| && forall j :: 0 <= j < i ==> buf[j].sn < sn
    requires i < |buf| ==> buf[i].sn >= sn
    ensures Position(buf, sn) == i
  {
  }

  class Ikcpcb {
    var conv: nat
    var mtu: nat
    var mss: nat
    var state: int
    var sndUna: nat
    var sndNxt: nat
    var rcvNxt: nat
    var ssthresh: nat
    var rxRttval: nat
    var rxSrtt: nat
    var rxRto: nat
    var rxMinrto: nat
    var sndWnd: nat
    var rcvWnd: nat
    var rmtWnd: nat
    var cwnd: nat
    var probe: bv32
    var current: nat
    var interval: nat
    var xmit: nat
    var nrcvBuf: nat
    var nsndBuf: nat
    var nrcvQue: nat
    var nsndQue: nat
    var nodelay: nat
    var updated: nat
    var tsProbe: nat
    var probeWait: nat
    var deadLink: nat
    var incr: nat
    var sndQueue: seq<Seg>
    var rcvQueue: seq<Seg>
    var sndBuf: seq<Seg>
    var rcvBuf: seq<Seg>
    var ackList: seq<nat>
    var ackCount: nat
    var fastResend: int
    var fastLimit: int
    var nocwnd: int

    /** The kept counters are the real lengths. */
    predicate Counters()
      reads this
    {
      && nsndBuf == |sndBuf| && nsndQue == |sndQueue|
      && nrcvBuf == |rcvBuf| && nrcvQue == |rcvQueue|
      && 2 * ackCount <= |ackList|
    }

    ghost function Settings(): Config
      reads `conv, `mtu, `mss, `sndWnd, `deadLink, `interval, `rxMinrto, `nodelay, `fastResend, `fastLimit, `nocwnd
    {
      Config(conv, mtu, mss, sndWnd, deadLink, interval, rxMinrto, nodelay, fastResend, fastLimit, nocwnd)
    }

    ghost function SendSide(): S.Sender
      reads `sndUna, `sndNxt, `sndBuf, `sndQueue
    {
      S.Sender(sndUna, sndNxt, sndBuf, sndQueue)
    }

    ghost function ReceiveSide(): R.Receiver
      reads `rcvNxt, `rcvWnd, `rcvBuf, `rcvQueue
    {
      R.Receiver(rcvNxt, rcvWnd, rcvBuf, rcvQueue)
    }

    ghost function Estimator(): Rtt.Rtt
      reads `rxSrtt, `rxRttval, `rxRto
    {
      Rtt.Rtt(rxSrtt, rxRttval, rxRto)
    }

    ghost function CongestionState(): Congestion.Cong
      reads `cwnd, `incr, `ssthresh
    {
      Congestion.Cong(cwnd, incr, ssthresh)
    }

    ghost function Timer(): P.Prober
      reads `probeWait, `tsProbe
    {
      P.Prober(probeWait, tsProbe)
    }

    ghost function OwedAcks(): seq<Ack>
      requires 2 * ackCount <= |ackList|
      reads `ackList, `ackCount
    {
      AcksOf(ackList, ackCount)
    }

    /** The object as a value. */
    ghost function View(): Pcb
      requires Counters()
      reads this
    {
      Pcb(Settings(), SendSide(), ReceiveSide(), Estimator(), CongestionState(),
          Timer(), AskOf(probe), OwedAcks(), rmtWnd, current, updated, state, xmit)
    }

    constructor (conv: nat)
      ensures Counters() && View() == Create(conv)
    {
      this.conv := conv;
      mtu, mss := MTU_DEF, MTU_DEF - OVERHEAD;
      state := 0;
      sndUna, sndNxt, rcvNxt := 0, 0, 0;
      ssthresh := THRESH_INIT;
      rxRttval, rxSrtt, rxRto, rxMinrto := 0, 0, RTO_DEF, RTO_MIN;
      sndWnd, rcvWnd, rmtWnd, cwnd, probe := WND_SND, WND_RCV, WND_RCV, 0, 0;
      current, interval, xmit := 0, INTERVAL, 0;
      nrcvBuf, nsndBuf, nrcvQue, nsndQue := 0, 0, 0, 0;
      nodelay, updated := 0, 0;
      tsProbe, probeWait := 0, 0;
      deadLink, incr := DEADLINK, 0;
      sndQueue, rcvQueue, sndBuf, rcvBuf := [], [], [], [];
      ackList, ackCount := [], 0;
      fastResend, fastLimit, nocwnd := 0, FASTACK_LIMIT, 0;
    }

    // ----- kcp/parse.go -----

    method ParseUna(una: nat)
      requires Counters()
      modifies `sndBuf, `nsndBuf
      ensures Counters() && SendSide() == S.ParseUna(old(SendSide()), una)
    {
      var kept := [];
      for i := 0 to |sndBuf|
        invariant sndBuf == old(sndBuf)
        invariant kept == S.DropBelow(sndBuf[..i], una)
        invariant nsndBuf == |kept| + |sndBuf| - i
      {
        assert sndBuf[..i + 1][..i] == sndBuf[..i];
        if una > sndBuf[i].sn {
          nsndBuf := nsndBuf - 1;
        } else {
          kept := kept + [sndBuf[i]];
        }
      }
      assert sndBuf[..|sndBuf|] == sndBuf;
      sndBuf := kept;
    }

    method ShrinkBuf()
      requires Counters()
      modifies `sndUna
      ensures Counters() && SendSide() == S.ShrinkBuf(old(SendSide()))
    {
      if |sndBuf| != 0 {
        sndUna := sndBuf[0].sn;
      } else {
        sndUna := sndNxt;
      }
    }

    method UpdateAck(rtt: nat)
      requires Counters()
      modifies `rxSrtt, `rxRttval, `rxRto
      ensures Counters() && Estimator() == Rtt.Update(old(Estimator()), rtt, interval, rxMinrto)
    {
      if rxSrtt == 0 {
        rxSrtt := rtt;
        rxRttval := rtt / 2;
      } else {
        var delta: int := rtt - rxSrtt;
        if delta < 0 {
          delta := -delta;
        }
        rxRttval := (3 * rxRttval + delta) / 4;
        rxSrtt := (7 * rxSrtt + rtt) / 8;
        if rxSrtt < 1 {
          rxSrtt := 1;
        }
      }
      var rto := rxSrtt + Max(interval, 4 * rxRttval);
      rxRto := Min(Max(rxMinrto, rto), RTO_MAX);
    }

    method ParseAck(sn: nat)
      requires Counters()
      modifies `sndBuf, `nsndBuf
      ensures Counters() && SendSide() == S.ParseAck(old(SendSide()), sn)
    {
      if sn < sndUna || sn >= sndNxt {
        return;
      }
      var i := 0;
      while i < |sndBuf| && sndBuf[i].sn < sn
        invariant i <= |sndBuf|
        invariant forall j :: 0 <= j < i ==> sndBuf[j].sn < sn
      {
        i := i + 1;
      }
      PositionUnique(sndBuf, sn, i);
      if i < |sndBuf| && sndBuf[i].sn == sn {
        sndBuf := sndBuf[..i] + sndBuf[i + 1..];
        nsndBuf := nsndBuf - 1;
      }
    }

    method AckPush(sn: nat, ts: nat)
      requires Counters()
      modifies `ackList, `ackCount
      ensures Counters() && OwedAcks() == old(OwedAcks()) + [Ack(sn, ts)]
    {
      ackList := ackList[..2 * ackCount] + [sn, ts];
      ackCount := ackCount + 1;
      assert AcksOf(ackList, ackCount) == old(AcksOf(ackList, ackCount)) + [Ack(sn, ts)];
    }

    method ParseData(s: Seg)
      requires Counters()
      modifies `rcvBuf, `nrcvBuf, `rcvQueue, `nrcvQue, `rcvNxt
      ensures Counters() && ReceiveSide() == R.ParseData(old(ReceiveSide()), s)
    {
      if s.sn >= rcvNxt + rcvWnd || s.sn < rcvNxt {
        return;
      }
      var i := 0;
      while i < |rcvBuf| && rcvBuf[i].sn < s.sn
        invariant i <= |rcvBuf|
        invariant forall j :: 0 <= j < i ==> rcvBuf[j].sn < s.sn
      {
        i := i + 1;
      }
      PositionUnique(rcvBuf, s.sn, i);
      if i < |rcvBuf| && rcvBuf[i].sn == s.sn {
        return;
      }
      rcvBuf := rcvBuf[..i] + [s] + rcvBuf[i..];
      nrcvBuf := nrcvBuf + 1;
      hide R.Drain;
      DrainBuf();
    }

    /** Moves what has become available to the receive queue. */
    method DrainBuf()
      requires Counters()
      modifies `rcvBuf, `nrcvBuf, `rcvQueue, `nrcvQue, `rcvNxt
      ensures Counters() && ReceiveSide() == R.Drain(old(ReceiveSide()))
    {
      while |rcvBuf| > 0 && rcvBuf[0].sn == rcvNxt && nrcvQue < rcvWnd
        invariant Counters() && R.Drain(ReceiveSide()) == R.Drain(old(ReceiveSide()))
      {
        rcvQueue := rcvQueue + [rcvBuf[0]];
        rcvBuf := rcvBuf[1..];
        nrcvBuf := nrcvBuf - 1;
        nrcvQue := nrcvQue + 1;
        rcvNxt := rcvNxt + 1;
      }
    }

    method ParseFastack(sn: nat)
      requires Counters()
      modifies `sndBuf
      ensures Counters() && SendSide() == S.ParseFastack(old(SendSide()), sn)
    {
      if sn < sndUna || sn >= sndNxt {
        return;
      }
      ghost var before := sndBuf;
      var i := 0;
      while i < |sndBuf| && sndBuf[i].sn <= sn
        invariant i <= |sndBuf| == |before|
        invariant forall j :: i <= j < |before| ==> sndBuf[j] == before[j]
        invariant forall j :: 0 <= j < i ==> before[j].sn <= sn
        invariant forall j :: 0 <= j < i ==>
                    sndBuf[j] == if before[j].sn != sn then before[j].(fastack := before[j].fastack + 1) else before[j]
      {
        if sn != sndBuf[i].sn {
          sndBuf := sndBuf[i := sndBuf[i].(fastack := sndBuf[i].fastack + 1)];
        }
        i := i + 1;
      }
      PositionUnique(before, sn + 1, i);
      assert sndBuf == S.Bump(before, sn);
    }

    // ----- kcp/kcp.go -----

    /** Cuts the message, rounding the number of pieces up. */
    method Send(buffer: seq<byte>) returns (code: int)
      requires Counters()
      modifies `sndQueue, `nsndQue
      ensures Counters() && Outcome(View(), code) == Endpoints.Send(old(View()), buffer)
    {
      hide ReceiveSide, Estimator, CongestionState, OwedAcks, Timer, AskOf, AcksOf, M.Fragment, M.Pieces, WaitingAll;
      if |buffer| <= 0 || mss <= 0 {
        return -1;
      }
      var splitNum := 1;
      if |buffer| > mss {
        splitNum := (|buffer| + mss - 1) / mss;
      }
      if splitNum > M.MAX_FRAGMENTS {
        return -2;
      }
      M.PiecesCover(buffer, mss);
      Slice(buffer, splitNum);
      return 0;
    }

    method Slice(buffer: seq<byte>, splitNum: nat)
      requires Counters() && mss > 0 && buffer != [] && splitNum == |M.Pieces(buffer, mss)|
      modifies `sndQueue, `nsndQue
      ensures Counters() && sndQueue == old(sndQueue) + WaitingAll(M.Fragment(buffer, mss))
    {
      hide M.Fragment, M.Pieces, WaitingAll;
      ghost var pieces := M.Pieces(buffer, mss);
      ghost var segs := [];
      var rest := buffer;
      for i := 0 to splitNum
        invariant |segs| == i && forall j :: 0 <= j < i ==> segs[j] == Waiting(Payload(splitNum - j - 1, pieces[j]))
        invariant i < splitNum ==> rest != [] && M.Pieces(rest, mss) == pieces[i..]
        invariant nsndQue == |sndQueue| && sndQueue == old(sndQueue) + segs
      {
        var splitLen := Min(|rest|, mss);
        SliceStep(rest, mss);
        var seg := Waiting(Payload(splitNum - i - 1, rest[..splitLen]));
        AppendOne(old(sndQueue), segs, seg);
        sndQueue := sndQueue + [seg];
        segs := segs + [seg];
        nsndQue := nsndQue + 1;
        rest := rest[splitLen..];
      }
      Countdown(buffer, mss, segs);
    }

    /** The peer's window and its cumulative acknowledgement, which every segment carries. */
    method TakeCommon(s: Seg)
      requires Counters()
      modifies `rmtWnd, `sndBuf, `nsndBuf, `sndUna
      ensures Counters() && View() == Common(old(View()), s)
    {
      hide S.ParseUna, S.ShrinkBuf, AcksOf, AskOf, Settings, SendSide, ReceiveSide, Estimator, CongestionState, OwedAcks, Timer;
      rmtWnd := s.wnd;
      ParseUna(s.una);
      ShrinkBuf();
    }

    /** The round-trip sample of an acknowledgement, unless its time lies ahead. */
    method TakeSample(ts: nat)
      requires Counters()
      modifies `rxSrtt, `rxRttval, `rxRto
      ensures Counters()
      ensures var p := old(View());
              View() == p.(rtt := if p.current >= ts then Rtt.Update(p.rtt, p.current - ts, p.cfg.interval, p.cfg.minrto) else p.rtt)
    {
      hide AcksOf, AskOf, Rtt.Update, SendSide, ReceiveSide, Estimator, CongestionState, OwedAcks, Timer;
      if current >= ts {
        UpdateAck(current - ts);
      }
    }

    /** The number of an acknowledgement leaves the buffer. */
    method TakeSn(sn: nat)
      requires Counters()
      modifies `sndBuf, `nsndBuf, `sndUna
      ensures Counters() && View() == old(View()).(snd := S.ShrinkBuf(S.ParseAck(old(View()).snd, sn)))
    {
      hide S.ParseAck, S.ShrinkBuf, AcksOf, AskOf, Settings, SendSide, ReceiveSide, Estimator, CongestionState, OwedAcks, Timer;
      ParseAck(sn);
      ShrinkBuf();
    }

    method TakeAck(s: Seg)
      requires Counters()
      modifies `rxSrtt, `rxRttval, `rxRto, `sndBuf, `nsndBuf, `sndUna
      ensures Counters() && View() == OnAck(old(View()), s)
    {
      hide View, S.ParseAck, S.ShrinkBuf, Rtt.Update;
      TakeSample(s.ts);
      TakeSn(s.sn);
    }

    method TakePush(s: Seg)
      requires Counters()
      modifies `ackList, `ackCount, `rcvBuf, `nrcvBuf, `rcvQueue, `nrcvQue, `rcvNxt
      ensures Counters() && View() == OnPush(old(View()), s)
    {
      RcvOf();
      hide View, R.ParseData;
      if s.sn < rcvNxt + rcvWnd {
        TakeOwed(s);
        if s.sn >= rcvNxt {
          TakeData(s);
        }
      }
    }

    lemma RcvOf()
      requires Counters()
      ensures View().rcv.nxt == rcvNxt && View().rcv.wnd == rcvWnd
    {
    }

    /** The segment is owed an acknowledgement. */
    method TakeOwed(s: Seg)
      requires Counters()
      modifies `ackList, `ackCount
      ensures Counters() && View() == old(View()).(acks := old(View()).acks + [Ack(s.sn, s.ts)])
    {
      hide AcksOf, AskOf, Settings, SendSide, ReceiveSide, Estimator, CongestionState, Timer;
      AckPush(s.sn, s.ts);
    }

    /** The segment is taken in. */
    method TakeData(s: Seg)
      requires Counters()
      modifies `rcvBuf, `nrcvBuf, `rcvQueue, `nrcvQue, `rcvNxt
      ensures Counters() && View() == old(View()).(rcv := R.ParseData(old(View()).rcv, s))
    {
      hide R.ParseData, AcksOf, AskOf, Settings, SendSide, ReceiveSide, Estimator, CongestionState, OwedAcks, Timer;
      ParseData(s);
    }

    method TakeAsk()
      requires Counters()
      modifies `probe
      ensures Counters() && View() == old(View()).(ask := old(View()).ask.(tell := true))
    {
      hide AskOf, AcksOf, WithTell, Settings, SendSide, ReceiveSide, Estimator, CongestionState, OwedAcks, Timer;
      AskBits(probe);
      probe := WithTell(probe);
    }

    /** What one segment does, in the order of the source. */
    method ProcessSegment(s: Seg, flag: bool, maxack: nat, latestTs: nat)
      returns (flag': bool, maxack': nat, latestTs': nat)
      requires Counters()
      modifies this
      ensures Counters()
      ensures Pass(View(), BestOf(flag', maxack', latestTs'))
           == ProcessSeg(Pass(old(View()), BestOf(flag, maxack, latestTs)), s)
    {
      hide Common, OnAck, OnPush;
      flag', maxack', latestTs' := flag, maxack, latestTs;
      TakeCommon(s);
      if s.cmd == CMD_ACK {
        TakeAck(s);
        if !flag {
          flag', maxack', latestTs' := true, s.sn, s.ts;
        } else if s.sn > maxack && s.ts > latestTs {
          maxack', latestTs' := s.sn, s.ts;
        }
      } else if s.cmd == CMD_PUSH {
        TakePush(s);
      } else if s.cmd == CMD_WASK {
        TakeAsk();
      }
    }

    /** Opens the congestion window after an input pass that acknowledged something. */
    method GrowWindow()
      requires Counters() && mss > 0
      modifies `cwnd, `incr
      ensures Counters() && CongestionState() == Congestion.Grow(old(CongestionState()), mss, rmtWnd)
    {
      if cwnd < rmtWnd {
        if cwnd < ssthresh {
          cwnd := cwnd + 1;
          incr := incr + mss;
        } else {
          AvoidCongestion();
        }
        if cwnd > rmtWnd {
          cwnd := rmtWnd;
          incr := rmtWnd * mss;
        }
      }
    }

    method AvoidCongestion()
      requires Counters() && mss > 0 && cwnd >= ssthresh
      modifies `cwnd, `incr
      ensures Counters() && CongestionState() == Congestion.Growth(old(CongestionState()), mss)
    {
      hide Congestion.Advance;
      AdvanceBytes();
      if (cwnd + 1) * mss <= incr {
        cwnd := (incr + mss - 1) / mss;
      }
    }

    method AdvanceBytes()
      requires mss > 0
      modifies `incr
      ensures incr == Congestion.Advance(old(incr), mss)
    {
      hide Congestion.Gain;
      if incr < mss {
        incr := mss;
      }
      incr := incr + Congestion.Gain(incr, mss);
    }

    /** The parse loop: every whole segment of the datagram is processed as it is read. */
    method ParseLoop(data: seq<byte>) returns (code: int, flag: bool, maxack: nat, latestTs: nat)
      requires Counters()
      modifies this
      ensures Counters() && code == D.Parse(old(conv), data).code
      ensures Pass(View(), BestOf(flag, maxack, latestTs))
           == ProcessAll(Pass(old(View()), NoAck), D.Parse(old(conv), data).segs)
    {
      hide ProcessSeg, AcksOf, AskOf, FromHeader, LenField;
      flag, maxack, latestTs := false, 0, 0;
      var rest := data;
      ghost var start, done := Pass(View(), NoAck), [];
      AppendNothing(done);
      while |rest| >= OVERHEAD
        invariant Counters() && conv == old(conv)
        invariant D.Parse(conv, data) == Resume(done, D.Parse(conv, rest))
        invariant Pass(View(), BestOf(flag, maxack, latestTs)) == ProcessAll(start, done)
        decreases |rest|
      {
        var seg := FromHeader(rest, []);
        var len := LenField(rest);
        AppendNothing(done);
        if seg.conv != conv {
          code := -1;
          return;
        }
        var body := rest[OVERHEAD..];
        if |body| < len {
          code := -2;
          return;
        }
        if seg.cmd != CMD_ACK && seg.cmd != CMD_PUSH && seg.cmd != CMD_WASK && seg.cmd != CMD_WINS {
          code := -3;
          return;
        }
        seg := seg.(data := body[..len]);
        ResumeStep(done, seg, D.Parse(conv, body[len..]));
        flag, maxack, latestTs := ProcessSegment(seg, flag, maxack, latestTs);
        ProcessOneMore(start, done, seg);
        done := done + [seg];
        rest := body[len..];
      }
      AppendNothing(done);
      code := 0;
    }

    /** Skipped segments are counted. */
    method CountSkips(flag: bool, maxack: nat)
      requires Counters()
      modifies `sndBuf
      ensures Counters()
      ensures var p := old(View()); View() == if flag then p.(snd := S.ParseFastack(p.snd, maxack)) else p
    {
      hide S.ParseFastack, AcksOf, AskOf, Settings, SendSide, ReceiveSide, Estimator, CongestionState, OwedAcks, Timer;
      if flag {
        ParseFastack(maxack);
      }
    }

    /** The congestion window grows if something was acknowledged. */
    method OpenWindow(prevUna: nat)
      requires Counters() && mss > 0
      modifies `cwnd, `incr
      ensures Counters()
      ensures var p := old(View());
              View() == if p.snd.una > prevUna then p.(cong := Congestion.Grow(p.cong, p.cfg.mss, p.rmtWnd)) else p
    {
      hide Congestion.Grow, AcksOf, AskOf, ReceiveSide, Estimator, CongestionState, OwedAcks, Timer;
      if sndUna > prevUna {
        GrowWindow();
      }
    }

    /** What follows the parse loop. */
    method ConcludePass(flag: bool, maxack: nat, latestTs: nat, prevUna: nat)
      requires Counters() && mss > 0
      modifies `sndBuf, `cwnd, `incr
      ensures Counters()
      ensures View() == Conclude(Pass(old(View()), BestOf(flag, maxack, latestTs)), prevUna)
    {
      MssOf();
      hide View, S.ParseFastack, Congestion.Grow;
      CountSkips(flag, maxack);
      OpenWindow(prevUna);
    }

    lemma MssOf()
      requires Counters()
      ensures mss == View().cfg.mss
    {
    }

    method Input(data: seq<byte>) returns (code: int)
      requires Counters() && mss > 0
      modifies this
      ensures Counters() && Outcome(View(), code) == Endpoints.Input(old(View()), data)
    {
      hide ProcessAll, D.Parse, Conclude, AcksOf, AskOf, ReceiveSide, Estimator, OwedAcks, Timer, CongestionState;
      var prevUna := sndUna;
      if |data| < OVERHEAD {
        return -1;
      }
      ghost var start := Pass(View(), NoAck);
      var flag, maxack, latestTs;
      code, flag, maxack, latestTs := ParseLoop(data);
      if code != 0 {
        return;
      }
      ProcessKeepsConfig(start, D.Parse(old(conv), data).segs);
      ConcludePass(flag, maxack, latestTs, prevUna);
    }

    // ----- Flush -----

    /** Adds one segment to the output buffer, handing the buffer over first if it would overflow. */
    method Append(out: seq<seq<byte>>, buf: seq<byte>, s: Seg) returns (out': seq<seq<byte>>, buf': seq<byte>)
      ensures D.Packing(out', buf') == D.Put(mtu, D.Packing(out, buf), s)
    {
      out', buf' := out, buf;
      if |buf| + OVERHEAD + |s.data| > mtu {
        out', buf' := out + [buf], [];
      }
      var header := Encode(s);
      assert [] + Wire(s) == Wire(s);
      assert buf' + header[..] + s.data == buf' + Wire(s);
      buf' := buf' + header[..] + s.data;
    }

    /** The owed acknowledgements; `seg` is the template and keeps the last one's number and time. */
    method FlushAcks(seg: Seg) returns (out: seq<seq<byte>>, buf: seq<byte>, last: Seg)
      requires Counters()
      modifies `ackCount
      ensures Counters() && OwedAcks() == []
      ensures D.Packing(out, buf) == D.PutAll(mtu, Owed(seg, old(OwedAcks())))
      ensures last == Latest(seg, old(OwedAcks()))
    {
      hide D.Put;
      out, buf, last := [], [], seg;
      ghost var acks := OwedAcks();
      for i := 0 to ackCount
        invariant ackCount == |acks| && 2 * ackCount <= |ackList| && acks == AcksOf(ackList, ackCount)
        invariant D.Packing(out, buf) == D.PutAll(mtu, Owed(seg, acks[..i]))
        invariant last == Latest(seg, acks[..i])
      {
        last := last.(sn := ackList[2 * i], ts := ackList[2 * i + 1]);
        out, buf := Append(out, buf, last);
        OwedStep(mtu, seg, acks, i);
      }
      assert acks[..|acks|] == acks;
      ackCount := 0;
    }

    /** When to ask the peer for its window. */
    method TickProbe()
      requires Counters()
      modifies `tsProbe, `probeWait, `probe
      ensures Counters()
      ensures Timer() == P.Tick(old(Timer()), rmtWnd, current)
      ensures AskOf(probe) == AskOf(old(probe)).(send := AskOf(old(probe)).send || P.Due(old(Timer()), rmtWnd, current))
    {
      hide AskOf, WithSend;
      AskBits(probe);
      if rmtWnd == 0 {
        if probeWait == 0 {
          probeWait := PROBE_INIT;
          tsProbe := current + probeWait;
        } else if current >= tsProbe {
          if probeWait < PROBE_INIT {
            probeWait := PROBE_INIT;
          }
          probeWait := probeWait + probeWait / 2;
          if probeWait > PROBE_LIMIT {
            probeWait := PROBE_LIMIT;
          }
          tsProbe := current + probeWait;
          probe := WithSend(probe);
        }
      } else {
        tsProbe := 0;
        probeWait := 0;
      }
    }

    /** Sends what is asked for, each bit on its own. */
    method FlushProbes(out: seq<seq<byte>>, buf: seq<byte>, seg: Seg, ghost sent: seq<Seg>)
      returns (out': seq<seq<byte>>, buf': seq<byte>)
      requires Counters() && D.Packing(out, buf) == D.PutAll(mtu, sent)
      modifies `probe
      ensures Counters() && AskOf(probe) == Ask(false, false)
      ensures D.Packing(out', buf') == D.PutAll(mtu, sent + Probes(AskOf(old(probe)), seg))
    {
      hide D.Put, AskOf;
      AskBits(probe);
      out', buf' := out, buf;
      ghost var done := sent;
      AppendNothing(sent);
      if AskOf(probe).send {
        out', buf' := Append(out', buf', seg.(cmd := CMD_WASK));
        D.PutAllStep(mtu, done, seg.(cmd := CMD_WASK));
        done := done + [seg.(cmd := CMD_WASK)];
      }
      if AskOf(probe).tell {
        out', buf' := Append(out', buf', seg.(cmd := CMD_WINS));
        D.PutAllStep(mtu, done, seg.(cmd := CMD_WINS));
        done := done + [seg.(cmd := CMD_WINS)];
      }
      assert done == sent + Probes(AskOf(probe), seg);
      probe := 0;
    }

    /** Numbers waiting segments while the window has room. */
    method MoveWindow(limit: nat, st: S.Stamp)
      requires Counters()
      modifies `sndBuf, `sndQueue, `sndNxt, `nsndQue, `nsndBuf
      ensures Counters() && SendSide() == S.Admit(old(SendSide()), limit, st)
    {
      while sndNxt < limit
        invariant Counters() && S.Admit(SendSide(), limit, st) == S.Admit(old(SendSide()), limit, st)
      {
        if |sndQueue| == 0 {
          break;
        }
        var newseg := S.Stamped(st, sndQueue[0], sndNxt);
        sndBuf := sndBuf + [newseg];
        sndQueue := sndQueue[1..];
        nsndQue := nsndQue - 1;
        nsndBuf := nsndBuf + 1;
        sndNxt := sndNxt + 1;
      }
    }

    /** Decides about one buffered segment and updates it. */
    method Examine(s: Seg, c: T.Context) returns (t: Seg, needSend: bool, fast: bool, lost: bool)
      ensures t == T.Touch(s, c) && (needSend <==> T.Decide(s, c) != T.Skip)
      ensures (fast <==> T.Decide(s, c) == T.Fast) && (lost <==> T.Decide(s, c) == T.Timeout)
    {
      t, needSend, fast, lost := s, false, false, false;
      if s.xmit == 0 {
        needSend := true;
        t := t.(xmit := t.xmit + 1, rto := c.rxRto);
        t := t.(resendTs := c.now + t.rto + if c.nodelay == 0 then c.rxRto / 8 else 0);
      } else if c.now >= s.resendTs {
        needSend, lost := true, true;
        t := t.(xmit := t.xmit + 1);
        if c.nodelay == 0 {
          t := t.(rto := t.rto + Max(t.rto, c.rxRto));
        } else {
          var step := c.rxRto;
          if c.nodelay < 2 {
            step := t.rto;
          }
          t := t.(rto := t.rto + step / 2);
        }
        t := t.(resendTs := c.now + t.rto);
      } else if s.fastack >= c.resent {
        if s.xmit <= c.fastLimit || c.fastLimit <= 0 {
          needSend, fast := true, true;
          t := t.(xmit := t.xmit + 1, fastack := 0);
          t := t.(resendTs := c.now + t.rto);
        }
      }
      if needSend {
        t := t.(ts := c.now, wnd := c.wnd, una := c.una);
      }
    }

    /** Writes one segment out; a segment sent too often marks the link dead. */
    method Transmit(out: seq<seq<byte>>, buf: seq<byte>, segment: Seg, ghost sent: seq<Seg>, ghost due: seq<Seg>, ghost before: int)
      returns (out': seq<seq<byte>>, buf': seq<byte>)
      requires Counters() && D.Packing(out, buf) == D.PutAll(mtu, sent + due)
      requires state == if Dead(due, deadLink) then -1 else before
      modifies `state
      ensures Counters() && D.Packing(out', buf') == D.PutAll(mtu, sent + (due + [segment]))
      ensures state == if Dead(due + [segment], deadLink) then -1 else before
    {
      hide D.Put, Dead;
      out', buf' := Append(out, buf, segment);
      D.PutAllStep(mtu, sent + due, segment);
      AppendOne(sent, due, segment);
      DeadStep(due, segment, deadLink);
      if segment.xmit >= deadLink {
        state := -1;
      }
    }

    /** Transmits every segment that is new, timed out or skipped often enough. */
    method FlushData(out: seq<seq<byte>>, buf: seq<byte>, c: T.Context, ghost sent: seq<Seg>)
      returns (out': seq<seq<byte>>, buf': seq<byte>, change: bool, bLost: bool)
      requires Counters() && D.Packing(out, buf) == D.PutAll(mtu, sent)
      modifies `sndBuf, `xmit, `state
      ensures Counters() && sndBuf == T.TouchAll(old(sndBuf), c)
      ensures D.Packing(out', buf') == D.PutAll(mtu, sent + T.Due(old(sndBuf), c))
      ensures change <==> T.CountKind(old(sndBuf), c, T.Fast) > 0
      ensures bLost <==> T.CountKind(old(sndBuf), c, T.Timeout) > 0
      ensures xmit == old(xmit) + T.CountKind(old(sndBuf), c, T.Timeout)
      ensures state == if Dead(T.Due(old(sndBuf), c), deadLink) then -1 else old(state)
    {
      hide D.Put, T.Touch, T.Decide, Dead, T.Due, T.CountKind, T.TouchAll;
      out', buf', change, bLost := out, buf, false, false;
      ghost var b := sndBuf;
      ghost var due := [];
      NothingDue(c, deadLink);
      AppendNothing(sent);
      for i := 0 to |sndBuf|
        invariant |sndBuf| == |b| && Counters()
        invariant forall j :: 0 <= j < i ==> sndBuf[j] == T.Touch(b[j], c)
        invariant forall j :: i <= j < |b| ==> sndBuf[j] == b[j]
        invariant due == T.Due(b[..i], c)
        invariant D.Packing(out', buf') == D.PutAll(mtu, sent + due)
        invariant change <==> T.CountKind(b[..i], c, T.Fast) > 0
        invariant bLost <==> T.CountKind(b[..i], c, T.Timeout) > 0
        invariant xmit == old(xmit) + T.CountKind(b[..i], c, T.Timeout)
        invariant state == if Dead(due, deadLink) then -1 else old(state)
      {
        var segment, needSend, fast, lost := Examine(sndBuf[i], c);
        DueStep(b, i, c);
        sndBuf := sndBuf[i := segment];
        change, bLost := change || fast, bLost || lost;
        if lost {
          xmit := xmit + 1;
        }
        AppendNothing(due);
        if needSend {
          out', buf' := Transmit(out', buf', segment, sent, due, old(state));
          due := due + [segment];
        }
      }
      assert b[..|b|] == b;
      TouchedAll(b, sndBuf, c);
    }

    /** Slow-start threshold and congestion window after the losses of this flush. */
    method ReactToLoss(inflight: nat, wnd: nat, resent: nat, change: bool, bLost: bool)
      requires Counters()
      modifies `cwnd, `incr, `ssthresh
      ensures Counters()
      ensures CongestionState() == Congestion.React(old(CongestionState()), mss, inflight, wnd, resent, change, bLost)
    {
      if change {
        ssthresh := inflight / 2;
        if ssthresh < THRESH_MIN {
          ssthresh := THRESH_MIN;
        }
        cwnd := ssthresh + resent;
        incr := cwnd * mss;
      }
      if bLost {
        ssthresh := wnd / 2;
        if ssthresh < THRESH_MIN {
          ssthresh := THRESH_MIN;
        }
        cwnd := 1;
        incr := mss;
      }
      if cwnd < 1 {
        cwnd := 1;
        incr := mss;
      }
    }

    /** Acknowledgements, probe timer, probes. */
    method FlushControl() returns (out: seq<seq<byte>>, buf: seq<byte>, wnd: nat)
      requires Counters()
      modifies `ackCount, `tsProbe, `probeWait, `probe
      ensures Counters() && OwedAcks() == [] && AskOf(probe) == Ask(false, false)
      ensures Timer() == P.Tick(old(Timer()), rmtWnd, current) && wnd == WndLeft(ReceiveSide())
      ensures D.Packing(out, buf) == D.PutAll(mtu, AckSegs(old(View())) + ProbeSegs(old(View())))
    {
      hide D.Put, D.PutAll, AskOf, Timer, OwedAcks, Estimator, CongestionState, SendSide, AckSegs, Owed, Latest;
      ghost var p := View();
      OwedIsAckSegs(p);
      wnd := (rcvWnd - nrcvQue) % TWO_32;
      var seg := Seg(conv, CMD_ACK, 0, wnd, 0, 0, rcvNxt, 0, 0, 0, 0, []);
      assert seg == Control(p, CMD_ACK, Ack(0, 0));
      out, buf, seg := FlushAcks(seg);
      TickProbe();
      out, buf := FlushProbes(out, buf, seg, AckSegs(p));
    }

    /** The window in force, the window move, and what the data loop will read. */
    method FlushMove(left: nat, ghost p: Pcb) returns (wnd: nat, c: T.Context)
      requires Counters() && left == WndLeft(p.rcv)
      requires p.cfg == Settings() && p.snd == SendSide() && p.rcv == ReceiveSide() && p.rtt == Estimator()
      requires p.cong == CongestionState() && p.rmtWnd == rmtWnd && p.current == current
      modifies `sndBuf, `sndQueue, `sndNxt, `nsndQue, `nsndBuf
      ensures Counters() && SendSide() == Admitted(p) && wnd == Window(p) && c == FlushContext(p)
    {
      hide S.Admit, WndLeft, Admitted, FlushContext, Window, Resent, Flushed, DueSegs, T.TouchAll, T.CountKind, Congestion.React, Dead;
      FlushedParts(p);
      wnd := Min(rmtWnd, sndWnd);
      if nocwnd == 0 {
        wnd := Min(cwnd, wnd);
      }
      MoveWindow(sndUna + wnd, S.Stamp(conv, left, current, rcvNxt, rxRto));
      var resent := 0xffff_ffff;
      if fastResend > 0 {
        resent := fastResend;
      }
      c := T.Context(current, rxRto, nodelay, resent, fastLimit, left, rcvNxt);
    }

    /** Window move, data, and the reaction of the congestion window. */
    method FlushSend(out: seq<seq<byte>>, buf: seq<byte>, left: nat, ghost p: Pcb, ghost sent: seq<Seg>)
      returns (out': seq<seq<byte>>, buf': seq<byte>)
      requires Counters() && D.Packing(out, buf) == D.PutAll(p.cfg.mtu, sent)
      requires p.cfg == Settings() && p.snd == SendSide() && p.rcv == ReceiveSide() && p.rtt == Estimator()
      requires p.cong == CongestionState() && p.rmtWnd == rmtWnd && p.current == current
      requires p.state == state && p.xmit == xmit && left == WndLeft(p.rcv)
      modifies `sndBuf, `sndQueue, `sndNxt, `nsndQue, `nsndBuf, `xmit, `state, `cwnd, `incr, `ssthresh
      ensures Counters() && SendSide() == Flushed(p).snd && CongestionState() == Flushed(p).cong
      ensures state == Flushed(p).state && xmit == Flushed(p).xmit
      ensures D.Packing(out', buf') == D.PutAll(p.cfg.mtu, sent + DueSegs(p))
    {
      hide D.Put, D.PutAll, S.Admit, T.TouchAll, T.Due, T.CountKind, Dead, Congestion.React, WndLeft, P.Tick,
           Flushed, Admitted, FlushContext, Window, Resent, DueSegs, CongestionState, Estimator, ReceiveSide;
      FlushedParts(p);
      var wnd, c := FlushMove(left, p);
      var change, bLost;
      out', buf', change, bLost := FlushData(out, buf, c, sent);
      ReactToLoss((sndNxt - sndUna) % TWO_32, wnd, c.resent, change, bLost);
    }

    method Flush() returns (out: seq<seq<byte>>)
      requires Counters()
      modifies this
      ensures Counters() && Emission(View(), out) == Endpoints.Flush(old(View()))
    {
      hide Flushed, AckSegs, ProbeSegs, DueSegs, D.Pack, AskOf;
      if updated == 0 {
        return [];
      }
      out := FlushActive();
    }

    /** Acknowledgements and probes, as one step of the whole object. */
    method FlushFront() returns (out: seq<seq<byte>>, buf: seq<byte>, left: nat)
      requires Counters()
      modifies `ackCount, `tsProbe, `probeWait, `probe
      ensures Counters() && left == WndLeft(old(View()).rcv) && View() == Fronted(old(View()))
      ensures D.Packing(out, buf) == D.PutAll(mtu, AckSegs(old(View())) + ProbeSegs(old(View())))
    {
      hide D.PutAll, AckSegs, ProbeSegs, WndLeft, P.Tick, AskOf;
      hide Settings, SendSide, ReceiveSide, Estimator, CongestionState, OwedAcks, Timer;
      out, buf, left := FlushControl();
    }

    /** The rest of a flush, as one step of the whole object. */
    method FlushRest(out: seq<seq<byte>>, buf: seq<byte>, left: nat, ghost p: Pcb, ghost sent: seq<Seg>)
      returns (out': seq<seq<byte>>, buf': seq<byte>)
      requires Counters() && View() == Fronted(p) && left == WndLeft(p.rcv)
      requires D.Packing(out, buf) == D.PutAll(p.cfg.mtu, sent)
      modifies `sndBuf, `sndQueue, `sndNxt, `nsndQue, `nsndBuf, `xmit, `state, `cwnd, `incr, `ssthresh
      ensures Counters() && View() == Flushed(p)
      ensures D.Packing(out', buf') == D.PutAll(p.cfg.mtu, sent + DueSegs(p))
    {
      hide D.PutAll, DueSegs, Flushed, WndLeft, P.Tick, AskOf;
      hide Settings, SendSide, ReceiveSide, Estimator, CongestionState, OwedAcks, Timer;
      out', buf' := FlushSend(out, buf, left, p, sent);
      FlushedShape(p, View());
    }

    method FlushActive() returns (out: seq<seq<byte>>)
      requires Counters()
      modifies this
      ensures Counters() && View() == Flushed(old(View())) && out == D.Pack(old(mtu), FlushSegs(old(View())))
    {
      MtuOf();
      hide View, D.PutAll, AckSegs, ProbeSegs, DueSegs, Flushed, WndLeft, Fronted;
      ghost var p := View();
      var buf, left;
      out, buf, left := FlushFront();
      out, buf := FlushRest(out, buf, left, p, AckSegs(p) + ProbeSegs(p));
      if |buf| > 0 {
        out := out + [buf];
      }
    }

    lemma MtuOf()
      requires Counters()
      ensures mtu == View().cfg.mtu
    {
    }

    /** The flush interval comes from its own argument. */
    method Configure(nodelay: nat, interval: nat, resend: nat, nc: nat)
      modifies `nodelay, `rxMinrto, `interval, `fastResend, `nocwnd
      ensures Settings() == Adjusted(old(Settings()), nodelay, interval, resend, nc)
    {
      this.nodelay := nodelay;
      if nodelay > 0 {
        rxMinrto := RTO_NDL;
      } else {
        rxMinrto := RTO_MIN;
      }
      this.interval := Min(Max(interval, 10), 5000);
      fastResend := resend;
      nocwnd := nc;
    }

    /** Nothing changes if an argument is negative. */
    method SetNodelay(nodelay: int, interval: int, resend: int, nc: int) returns (code: int)
      requires Counters()
      modifies `nodelay, `rxMinrto, `interval, `fastResend, `nocwnd
      ensures Counters()
      ensures Outcome(View(), code) == Endpoints.SetNodelay(old(View()), nodelay, interval, resend, nc)
    {
      hide Settings, SendSide, ReceiveSide, Estimator, CongestionState, OwedAcks, Timer, AskOf, AcksOf, Adjusted;
      if nodelay < 0 || interval < 0 || resend < 0 || nc < 0 {
        return -1;
      }
      Configure(nodelay, interval, resend, nc);
      return 0;
    }
  }

  /** An endpoint between the control part of a flush and the rest. */
  function Fronted(p: Pcb): Pcb {
    p.(acks := [], ask := Ask(false, false), prober := P.Tick(p.prober, p.rmtWnd, p.current))
  }

  /** The acknowledgement segments for a list of owed pairs, on one template. */
  function Owed(seg: Seg, acks: seq<Ack>): seq<Seg> {
    seq(|acks|, i requires 0 <= i < |acks| => seg.(sn := acks[i].sn, ts := acks[i].ts))
  }

  lemma OwedIsAckSegs(p: Pcb)
    ensures Owed(Control(p, CMD_ACK, Ack(0, 0)), p.acks) == AckSegs(p)
    ensures Latest(Control(p, CMD_ACK, Ack(0, 0)), p.acks) == Control(p, CMD_ACK, LastAck(p))
  {
  }

  function Latest(seg: Seg, acks: seq<Ack>): Seg {
    if acks == [] then seg else seg.(sn := acks[|acks| - 1].sn, ts := acks[|acks| - 1].ts)
  }

  lemma OwedStep(mtu: nat, seg: Seg, acks: seq<Ack>, i: nat)
    requires i < |acks|
    ensures var s := seg.(sn := acks[i].sn, ts := acks[i].ts);
            && D.PutAll(mtu, Owed(seg, acks[..i + 1])) == D.Put(mtu, D.PutAll(mtu, Owed(seg, acks[..i])), s)
            && Latest(seg, acks[..i + 1]) == s
  {
    var s := seg.(sn := acks[i].sn, ts := acks[i].ts);
    assert Owed(seg, acks[..i + 1]) == Owed(seg, acks[..i]) + [s];
    D.PutAllStep(mtu, Owed(seg, acks[..i]), s);
  }

  /** The parts of a flush, as the method computes them. */
  lemma FlushedParts(p: Pcb)
    ensures var w := Min(p.rmtWnd, p.cfg.sndWnd);
            Window(p) == if p.cfg.nocwnd == 0 then Min(p.cong.cwnd, w) else w
    ensures Resent(p) == if p.cfg.fastResend > 0 then p.cfg.fastResend else 0xffff_ffff
    ensures FlushContext(p) == T.Context(p.current, p.rtt.rto, p.cfg.nodelay, Resent(p), p.cfg.fastLimit, WndLeft(p.rcv), p.rcv.nxt)
    ensures Admitted(p) == S.Admit(p.snd, p.snd.una + Window(p), StampOf(p))
    ensures DueSegs(p) == T.Due(Admitted(p).buf, FlushContext(p))
    ensures var t, c := Admitted(p), FlushContext(p);
            && Flushed(p).snd == t.(buf := T.TouchAll(t.buf, c))
            && Flushed(p).cong == Congestion.React(p.cong, p.cfg.mss, (t.nxt - t.una) % TWO_32, Window(p), Resent(p),
                                                   T.CountKind(t.buf, c, T.Fast) > 0, T.CountKind(t.buf, c, T.Timeout) > 0)
            && Flushed(p).state == (if Dead(DueSegs(p), p.cfg.deadLink) then -1 else p.state)
            && Flushed(p).xmit == p.xmit + T.CountKind(t.buf, c, T.Timeout)
  {
    hide S.Admit, T.TouchAll, T.Due, T.CountKind, Dead, Congestion.React, WndLeft, P.Tick;
  }

  /** A flush changes six groups of the control block and no others. */
  lemma FlushedShape(p: Pcb, q: Pcb)
    requires q.snd == Flushed(p).snd && q.cong == Flushed(p).cong && q.state == Flushed(p).state
    requires q.xmit == Flushed(p).xmit && q.acks == [] && q.ask == Ask(false, false)
    requires q.prober == P.Tick(p.prober, p.rmtWnd, p.current)
    requires q.cfg == p.cfg && q.rcv == p.rcv && q.rtt == p.rtt && q.rmtWnd == p.rmtWnd
    requires q.current == p.current && q.updated == p.updated
    ensures q == Flushed(p)
  {
    hide Admitted, T.TouchAll, T.CountKind, Congestion.React, Dead, DueSegs, P.Tick;
  }

  lemma TouchedAll(before: seq<Seg>, after: seq<Seg>, c: T.Context)
    requires |after| == |before| && forall j :: 0 <= j < |before| ==> after[j] == T.Touch(before[j], c)
    ensures after == T.TouchAll(before, c)
  {
  }

  lemma NothingDue(c: T.Context, deadLink: nat)
    ensures T.Due([], c) == [] && !Dead([], deadLink) && forall k :: T.CountKind([], c, k) == 0
  {
  }

  /** Is some transmitted segment at the limit of transmissions? */
  lemma DeadStep(due: seq<Seg>, s: Seg, deadLink: nat)
    ensures Dead(due + [s], deadLink) <==> Dead(due, deadLink) || s.xmit >= deadLink
  {
    assert forall x :: x in due + [s] <==> x in due || x == s;
  }

  lemma DueStep(buf: seq<Seg>, i: nat, c: T.Context)
    requires i < |buf|
    ensures T.Due(buf[..i + 1], c) == T.Due(buf[..i], c) + (if T.Decide(buf[i], c) == T.Skip then [] else [T.Touch(buf[i], c)])
    ensures forall k :: T.CountKind(buf[..i + 1], c, k) == T.CountKind(buf[..i], c, k) + (if T.Decide(buf[i], c) == k then 1 else 0)
  {
    assert buf[..i + 1][..i] == buf[..i];
  }

  /** A parse that continues after `done`. */
  function Resume(done: seq<Seg>, more: D.Parsed): D.Parsed {
    D.Parsed(done + more.segs, more.code)
  }

  lemma ResumeStep(done: seq<Seg>, s: Seg, more: D.Parsed)
    ensures Resume(done, D.Parsed([s] + more.segs, more.code)) == Resume(done + [s], more)
  {
    assert done + ([s] + more.segs) == (done + [s]) + more.segs;
  }

  lemma ProcessOneMore(a: Pass, segs: seq<Seg>, s: Seg)
    ensures ProcessAll(a, segs + [s]) == ProcessSeg(ProcessAll(a, segs), s)
    ensures ProcessSeg(ProcessAll(a, segs), s).pcb.cfg == ProcessAll(a, segs).pcb.cfg
  {
    assert (segs + [s])[..|segs|] == segs;
    hide S.ShrinkBuf, S.ParseUna, S.ParseAck, R.ParseData, Rtt.Update;
  }

  lemma SliceStep(rest: seq<byte>, mss: nat)
    requires mss > 0 && rest != []
    ensures var n := Min(|rest|, mss);
            && M.Pieces(rest, mss)[0] == rest[..n]
            && (|M.Pieces(rest, mss)| > 1 ==> rest[n..] != [] && M.Pieces(rest[n..], mss) == M.Pieces(rest, mss)[1..])
  {
  }

  lemma AppendOne<X>(xs: seq<X>, ys: seq<X>, y: X)
    ensures (xs + ys) + [y] == xs + (ys + [y])
  {
  }

  lemma Countdown(buffer: seq<byte>, mss: nat, segs: seq<Seg>)
    requires mss > 0 && |segs| == |M.Pieces(buffer, mss)|
    requires forall j :: 0 <= j < |segs| ==> segs[j] == Waiting(Payload(|segs| - j - 1, M.Pieces(buffer, mss)[j]))
    ensures segs == WaitingAll(M.Fragment(buffer, mss))
  {
  }

  function BestOf(flag: bool, maxack: nat, latestTs: nat): Best {
    if flag then Best(maxack, latestTs) else NoAck
  }

  lemma {:induction false} ProcessKeepsConfig(a: Pass, segs: seq<Seg>)
    ensures ProcessAll(a, segs).pcb.cfg == a.pcb.cfg
  {
    if segs != [] {
      ProcessKeepsConfig(a, segs[..|segs| - 1]);
      hide S.ShrinkBuf, S.ParseUna, S.ParseAck, R.ParseData, Rtt.Update;
    }
  }
}
