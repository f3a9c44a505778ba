/** What holds of one endpoint in every run, whatever bytes the network delivers. */
module Runs {
  import opened Bytes
  import opened Segments
  import opened Endpoints
  import Congestion
  import Arithmetic
  import Datagrams
  import M = Messages
  import P = Probing
  import R = Receivers
  import S = Senders
  import T = Retransmission

  // ----- Input -----

  lemma FastackKeeps(p: Pcb, a: Pass)
    requires Valid(p) && Processed(p, a.pcb)
    ensures var snd := if a.best == NoAck then a.pcb.snd else S.ParseFastack(a.pcb.snd, a.best.sn);
            && S.Valid(snd) && snd.una == a.pcb.snd.una && snd.nxt == p.snd.nxt && snd.queue == p.snd.queue
            && forall s :: s in snd.buf ==> Sliced(s, p.cfg.mss) && s.cmd == CMD_PUSH && s.conv == p.cfg.conv
  {
    if a.best != NoAck {
      S.FastackStep(a.pcb.snd, a.best.sn);
      var t := S.ParseFastack(a.pcb.snd, a.best.sn);
      hide S.Valid, R.Valid, S.ParseFastack;
      forall s | s in t.buf ensures Sliced(s, p.cfg.mss) && s.cmd == CMD_PUSH && s.conv == p.cfg.conv {
        var i :| 0 <= i < |t.buf| && t.buf[i] == s;
        assert a.pcb.snd.buf[i] in p.snd.buf;
      }
    }
  }

  /** One datagram of any bytes keeps the invariant; acknowledged and delivered numbers never go back;
      the congestion window opens by at most two, not past the peer's window, and never closes. */
  lemma InputKeeps(p: Pcb, data: seq<byte>)
    requires Valid(p)
    ensures var q := Input(p, data).pcb;
            && Valid(q) && q.snd.una >= p.snd.una && q.snd.nxt == p.snd.nxt && q.rcv.nxt >= p.rcv.nxt
            && p.cong.cwnd <= q.cong.cwnd <= p.cong.cwnd + 2
            && (q.cong.cwnd > p.cong.cwnd ==> q.cong.cwnd <= q.rmtWnd && q.snd.una > p.snd.una)
  {
    hide S.Valid, R.Valid, Congestion.Tracks, Congestion.Grow, ProcessAll, Datagrams.Parse, S.ParseFastack;
    if |data| >= OVERHEAD {
      var parsed := Datagrams.Parse(p.cfg.conv, data);
      var a := ProcessAll(Pass(p, NoAck), parsed.segs);
      ProcessAllProcessed(Pass(p, NoAck), parsed.segs);
      ProcessedValid(p, a.pcb);
      FastackKeeps(p, a);
      assert a.pcb.cong == p.cong && a.pcb.cfg == p.cfg;
      Congestion.GrowTracks(p.cong, p.cfg.mss, a.pcb.rmtWnd);
    }
  }

  /** What a datagram of any bytes comes to: less than a header is refused and nothing changes. Otherwise the whole
      segments at its front are processed one by one; the code is 0 if less than a header is left behind them, and
      if what is left is a bad header, it tells what is bad, and neither skips nor window are reckoned. */
  lemma InputByParts(p: Pcb, data: seq<byte>) returns (segs: seq<Seg>, rest: seq<byte>)
    requires Valid(p)
    ensures |data| < OVERHEAD ==> Input(p, data) == Outcome(p, -1)
    ensures data == Datagrams.Wires(segs) + rest && forall s <- segs :: s.conv == p.cfg.conv && KnownCmd(s.cmd)
    ensures |data| >= OVERHEAD ==>
              var o, a := Input(p, data), ProcessAll(Pass(p, NoAck), segs);
              && o.code == (if |rest| < OVERHEAD then 0 else Datagrams.Refusal(p.cfg.conv, rest))
              && (o.code != 0 ==> o.pcb == a.pcb && o.pcb.cong == p.cong)
              && o.pcb == a.pcb.(snd := o.pcb.snd, cong := o.pcb.cong)
  {
    segs := Datagrams.Parse(p.cfg.conv, data).segs;
    rest := Datagrams.ParseIsExact(p.cfg.conv, data);
    ProcessAllProcessed(Pass(p, NoAck), segs);
    hide Valid, S.Valid, R.Valid, ProcessAll, Datagrams.Parse, Datagrams.Refusal, Congestion.Grow, S.ParseFastack, KnownCmd;
  }

  // ----- Flush -----

  /** The buffer after the window move: what was in flight, then the newly numbered segments. */
  lemma AdmittedBuffer(p: Pcb) returns (k: nat)
    requires Valid(p)
    ensures k <= |p.snd.queue| && Admitted(p).buf == p.snd.buf + S.Numbered(p.snd, k, StampOf(p))
    ensures Ascending(Admitted(p).buf) && forall s <- p.snd.buf :: s.sn < p.snd.nxt
  {
    var limit := p.snd.una + Window(p);
    S.AdmitPrefix(p.snd, limit, StampOf(p));
    S.AdmitStep(p.snd, Window(p), StampOf(p));
    k := S.Room(p.snd, limit);
    hide S.Admit, S.Numbered, Window, WndLeft;
  }

  lemma AdmittedKeeps(p: Pcb)
    requires Valid(p)
    ensures var t := Admitted(p);
            && S.Valid(t) && t.una == p.snd.una && t.nxt >= p.snd.nxt
            && (forall s <- t.queue :: Sliced(s, p.cfg.mss))
            && (forall s <- t.buf :: Sliced(s, p.cfg.mss) && s.cmd == CMD_PUSH && s.conv == p.cfg.conv)
  {
    S.AdmitStep(p.snd, Window(p), StampOf(p));
    var limit := p.snd.una + Window(p);
    S.AdmitPrefix(p.snd, limit, StampOf(p));
    var k, t := S.Room(p.snd, limit), Admitted(p);
    hide S.Admit, S.Valid, Window, WndLeft;
    forall s | s in t.buf ensures Sliced(s, p.cfg.mss) && s.cmd == CMD_PUSH && s.conv == p.cfg.conv {
      if s !in p.snd.buf {
        var i := S.NumberedMember(p.snd, k, StampOf(p), s);
      }
    }
  }

  lemma TouchAllKeeps(t: S.Sender, c: T.Context, mss: nat, conv: nat)
    requires S.Valid(t)
    requires forall s <- t.buf :: Sliced(s, mss) && s.cmd == CMD_PUSH && s.conv == conv
    ensures var u := t.(buf := T.TouchAll(t.buf, c));
            && S.Valid(u)
            && forall s <- u.buf :: Sliced(s, mss) && s.cmd == CMD_PUSH && s.conv == conv
  {
    var u := t.(buf := T.TouchAll(t.buf, c));
    forall i | 0 <= i < |t.buf|
      ensures u.buf[i].sn == t.buf[i].sn && u.buf[i].frg == t.buf[i].frg && u.buf[i].data == t.buf[i].data
      ensures u.buf[i].conv == t.buf[i].conv && u.buf[i].cmd == t.buf[i].cmd && t.buf[i] in t.buf
    {
      T.TouchKeeps(t.buf[i], c);
    }
    hide T.TouchAll, T.Touch;
    assert |u.buf| == |t.buf|;
    forall s | s in u.buf ensures u.una <= s.sn < u.nxt && Sliced(s, mss) && s.cmd == CMD_PUSH && s.conv == conv {
      var i :| 0 <= i < |u.buf| && u.buf[i] == s;
      assert t.buf[i] in t.buf;
    }
  }

  lemma FlushedSnd(p: Pcb)
    requires Valid(p)
    ensures var t, q := Admitted(p), Flushed(p);
            && q.snd == t.(buf := T.TouchAll(t.buf, FlushContext(p)))
            && S.Valid(q.snd) && q.snd.una == p.snd.una && q.snd.nxt >= p.snd.nxt
            && (forall s <- q.snd.queue :: Sliced(s, p.cfg.mss))
            && (forall s <- q.snd.buf :: Sliced(s, p.cfg.mss) && s.cmd == CMD_PUSH && s.conv == p.cfg.conv)
  {
    AdmittedKeeps(p);
    TouchAllKeeps(Admitted(p), FlushContext(p), p.cfg.mss, p.cfg.conv);
    hide S.Valid, Admitted, T.TouchAll;
  }

  lemma FlushedTimers(p: Pcb)
    requires Valid(p)
    ensures var q := Flushed(p);
            && Congestion.Tracks(q.cong, p.cfg.mss) && q.cong.cwnd >= 1 && P.WaitInRange(q.prober)
            && q.acks == [] && q.rcv == p.rcv && q.cfg == p.cfg
  {
    var t, c := Admitted(p), FlushContext(p);
    P.TickWait(p.prober, p.rmtWnd, p.current);
    Congestion.ReactTracks(p.cong, p.cfg.mss, (t.nxt - t.una) % TWO_32, Window(p), Resent(p),
                           T.CountKind(t.buf, c, T.Fast) > 0, T.CountKind(t.buf, c, T.Timeout) > 0);
    hide S.Valid, R.Valid, Admitted, Congestion.Tracks, Congestion.React, P.Tick, T.TouchAll, T.CountKind, T.Due, Dead;
  }

  /** A flush keeps the invariant, moves neither acknowledged nor delivered numbers, and leaves an
      open congestion window; what is in flight is at most what was or the window in force. */
  lemma FlushKeeps(p: Pcb)
    requires Valid(p)
    ensures var q := Flush(p).pcb;
            && Valid(q) && q.snd.una == p.snd.una && q.snd.nxt >= p.snd.nxt && q.rcv == p.rcv && q.cfg == p.cfg
            && (p.updated != 0 ==>
                  && q.cong.cwnd >= 1 && q.acks == []
                  && (q.snd.nxt - q.snd.una <= p.snd.nxt - p.snd.una || q.snd.nxt - q.snd.una <= Window(p)))
  {
    if p.updated != 0 {
      FlushedSnd(p);
      FlushedTimers(p);
      WindowBound(p);
      hide S.Valid, R.Valid, Admitted, Congestion.Tracks, Flushed, T.TouchAll, Window, WndLeft, Datagrams.Pack, FlushSegs;
    }
  }

  lemma WindowBound(p: Pcb)
    requires Valid(p)
    ensures var t := Admitted(p);
            t.nxt - p.snd.una <= p.snd.nxt - p.snd.una || t.nxt - p.snd.una <= Window(p)
  {
    S.AdmitStep(p.snd, Window(p), StampOf(p));
    hide S.Valid, R.Valid, S.Admit, Window, WndLeft, Congestion.Tracks;
  }

  // ----- Send -----

  /** A message is refused exactly when it is empty or longer than 255 segments, and then nothing changes; otherwise
      its bytes are appended to `Snd_queue` in order, in segments that are all full but the last, numbered down to 0. */
  lemma SendAccepts(p: Pcb, buf: seq<byte>)
    requires Valid(p)
    ensures var q, code, mss := Send(p, buf).pcb, Send(p, buf).code, p.cfg.mss;
            && code == (if buf == [] then -1 else if |buf| > M.MAX_FRAGMENTS * mss then -2 else 0)
            && (code != 0 ==> q == p)
            && (code == 0 ==>
                  && q == p.(snd := q.snd) && q.snd == p.snd.(queue := q.snd.queue) && p.snd.queue <= q.snd.queue
                  && CutInOrder(q.snd.queue[|p.snd.queue|..], buf, mss))
  {
    var mss := p.cfg.mss;
    if buf != [] {
      CountLimit(|buf|, mss);
      CutsInOrder(buf, mss);
    }
    hide Valid, WaitingAll, M.PieceCount, M.Fragment, CutInOrder;
  }

  ghost predicate CutInOrder(segs: seq<Seg>, buf: seq<byte>, mss: nat) {
    && segs != [] && M.Concat(seq(|segs|, i requires 0 <= i < |segs| => segs[i].data)) == buf
    && (forall i :: 0 <= i < |segs| ==> segs[i].frg == |segs| - 1 - i)
    && (forall i :: 0 <= i < |segs| - 1 ==> |segs[i].data| == mss)
  }

  lemma CountLimit(n: nat, mss: nat)
    requires mss > 0
    ensures M.PieceCount(n, mss) > M.MAX_FRAGMENTS <==> n > M.MAX_FRAGMENTS * mss
  {
    Arithmetic.QuotientFloor(n + mss - 1, mss);
    var q := (n + mss - 1) / mss;
    if q > M.MAX_FRAGMENTS {
      Arithmetic.ProductBound(M.MAX_FRAGMENTS + 1, q, mss);
    } else {
      Arithmetic.ProductBound(q, M.MAX_FRAGMENTS, mss);
    }
  }

  lemma CutsInOrder(buf: seq<byte>, mss: nat)
    requires mss > 0 && buf != []
    ensures CutInOrder(WaitingAll(M.Fragment(buf, mss)), buf, mss)
  {
    M.PiecesCover(buf, mss);
    FullPieces(buf, mss);
    var ps, segs := M.Pieces(buf, mss), WaitingAll(M.Fragment(buf, mss));
    assert seq(|segs|, i requires 0 <= i < |segs| => segs[i].data) == ps;
  }

  lemma {:induction false} FullPieces(buf: seq<byte>, mss: nat)
    requires mss > 0
    ensures var ps := M.Pieces(buf, mss); forall i :: 0 <= i < |ps| - 1 ==> |ps[i]| == mss
    decreases |buf|
  {
    if |buf| > mss {
      var rest := M.Pieces(buf[mss..], mss);
      FullPieces(buf[mss..], mss);
      M.PiecesStep(buf, mss);
      assert forall i :: 0 < i <= |rest| ==> ([buf[..mss]] + rest)[i] == rest[i - 1];
    }
  }

  // ----- Whole runs -----

  lemma TakeValid(p: Pcb, k: nat)
    requires Valid(p) && k <= |p.rcv.queue|
    ensures Valid(Take(p, k))
  {
  }

  lemma ApplyKeeps(p: Pcb, e: Event)
    requires Valid(p)
    ensures var q := Apply(p, e);
            && Valid(q) && q.snd.una >= p.snd.una && q.snd.nxt >= p.snd.nxt && q.rcv.nxt >= p.rcv.nxt
            && q.rcv.wnd == p.rcv.wnd && q.cfg.mss == p.cfg.mss && q.cfg.mtu == p.cfg.mtu && q.cfg.conv == p.cfg.conv
  {
    match e
    case DoSend(buf) => SendValid(p, buf);
    case DoInput(data) =>
      InputKeeps(p, data);
      InputFrame(p, data);
    case DoFlush => FlushKeeps(p);
    case DoClock(now) =>
    case DoTake(k) => if k <= |p.rcv.queue| {
      TakeValid(p, k);
    }
    case DoSettings(nodelay, interval, resend, nc) =>
  }

  lemma InputFrame(p: Pcb, data: seq<byte>)
    requires Valid(p)
    ensures var q := Input(p, data).pcb;
            q.rcv.wnd == p.rcv.wnd && q.cfg == p.cfg && q.current == p.current && q.state == p.state
            && q.updated == p.updated && q.prober == p.prober && q.xmit == p.xmit
  {
    var parsed := Datagrams.Parse(p.cfg.conv, data);
    ProcessAllProcessed(Pass(p, NoAck), parsed.segs);
    hide S.Valid, R.Valid, ProcessAll, Congestion.Tracks, Congestion.Grow, Datagrams.Parse, S.ParseFastack;
  }

  /** In every state an endpoint can reach, by any sequence of calls and any bytes received: send
      buffer and receive buffer are sorted and inside their windows, `Snd_una` is the first
      unacknowledged number, the receive queue fits its window and the congestion window its byte counter. */
  lemma {:induction false} ReachableValid(conv: nat, es: seq<Event>)
    ensures var p := ApplyAll(Create(conv), es);
            && Valid(p) && p.rcv.wnd == WND_RCV && p.cfg.mss == MTU_DEF - OVERHEAD && p.cfg.conv == conv
            && WndLeft(p.rcv) == WND_RCV - |p.rcv.queue|
  {
    hide Apply, Valid;
    if es == [] {
      CreateValid(conv);
    } else {
      var n := |es| - 1;
      ReachableValid(conv, es[..n]);
      ApplyKeeps(ApplyAll(Create(conv), es[..n]), es[n]);
    }
    AdvertisedWindow(ApplyAll(Create(conv), es));
  }

  /** The unsigned subtraction of the advertised window never wraps. */
  lemma AdvertisedWindow(p: Pcb)
    requires Valid(p) && p.rcv.wnd < TWO_32
    ensures WndLeft(p.rcv) == p.rcv.wnd - |p.rcv.queue|
  {
    assert |p.rcv.queue| <= p.rcv.wnd;
    hide Valid;
  }

  /** The clock does not go back. */
  ghost predicate Forward(conv: nat, es: seq<Event>) {
    es == [] ||
    (var n := |es| - 1;
     Forward(conv, es[..n]) && (es[n].DoClock? ==> es[n].now >= ApplyAll(Create(conv), es[..n]).current))
  }

  /** Along a run `Snd_una`, `Snd_nxt` and `Rcv_nxt` never decrease. */
  lemma {:induction false} NumbersNeverGoBack(conv: nat, es: seq<Event>, more: seq<Event>)
    ensures var p, q := ApplyAll(Create(conv), es), ApplyAll(Create(conv), es + more);
            p.snd.una <= q.snd.una && p.snd.nxt <= q.snd.nxt && p.rcv.nxt <= q.rcv.nxt
  {
    if more == [] {
      assert es + more == es;
    } else {
      var n := |more| - 1;
      NumbersNeverGoBack(conv, es, more[..n]);
      assert es + more == es + more[..n] + [more[n]];
      OneMore(conv, es + more[..n], more[n]);
      hide Apply, ApplyAll;
    }
  }

  lemma OneMore(conv: nat, es: seq<Event>, e: Event)
    ensures var p, q := ApplyAll(Create(conv), es), ApplyAll(Create(conv), es + [e]);
            p.snd.una <= q.snd.una && p.snd.nxt <= q.snd.nxt && p.rcv.nxt <= q.rcv.nxt
  {
    ReachableValid(conv, es);
    ApplyKeeps(ApplyAll(Create(conv), es), e);
    assert (es + [e])[..|es|] == es;
    hide Apply;
  }
}
