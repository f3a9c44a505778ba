/** Repeated exchanges without loss, with the clock advancing and the application reading: everything that was
    accepted is read. */
module Rounds {
  import opened Bytes
  import opened Segments
  import opened Endpoints
  import opened Network
  import opened Progress
  import Congestion
  import D = Datagrams
  import Emissions
  import M = Messages
  import P = Probing
  import R = Receivers
  import Rtt = RttEstimator
  import Runs
  import S = Senders
  import T = Retransmission

  // ----- The sending side over one round -----

  /** Late enough for every retransmission and for the probe timer. */
  predicate Late(p: Pcb, t: nat) {
    t >= p.prober.ts && forall s <- p.snd.buf :: t >= s.resendTs
  }

  lemma FlushedBuffer(p: Pcb)
    requires Valid(p) && p.updated != 0
    ensures Flush(p).pcb.snd.buf == T.TouchAll(Admitted(p).buf, FlushContext(p))
  {
    hide Valid, Admitted, T.TouchAll, D.Pack, FlushSegs;
    Runs.FlushedSnd(p);
  }

  lemma NoneSkipped(p: Pcb, o: Seg)
    requires Valid(p) && Late(p, p.current) && o in Admitted(p).buf
    ensures T.Decide(o, FlushContext(p)) != T.Skip
  {
    var k := Runs.AdmittedBuffer(p);
    hide Valid, Admitted, S.Numbered;
    if o !in p.snd.buf {
      var j := S.NumberedMember(p.snd, k, StampOf(p), o);
    }
  }

  /** At a late time a flush transmits all it keeps. */
  lemma AllGoesOut(p: Pcb, sn: nat)
    requires Valid(p) && p.updated != 0 && Late(p, p.current) && Has(Flush(p).pcb.snd.buf, sn)
    ensures exists s :: s in DueSegs(p) && s.sn == sn
  {
    hide Valid, Admitted, T.Touch, T.Due, T.Decide, Flush, FlushContext, Late;
    FlushedBuffer(p);
    var buf, c := Admitted(p).buf, FlushContext(p);
    var x :| x in Flush(p).pcb.snd.buf && x.sn == sn;
    var i :| 0 <= i < |buf| && T.TouchAll(buf, c)[i] == x;
    assert buf[i] in buf;
    NoneSkipped(p, buf[i]);
    T.DueMembers(buf, c);
    assert x in DueSegs(p);
  }

  lemma {:induction false} InputAllHas(p: Pcb, ds: seq<seq<byte>>, sn: nat)
    requires Valid(p)
    ensures !Has(p.snd.buf, sn) ==> !Has(InputAll(p, ds).snd.buf, sn)
  {
    hide Valid, Input, D.Parse, Has;
    if ds != [] && !Has(p.snd.buf, sn) {
      var n := |ds| - 1;
      InputAllKeeps(p, ds[..n]);
      InputAllHas(p, ds[..n], sn);
      InputRemoves(InputAll(p, ds[..n]), ds[n], sn);
    }
  }

  /** Everything that one side's own calls do not touch when datagrams arrive. */
  ghost predicate SameSide(p: Pcb, q: Pcb) {
    && q.snd.nxt == p.snd.nxt && q.snd.queue == p.snd.queue && q.prober == p.prober && q.cfg == p.cfg
    && q.cong.cwnd >= p.cong.cwnd && q.current == p.current && q.updated == p.updated
  }

  lemma InputSame(p: Pcb, d: seq<byte>)
    requires Valid(p)
    ensures SameSide(p, Input(p, d).pcb)
  {
    Runs.InputKeeps(p, d);
    Runs.InputFrame(p, d);
    InputQueue(p, d);
    hide Valid, Input;
  }

  lemma InputQueue(p: Pcb, d: seq<byte>)
    requires Valid(p)
    ensures Input(p, d).pcb.snd.queue == p.snd.queue
  {
    hide S.Valid, R.Valid, ProcessAll, D.Parse, S.Bump, Congestion.Grow;
    ProcessAllProcessed(Pass(p, NoAck), D.Parse(p.cfg.conv, d).segs);
  }

  lemma {:induction false} InputAllSame(p: Pcb, ds: seq<seq<byte>>)
    requires Valid(p)
    ensures SameSide(p, InputAll(p, ds))
  {
    hide Valid, Input;
    if ds != [] {
      InputAllKeeps(p, ds[..|ds| - 1]);
      InputAllSame(p, ds[..|ds| - 1]);
      InputSame(InputAll(p, ds[..|ds| - 1]), ds[|ds| - 1]);
    }
  }

  // ----- The window the reply announces -----

  lemma {:induction false} SegsWnd(a: Pass, segs: seq<Seg>, w: nat)
    requires forall s <- segs :: s.wnd == w
    ensures ProcessAll(a, segs).pcb.rmtWnd == if segs == [] then a.pcb.rmtWnd else w
  {
    if segs != [] {
      var n := |segs| - 1;
      assert segs[n] in segs;
      SegWnd(ProcessAll(a, segs[..n]), segs[n]);
      hide ProcessSeg;
    }
  }

  lemma SegWnd(a: Pass, s: Seg)
    ensures ProcessSeg(a, s).pcb.rmtWnd == s.wnd
  {
    hide S.ShrinkBuf, S.ParseUna, S.ParseAck, R.ParseData, Rtt.Update;
  }

  lemma InputWnd(p: Pcb, d: seq<byte>, w: nat)
    requires forall s <- D.Parse(p.cfg.conv, d).segs :: s.wnd == w
    ensures Input(p, d).pcb.rmtWnd == if D.Parse(p.cfg.conv, d).segs == [] then p.rmtWnd else w
  {
    hide ProcessAll, D.Parse, S.ParseFastack, Congestion.Grow;
    SegsWnd(Pass(p, NoAck), D.Parse(p.cfg.conv, d).segs, w);
    Emissions.ShortHasNone(p.cfg.conv, d);
  }

  lemma {:induction false} InputAllWnd(p: Pcb, ds: seq<seq<byte>>, w: nat)
    requires Valid(p) && forall s <- D.ParseAll(p.cfg.conv, ds) :: s.wnd == w
    ensures InputAll(p, ds).rmtWnd == if D.ParseAll(p.cfg.conv, ds) == [] then p.rmtWnd else w
  {
    hide Valid, Input, D.Parse;
    if ds != [] {
      var n := |ds| - 1;
      var before, last := D.ParseAll(p.cfg.conv, ds[..n]), D.Parse(p.cfg.conv, ds[n]).segs;
      assert forall s :: s in before || s in last ==> s in before + last;
      InputAllKeeps(p, ds[..n]);
      InputAllWnd(p, ds[..n], w);
      InputWnd(InputAll(p, ds[..n]), ds[n], w);
    }
  }

  /** With an empty receive queue everything a flush emits announces the whole window. */
  lemma AnnouncesAll(p: Pcb)
    requires Valid(p) && p.cfg.conv < TWO_32 && p.updated != 0 && p.rcv.queue == [] && p.rcv.wnd == WND_RCV
    ensures forall s <- D.ParseAll(p.cfg.conv, Flush(p).out) :: s.wnd == WND_RCV
  {
    Emissions.FlushIsReadBack(p);
    hide Valid, Flush, AckSegs, ProbeSegs, DueSegs, D.ParseAll, D.OnWires;
    var acks, probes, due := AckSegs(p), ProbeSegs(p), DueSegs(p);
    forall s | s in D.ParseAll(p.cfg.conv, Flush(p).out) ensures s.wnd == WND_RCV {
      var o := SourceOf(acks, probes, due, s);
      WindowOf(p, o);
    }
  }

  lemma SourceOf(xs: seq<Seg>, ys: seq<Seg>, zs: seq<Seg>, s: Seg) returns (o: Seg)
    requires s in D.OnWires(xs) + D.OnWires(ys) + D.OnWires(zs)
    ensures (o in xs || o in ys || o in zs) && s == OnWire(o)
  {
    hide OnWire;
    if s in D.OnWires(xs) {
      var i :| 0 <= i < |xs| && D.OnWires(xs)[i] == s;
      o := xs[i];
    } else if s in D.OnWires(ys) {
      var i :| 0 <= i < |ys| && D.OnWires(ys)[i] == s;
      o := ys[i];
    } else {
      var i :| 0 <= i < |zs| && D.OnWires(zs)[i] == s;
      o := zs[i];
    }
  }

  lemma WindowOf(p: Pcb, o: Seg)
    requires p.rcv.queue == [] && p.rcv.wnd == WND_RCV
    requires o in AckSegs(p) || o in ProbeSegs(p) || o in DueSegs(p)
    ensures OnWire(o).wnd == WND_RCV
  {
    if o in AckSegs(p) {
      var i :| 0 <= i < |p.acks| && AckSegs(p)[i] == o;
    } else if o !in ProbeSegs(p) {
      hide Admitted, T.Due;
      T.DueMembers(Admitted(p).buf, FlushContext(p));
    }
  }

  // ----- The receiving side over one round -----

  /** The queue has been emptied and nothing was left behind. */
  predicate Open(r: R.Receiver) {
    r.queue == [] && R.Settled(r)
  }

  lemma {:induction false} SegsSettled(a: Pass, segs: seq<Seg>)
    requires S.Valid(a.pcb.snd) && R.Valid(a.pcb.rcv) && R.Settled(a.pcb.rcv)
    ensures R.Settled(ProcessAll(a, segs).pcb.rcv)
  {
    hide S.Valid, R.Valid, R.Settled, ProcessSeg;
    if segs != [] {
      var n := |segs| - 1;
      SegsSettled(a, segs[..n]);
      ProcessAllProcessed(a, segs[..n]);
      ProcessedValid(a.pcb, ProcessAll(a, segs[..n]).pcb);
      SegSettled(ProcessAll(a, segs[..n]), segs[n]);
    }
  }

  lemma SegSettled(a: Pass, s: Seg)
    requires R.Valid(a.pcb.rcv) && R.Settled(a.pcb.rcv)
    ensures R.Settled(ProcessSeg(a, s).pcb.rcv)
  {
    hide R.Valid, R.Settled, R.ParseData, S.ShrinkBuf, S.ParseUna, S.ParseAck, Rtt.Update;
    R.SettledIff(a.pcb.rcv, s);
  }

  lemma InputSettled(p: Pcb, d: seq<byte>)
    requires Valid(p) && R.Settled(p.rcv)
    ensures R.Settled(Input(p, d).pcb.rcv)
  {
    hide S.Valid, R.Valid, R.Settled, ProcessAll, D.Parse, S.ParseFastack, Congestion.Grow;
    SegsSettled(Pass(p, NoAck), D.Parse(p.cfg.conv, d).segs);
  }

  lemma {:induction false} InputAllSettled(p: Pcb, ds: seq<seq<byte>>)
    requires Valid(p) && R.Settled(p.rcv)
    ensures R.Settled(InputAll(p, ds).rcv)
  {
    hide Valid, Input, R.Settled;
    if ds != [] {
      InputAllKeeps(p, ds[..|ds| - 1]);
      InputAllSettled(p, ds[..|ds| - 1]);
      InputSettled(InputAll(p, ds[..|ds| - 1]), ds[|ds| - 1]);
    }
  }

  /** Datagrams without data leave the receive side alone. */
  lemma {:induction false} SegsNoData(a: Pass, segs: seq<Seg>)
    requires forall s <- segs :: s.cmd != CMD_PUSH
    ensures ProcessAll(a, segs).pcb.rcv == a.pcb.rcv
  {
    if segs != [] {
      var n := |segs| - 1;
      assert segs[n] in segs;
      SegsNoData(a, segs[..n]);
      SegNoData(ProcessAll(a, segs[..n]), segs[n]);
      hide ProcessSeg;
    }
  }

  lemma SegNoData(a: Pass, s: Seg)
    requires s.cmd != CMD_PUSH
    ensures ProcessSeg(a, s).pcb.rcv == a.pcb.rcv
  {
    hide S.ShrinkBuf, S.ParseUna, S.ParseAck, Rtt.Update;
  }

  lemma {:induction false} InputAllNoData(p: Pcb, ds: seq<seq<byte>>)
    requires Valid(p) && forall s <- D.ParseAll(p.cfg.conv, ds) :: s.cmd != CMD_PUSH
    ensures InputAll(p, ds).rcv == p.rcv
  {
    hide Valid, Input, D.Parse;
    if ds != [] {
      var n := |ds| - 1;
      var before, last := D.ParseAll(p.cfg.conv, ds[..n]), D.Parse(p.cfg.conv, ds[n]).segs;
      assert forall s :: s in before || s in last ==> s in before + last;
      InputAllKeeps(p, ds[..n]);
      InputAllNoData(p, ds[..n]);
      InputNoData(InputAll(p, ds[..n]), ds[n]);
    }
  }

  lemma InputNoData(p: Pcb, d: seq<byte>)
    requires forall s <- D.Parse(p.cfg.conv, d).segs :: s.cmd != CMD_PUSH
    ensures Input(p, d).pcb.rcv == p.rcv
  {
    hide ProcessAll, D.Parse, S.ParseFastack, Congestion.Grow;
    SegsNoData(Pass(p, NoAck), D.Parse(p.cfg.conv, d).segs);
  }

  /** A question among what arrives is still pending at the end. */
  lemma {:induction false} InputAllAsks(p: Pcb, ds: seq<seq<byte>>)
    requires Valid(p)
    ensures (exists s :: s in D.ParseAll(p.cfg.conv, ds) && s.cmd == CMD_WASK) ==> InputAll(p, ds).ask.tell
    ensures p.ask.tell ==> InputAll(p, ds).ask.tell
  {
    hide Valid, Input, D.Parse;
    if ds != [] {
      var n := |ds| - 1;
      InputAllKeeps(p, ds[..n]);
      InputAllAsks(p, ds[..n]);
      Emissions.InputAsk(InputAll(p, ds[..n]), ds[n]);
    }
  }

  // ----- One round -----

  function DeliverToB(n: Net, ds: seq<seq<byte>>): Net {
    if ds == [] then n else Next(DeliverToB(n, ds[..|ds| - 1]), AtB(DoInput(ds[|ds| - 1])))
  }

  function DeliverToA(n: Net, ds: seq<seq<byte>>): Net {
    if ds == [] then n else Next(DeliverToA(n, ds[..|ds| - 1]), AtA(DoInput(ds[|ds| - 1])))
  }

  /** Both clocks are set, and `a` flushes. */
  function Sending(n: Net, t: nat): Net {
    Next(Next(Next(n, AtA(DoClock(t))), AtB(DoClock(t))), AtA(DoFlush))
  }

  function Outbound(n: Net, t: nat): seq<seq<byte>> {
    Flush(Clock(n.a.pcb, t)).out
  }

  /** All of it arrives at `b`, whose application takes what has been delivered. */
  function Reading(n: Net, t: nat): Net {
    var m := DeliverToB(Sending(n, t), Outbound(n, t));
    Next(m, AtB(DoTake(|m.b.pcb.rcv.queue|)))
  }

  /** `b` flushes, and all of it arrives at `a`. */
  function Round(n: Net, t: nat): Net {
    var m := Reading(n, t);
    DeliverToA(Next(m, AtB(DoFlush)), Flush(m.b.pcb).out)
  }

  function RoundsOf(n: Net, ts: seq<nat>): Net {
    if ts == [] then n else Round(RoundsOf(n, ts[..|ts| - 1]), ts[|ts| - 1])
  }

  // ----- The invariant through a round -----

  ghost predicate Good(n: Net, conv: nat) {
    Inv(n, conv, MTU_DEF - OVERHEAD) && Bounded(n.a.pcb) && Bounded(n.b.pcb)
  }

  lemma StepGood(n: Net, s: Step, conv: nat)
    requires Good(n, conv) && Enabled(n, s) && NoWrap(Next(n, s))
    ensures Good(Next(n, s), conv)
  {
    NextKeeps(n, s, conv, MTU_DEF - OVERHEAD);
    hide Inv;
    Sides(n, conv);
    hide Apply, Bounded, Valid;
    match s
    case AtA(e) => ApplyBounded(n.a.pcb, e);
    case AtB(e) => ApplyBounded(n.b.pcb, e);
    case Lose(_, _) =>
  }

  lemma Sides(n: Net, conv: nat)
    requires Inv(n, conv, MTU_DEF - OVERHEAD)
    ensures Valid(n.a.pcb) && Valid(n.b.pcb) && n.a.pcb.cfg.conv == n.b.pcb.cfg.conv == conv < TWO_32
    ensures S.Valid(n.a.pcb.snd) && R.Valid(n.b.pcb.rcv) && Link(n.a, n.b)
  {
  }

  lemma {:induction false} DeliverToBGood(n: Net, ds: seq<seq<byte>>, conv: nat)
    requires Good(n, conv) && NoWrap(n) && forall d <- ds :: d in n.ab
    ensures var m := DeliverToB(n, ds);
            && Good(m, conv) && NoWrap(m) && m.a == n.a && m.ab == n.ab
            && m.b.pcb == InputAll(n.b.pcb, ds) && m.b.taken == n.b.taken
  {
    hide Good, NoWrap, Input;
    if ds != [] {
      var k := |ds| - 1;
      assert ds[k] in ds && forall d <- ds[..k] :: d in ds;
      DeliverToBGood(n, ds[..k], conv);
      ArriveGood(DeliverToB(n, ds[..k]), AtB(DoInput(ds[k])), conv);
    }
  }

  lemma {:induction false} DeliverToAGood(n: Net, ds: seq<seq<byte>>, conv: nat)
    requires Good(n, conv) && NoWrap(n) && forall d <- ds :: d in n.ba
    ensures var m := DeliverToA(n, ds);
            && Good(m, conv) && NoWrap(m) && m.b == n.b && m.ba == n.ba
            && m.a.pcb == InputAll(n.a.pcb, ds) && m.a.msgs == n.a.msgs && m.a.sent == n.a.sent
  {
    hide Good, NoWrap, Input;
    if ds != [] {
      var k := |ds| - 1;
      assert ds[k] in ds && forall d <- ds[..k] :: d in ds;
      DeliverToAGood(n, ds[..k], conv);
      ArriveGood(DeliverToA(n, ds[..k]), AtA(DoInput(ds[k])), conv);
    }
  }

  /** Only a flush uses up numbers. */
  lemma ArriveGood(n: Net, s: Step, conv: nat)
    requires Good(n, conv) && NoWrap(n) && Enabled(n, s) && !s.Lose? && !s.e.DoFlush?
    ensures Good(Next(n, s), conv) && NoWrap(Next(n, s))
  {
    assert NoWrap(Next(n, s)) by {
      Sides(n, conv);
      hide Inv, Valid, Input;
      if s.AtA? {
        NoNumbers(n.a.pcb, s.e);
      } else {
        NoNumbers(n.b.pcb, s.e);
      }
    }
    hide Good, Next, NoWrap;
    StepGood(n, s, conv);
  }

  lemma NoNumbers(p: Pcb, e: Event)
    requires Valid(p) && !e.DoFlush?
    ensures Apply(p, e).snd.nxt == p.snd.nxt
  {
    hide Valid, Input;
    if e.DoInput? {
      Runs.InputKeeps(p, e.data);
    }
  }

  /** No number of this round, and no window behind it, passes 32 bits. */
  predicate RoundFits(n: Net, t: nat) {
    NoWrap(Sending(n, t)) && NoWrap(Next(Reading(n, t), AtB(DoFlush)))
  }

  /** The invariant, and room for the numbers of one more round. */
  ghost predicate Turn(n: Net, t: nat, conv: nat) {
    Good(n, conv) && NoWrap(n) && RoundFits(n, t)
  }

  lemma SendingGood(n: Net, t: nat, conv: nat)
    ensures Turn(n, t, conv) ==>
              var m := Sending(n, t);
              && Good(m, conv) && NoWrap(m) && m.a.pcb == Flush(Clock(n.a.pcb, t)).pcb && m.b.pcb == Clock(n.b.pcb, t)
              && m.a.msgs == n.a.msgs && m.b.taken == n.b.taken
              && forall d <- Outbound(n, t) :: d in m.ab
  {
    hide Good, NoWrap, Flush;
    if Turn(n, t, conv) {
      var n1 := Next(n, AtA(DoClock(t)));
      var n2 := Next(n1, AtB(DoClock(t)));
      ArriveGood(n, AtA(DoClock(t)), conv);
      ArriveGood(n1, AtB(DoClock(t)), conv);
      StepGood(n2, AtA(DoFlush), conv);
    }
  }

  /** What has arrived at `b` by the time its application reads. */
  function Received(n: Net, t: nat): Pcb {
    InputAll(Clock(n.b.pcb, t), Outbound(n, t))
  }

  lemma ReadingGood(n: Net, t: nat, conv: nat)
    ensures Turn(n, t, conv) ==>
              var m, before := Reading(n, t), DeliverToB(Sending(n, t), Outbound(n, t));
              && Good(before, conv) && before.a == Sending(n, t).a && before.b.pcb == Received(n, t) && before.b.taken == n.b.taken
              && Good(m, conv) && NoWrap(m) && m.a == Sending(n, t).a
              && m.b.pcb == Take(Received(n, t), |Received(n, t).rcv.queue|)
  {
    hide Good, NoWrap, Flush, InputAll;
    if Turn(n, t, conv) {
      SendingGood(n, t, conv);
      DeliverToBGood(Sending(n, t), Outbound(n, t), conv);
      var before := DeliverToB(Sending(n, t), Outbound(n, t));
      ArriveGood(before, AtB(DoTake(|before.b.pcb.rcv.queue|)), conv);
    }
  }

  /** The endpoint `b` when it answers, and its answer. */
  function Answering(n: Net, t: nat): Pcb {
    Take(Received(n, t), |Received(n, t).rcv.queue|)
  }

  lemma RoundGood(n: Net, t: nat, conv: nat)
    ensures Turn(n, t, conv) ==>
              var m := Round(n, t);
              && Good(m, conv) && NoWrap(m)
              && m.a.pcb == InputAll(Flush(Clock(n.a.pcb, t)).pcb, Flush(Answering(n, t)).out)
              && m.b.pcb == Flush(Answering(n, t)).pcb && m.a.msgs == n.a.msgs
  {
    hide Good, NoWrap, Flush, InputAll, Received;
    if Turn(n, t, conv) {
      ReadingGood(n, t, conv);
      SendingGood(n, t, conv);
      var m := Reading(n, t);
      var m1 := Next(m, AtB(DoFlush));
      StepGood(m, AtB(DoFlush), conv);
      DeliverToAGood(m1, Flush(m.b.pcb).out, conv);
    }
  }

  // ----- What a round achieves -----

  lemma ClockKeeps(p: Pcb, t: nat)
    requires Valid(p) && Bounded(p)
    ensures Valid(Clock(p, t)) && Bounded(Clock(p, t))
  {
    hide S.Valid, R.Valid;
  }

  lemma QueueLength(x: Peer, y: Peer)
    requires Link(x, y)
    ensures |y.taken| + |y.pcb.rcv.queue| == y.pcb.rcv.nxt <= x.pcb.snd.nxt
  {
    hide R.Held, Carries;
  }

  /** `b` receives no more in a round than what can be in flight. */
  lemma FewReceived(n: Net, t: nat, conv: nat)
    ensures Turn(n, t, conv) && Open(n.b.pcb.rcv) ==> n.a.pcb.snd.una <= n.b.pcb.rcv.nxt
    ensures Turn(n, t, conv) && Open(n.b.pcb.rcv) ==>
              var y := Received(n, t);
              |y.rcv.queue| <= WND_SND && y.rcv.nxt + WND_RCV < TWO_32 && Valid(y) && R.Settled(y.rcv) && Bounded(y)
  {
    hide Valid, Link, Flush, InputAll, Accepted, Mail, Apply, R.Settled;
    if Turn(n, t, conv) && Open(n.b.pcb.rcv) {
      Sides(n, conv);
      WindowCovers(n.a, n.b);
      ClockKeeps(n.a.pcb, t);
      ClockKeeps(n.b.pcb, t);
      SendingGood(n, t, conv);
      ReadingGood(n, t, conv);
      var m := DeliverToB(Sending(n, t), Outbound(n, t));
      Sides(m, conv);
      QueueLength(n.a, n.b);
      QueueLength(m.a, m.b);
      Runs.FlushKeeps(Clock(n.a.pcb, t));
      InputAllSettled(Clock(n.b.pcb, t), Outbound(n, t));
    }
  }

  lemma StaysOpen(r: R.Receiver)
    requires R.Settled(r) && |r.queue| < r.wnd
    ensures Open(r.(queue := []))
  {
  }

  lemma AnsweringFacts(n: Net, t: nat, conv: nat)
    ensures Turn(n, t, conv) && Open(n.b.pcb.rcv) ==>
              var z := Answering(n, t);
              && Valid(z) && Open(z.rcv) && z.rcv.queue == [] && z.rcv.wnd == WND_RCV
              && z.updated != 0 && z.cfg.conv == conv < TWO_32
              && z.acks == Received(n, t).acks && z.ask == Received(n, t).ask
  {
    hide Valid, Flush, InputAll, R.Settled, Good, NoWrap, Open;
    if Turn(n, t, conv) && Open(n.b.pcb.rcv) {
      FewReceived(n, t, conv);
      var y := Received(n, t);
      Runs.TakeValid(y, |y.rcv.queue|);
      StaysOpen(y.rcv);
      assert y.rcv.queue[|y.rcv.queue|..] == [];
      GoodSides(n, t, conv);
      InputAllKeeps(Clock(n.b.pcb, t), Outbound(n, t));
    }
  }

  lemma GoodSides(n: Net, t: nat, conv: nat)
    requires Good(n, conv)
    ensures var x, y := Clock(n.a.pcb, t), Clock(n.b.pcb, t);
            && Valid(x) && Valid(y) && Bounded(x) && Bounded(y) && x.cfg.conv == y.cfg.conv == conv < TWO_32
            && x.updated != 0 && y.updated != 0
  {
    hide Valid, Link, Bounded;
    Sides(n, conv);
    ClockKeeps(n.a.pcb, t);
    ClockKeeps(n.b.pcb, t);
  }

  /** After a round at a late time nothing is in flight, and `b` has read all it could. */
  lemma RoundClears(n: Net, t: nat, conv: nat)
    ensures Turn(n, t, conv) && Open(n.b.pcb.rcv) && Late(n.a.pcb, t) ==> Round(n, t).a.pcb.snd.buf == [] && Open(Round(n, t).b.pcb.rcv)
  {
    hide Valid, Flush, InputAll, R.Settled, Good, NoWrap, Late, Received, Has, Answering, DueSegs, Open;
    if Turn(n, t, conv) && Open(n.b.pcb.rcv) && Late(n.a.pcb, t) {
      RoundGood(n, t, conv);
      AnsweringFacts(n, t, conv);
      Runs.FlushKeeps(Answering(n, t));
      GoodSides(n, t, conv);
      var x := Clock(n.a.pcb, t);
      Runs.FlushKeeps(x);
      LateLater(n.a.pcb, t);
      var q := InputAll(Flush(x).pcb, Flush(Answering(n, t)).out);
      forall sn ensures !Has(q.snd.buf, sn) {
        if Has(Flush(x).pcb.snd.buf, sn) {
          AllGoesOut(x, sn);
          var s :| s in DueSegs(x) && s.sn == sn;
          DueIsAcked(n, t, conv, s);
        }
        InputAllHas(Flush(x).pcb, Flush(Answering(n, t)).out, sn);
      }
      NothingLeft(q.snd.buf);
    }
  }

  lemma LateLater(p: Pcb, t: nat)
    requires Late(p, t)
    ensures Late(Clock(p, t), Clock(p, t).current)
  {
  }

  lemma NothingLeft(buf: seq<Seg>)
    requires forall sn :: !Has(buf, sn)
    ensures buf == []
  {
    if buf != [] {
      assert Has(buf, buf[0].sn);
    }
  }

  lemma DueIsAcked(n: Net, t: nat, conv: nat, s: Seg)
    ensures Turn(n, t, conv) && Open(n.b.pcb.rcv) && s in DueSegs(Clock(n.a.pcb, t)) ==> !Has(InputAll(Flush(Clock(n.a.pcb, t)).pcb, Flush(Answering(n, t)).out).snd.buf, s.sn)
  {
    hide Valid, Flush, InputAll, R.Settled, Good, NoWrap, Has, DueSegs, Open;
    if Turn(n, t, conv) && Open(n.b.pcb.rcv) && s in DueSegs(Clock(n.a.pcb, t)) {
      var x, y := Clock(n.a.pcb, t), Clock(n.b.pcb, t);
      GoodSides(n, t, conv);
      FewReceived(n, t, conv);
      DueInFlight(x, s);
      RoundTrip(x, y, Outbound(n, t), |Received(n, t).rcv.queue|, Flush(Answering(n, t)).out, s);
    }
  }

  /** If `a` transmits data or asks for the window, there is something in the answer. */
  lemma AnswerComes(n: Net, t: nat, conv: nat)
    ensures Turn(n, t, conv) && Open(n.b.pcb.rcv) && (DueSegs(Clock(n.a.pcb, t)) != [] || Asking(Clock(n.a.pcb, t)).send) ==> D.ParseAll(conv, Flush(Answering(n, t)).out) != []
  {
    hide Valid, Flush, InputAll, R.Settled, Good, NoWrap, DueSegs, Open, D.ParseAll, D.Parse, OnWire, Answering, Asking, P.Due;
    if Turn(n, t, conv) && Open(n.b.pcb.rcv) && (DueSegs(Clock(n.a.pcb, t)) != [] || Asking(Clock(n.a.pcb, t)).send) {
      var x, y, z := Clock(n.a.pcb, t), Clock(n.b.pcb, t), Answering(n, t);
      GoodSides(n, t, conv);
      AnsweringFacts(n, t, conv);
      if DueSegs(x) != [] {
        var s := DueSegs(x)[0];
        assert s in DueSegs(x);
        DueIsOwed(n, t, conv, s);
        var e, ack := AckIsEmitted(z, Ack(s.sn, OnWire(s).ts));
        D.ParseAllMember(conv, Flush(z).out, e, ack);
      } else {
        Emissions.ProbesAnswered(x);
        AskingSend(x);
        InputAllAsks(y, Outbound(n, t));
        Emissions.ProbesAnswered(z);
      }
    }
  }

  lemma AskingSend(p: Pcb)
    ensures Asking(p).send <==> p.ask.send || P.Due(p.prober, p.rmtWnd, p.current)
  {
  }

  lemma DueIsOwed(n: Net, t: nat, conv: nat, s: Seg)
    ensures Turn(n, t, conv) && Open(n.b.pcb.rcv) && s in DueSegs(Clock(n.a.pcb, t)) ==> s.sn < TWO_32 && Owes(Answering(n, t), Ack(s.sn, OnWire(s).ts))
  {
    hide Valid, Flush, InputAll, R.Settled, Good, NoWrap, DueSegs, Open, D.Parse, OnWire;
    if Turn(n, t, conv) && Open(n.b.pcb.rcv) && s in DueSegs(Clock(n.a.pcb, t)) {
      var x, y := Clock(n.a.pcb, t), Clock(n.b.pcb, t);
      GoodSides(n, t, conv);
      FewReceived(n, t, conv);
      AnsweringFacts(n, t, conv);
      DueInFlight(x, s);
      InputAllKeeps(y, Outbound(n, t));
      var d := DueIsEmitted(x, s);
      DataOnWire(s);
      InputAllOwes(y, Outbound(n, t), d, OnWire(s));
    }
  }

  /** What a round does to the send side besides acknowledging. */
  lemma RoundMoves(n: Net, t: nat, conv: nat)
    ensures Turn(n, t, conv) && Open(n.b.pcb.rcv) ==>
              var x, p := Clock(n.a.pcb, t), Round(n, t).a.pcb;
              && p.cong.cwnd >= 1 && p.prober == P.Tick(x.prober, x.rmtWnd, t)
              && Moving(x) <= |x.snd.queue| && p.snd.queue == x.snd.queue[Moving(x)..]
              && (p.rmtWnd == x.rmtWnd || p.rmtWnd == WND_RCV)
              && (DueSegs(x) != [] || Asking(x).send ==> p.rmtWnd == WND_RCV)
  {
    hide Valid, Flush, InputAll, R.Settled, Good, NoWrap, DueSegs, Open, D.ParseAll, Answering, Asking, Moving, P.Tick;
    if Turn(n, t, conv) && Open(n.b.pcb.rcv) {
      var x, z := Clock(n.a.pcb, t), Answering(n, t);
      GoodSides(n, t, conv);
      RoundGood(n, t, conv);
      AnsweringFacts(n, t, conv);
      FlushMoves(x);
      Runs.FlushKeeps(x);
      AnnouncesAll(z);
      InputAllSame(Flush(x).pcb, Flush(z).out);
      InputAllWnd(Flush(x).pcb, Flush(z).out, WND_RCV);
      if DueSegs(x) != [] || Asking(x).send {
        AnswerComes(n, t, conv);
      }
    }
  }

  lemma FlushMoves(x: Pcb)
    requires Valid(x) && x.updated != 0
    ensures var q := Flush(x).pcb;
            && q.cong.cwnd >= 1 && q.prober == P.Tick(x.prober, x.rmtWnd, x.current) && q.rmtWnd == x.rmtWnd
            && Moving(x) <= |x.snd.queue| && q.snd.queue == x.snd.queue[Moving(x)..]
  {
    hide Valid, Admitted, Moving, T.TouchAll, D.Pack, FlushSegs, P.Tick, Congestion.React, DueSegs, FlushContext;
    Runs.FlushKeeps(x);
    AdmittedQueue(x);
  }

  lemma AdmittedQueue(x: Pcb)
    requires x.updated != 0
    ensures Moving(x) <= |x.snd.queue| && Admitted(x).queue == x.snd.queue[Moving(x)..]
  {
    hide S.Admit, S.Numbered, Window;
    S.AdmitPrefix(x.snd, x.snd.una + Window(x), StampOf(x));
  }

  // ----- How far it is to the end -----

  /** Rounds needed before the window is open: none, one to ask for it, or one more to start asking. */
  function Phase(p: Pcb): nat {
    if p.snd.buf != [] || p.cong.cwnd == 0 then 2
    else if p.rmtWnd > 0 then 0
    else if p.prober.wait != 0 then 1
    else 2
  }

  function Remaining(p: Pcb): nat {
    |p.snd.queue| + Phase(p)
  }

  /** With nothing in flight, an open window and something waiting, something moves and goes out. */
  lemma SomethingMoves(p: Pcb)
    requires Valid(p) && Bounded(p) && p.updated != 0 && p.snd.buf == [] && p.cong.cwnd >= 1 && p.rmtWnd > 0
    ensures p.snd.queue != [] ==> Moving(p) >= 1 && DueSegs(p) != []
  {
    hide S.Admit, T.Due, T.Decide, T.Touch, Congestion.Tracks, R.Valid, Sliced;
    S.AdmitPrefix(p.snd, p.snd.una + Window(p), StampOf(p));
    if p.snd.queue != [] {
      var first := Admitted(p).buf[0];
      assert first == S.Stamped(StampOf(p), p.snd.queue[0], p.snd.nxt);
      FirstDecides(first, FlushContext(p));
      T.DueMembers(Admitted(p).buf, FlushContext(p));
      assert T.Touch(first, FlushContext(p)) in DueSegs(p);
    }
  }

  lemma FirstDecides(s: Seg, c: T.Context)
    requires s.xmit == 0
    ensures T.Decide(s, c) != T.Skip
  {
  }

  /** Every round at a late time brings the end nearer. */
  lemma RoundShrinks(n: Net, t: nat, conv: nat)
    ensures Turn(n, t, conv) && Open(n.b.pcb.rcv) && Late(n.a.pcb, t) ==>
              var r := Remaining(Round(n, t).a.pcb); r == 0 || r < Remaining(n.a.pcb)
  {
    hide Valid, Flush, InputAll, Good, NoWrap, DueSegs, Open, Round, Moving, RoundFits;
    if Turn(n, t, conv) && Open(n.b.pcb.rcv) && Late(n.a.pcb, t) {
      var x := Clock(n.a.pcb, t);
      GoodSides(n, t, conv);
      RoundClears(n, t, conv);
      RoundMoves(n, t, conv);
      if x.snd.buf == [] && x.cong.cwnd >= 1 && x.rmtWnd > 0 {
        SomethingMoves(x);
      }
    }
  }

  /** All rounds fit, and each comes late enough for what is then in flight. */
  ghost predicate Fair(n: Net, ts: seq<nat>) {
    ts == [] ||
    (var k := |ts| - 1;
     var m := RoundsOf(n, ts[..k]);
     Fair(n, ts[..k]) && RoundFits(m, ts[k]) && Late(m.a.pcb, ts[k]))
  }

  lemma {:induction false} RoundsShrink(n: Net, ts: seq<nat>, conv: nat)
    requires Good(n, conv) && NoWrap(n) && Open(n.b.pcb.rcv) && Fair(n, ts)
    ensures var m := RoundsOf(n, ts);
            && Good(m, conv) && NoWrap(m) && Open(m.b.pcb.rcv) && m.a.msgs == n.a.msgs
            && (Remaining(m.a.pcb) == 0 || Remaining(m.a.pcb) + |ts| <= Remaining(n.a.pcb))
            && (ts != [] ==> m.a.pcb.snd.buf == [])
  {
    hide Good, NoWrap, Open, Round, RoundFits, Late, Remaining;
    if ts != [] {
      var k := |ts| - 1;
      RoundsShrink(n, ts[..k], conv);
      var m := RoundsOf(n, ts[..k]);
      RoundGood(m, ts[k], conv);
      RoundClears(m, ts[k], conv);
      RoundShrinks(m, ts[k], conv);
    }
  }

  // ----- Everything is read -----

  /** `a` has nothing more to send. */
  predicate Idle(p: Pcb) {
    p.snd.queue == [] && p.snd.buf == []
  }

  /** When `a` is done and `b` has emptied its queue, everything `a` accepted has been read exactly when `b`
      left nothing deliverable behind. */
  lemma IdleReadIff(n: Net, conv: nat)
    requires Good(n, conv) && Idle(n.a.pcb) && n.b.pcb.rcv.queue == []
    ensures M.Regroup(Delivered(n.b)).done == n.a.msgs <==> R.Settled(n.b.pcb.rcv)
  {
    hide Valid, Mail;
    Sides(n, conv);
    var a, b, mss := n.a, n.b, MTU_DEF - OVERHEAD;
    assert a.sent + Payloads([]) == a.sent;
    assert b.taken + Payloads([]) == b.taken;
    if R.Settled(b.pcb.rcv) {
      AllHeld(a, b);
      M.RegroupFragments(a.msgs, mss);
      assert a.sent[..|a.sent|] == a.sent;
    } else {
      assert b.pcb.rcv.buf[0] in b.pcb.rcv.buf && Carries(a.sent, b.pcb.rcv.buf[0]);
      M.ReadExactlyWhenComplete(a.msgs, mss, b.taken, |a.msgs|);
      assert a.msgs[..|a.msgs|] == a.msgs;
    }
  }

  lemma AllHeld(x: Peer, y: Peer)
    requires Link(x, y) && x.pcb.snd.buf == [] && R.Valid(y.pcb.rcv)
    requires R.Settled(y.pcb.rcv) && |y.pcb.rcv.queue| < y.pcb.rcv.wnd
    ensures y.pcb.rcv.nxt == |x.sent|
  {
    NextNotHeld(y.pcb.rcv);
    hide R.Held, Payloads;
    assert !Has(x.pcb.snd.buf, y.pcb.rcv.nxt);
  }

  lemma ReachableGood(conv: nat, n: Net)
    requires conv < TWO_32 && Reachable(conv, n)
    ensures Good(n, conv) && NoWrap(n)
  {
    hide Inv, RunOf, Bounded, NoWrap;
    ReachableInv(conv, n);
    var steps :| Possible(Start(conv), steps) && n == RunOf(Start(conv), steps);
    RunBounded(conv, steps);
  }

  /** From every state two endpoints reach over the network in which `b` has read what it could: rounds without
      loss, each late enough, two more than there are segments waiting, leave nothing waiting and nothing in flight,
      and every message that `a` accepted has been read by `b`'s application, in order. */
  lemma EverythingIsRead(conv: nat, n: Net, ts: seq<nat>)
    requires conv < TWO_32 && Reachable(conv, n)
    ensures Open(n.b.pcb.rcv) && Fair(n, ts) && |ts| >= |n.a.pcb.snd.queue| + 2
        ==> var m := RoundsOf(n, ts);
            && m.a.pcb.snd.queue == [] && m.a.pcb.snd.buf == [] && m.b.pcb.rcv.queue == []
            && M.Regroup(m.b.taken).done == n.a.msgs
  {
    hide Good, NoWrap, Reachable, Fair, RoundsOf, R.Settled, M.Regroup;
    ReachableGood(conv, n);
    if Open(n.b.pcb.rcv) && Fair(n, ts) && |ts| >= |n.a.pcb.snd.queue| + 2 {
      RoundsShrink(n, ts, conv);
      var m := RoundsOf(n, ts);
      IdleReadIff(m, conv);
      assert m.b.taken + Payloads([]) == m.b.taken;
    }
  }

  // ----- And when `b` has left something behind -----

  lemma NothingDue(p: Pcb)
    requires Idle(p)
    ensures DueSegs(p) == []
  {
    hide T.Decide, T.Touch, FlushContext;
    S.AdmitPrefix(p.snd, p.snd.una + Window(p), StampOf(p));
    assert Admitted(p).buf == [];
  }

  lemma NoDataEmitted(p: Pcb)
    requires Valid(p) && p.cfg.conv < TWO_32 && p.updated != 0 && Idle(p)
    ensures forall s <- D.ParseAll(p.cfg.conv, Flush(p).out) :: s.cmd != CMD_PUSH
  {
    hide Valid, Flush, AckSegs, ProbeSegs, DueSegs, D.ParseAll, D.OnWires, OnWire, Idle;
    Emissions.FlushIsReadBack(p);
    NothingDue(p);
    forall s | s in D.ParseAll(p.cfg.conv, Flush(p).out) ensures s.cmd != CMD_PUSH {
      var o := SourceOf(AckSegs(p), ProbeSegs(p), DueSegs(p), s);
      ControlOnWire(p, o);
    }
  }

  lemma ControlOnWire(p: Pcb, o: Seg)
    requires o in AckSegs(p) || o in ProbeSegs(p)
    ensures OnWire(o).cmd != CMD_PUSH
  {
    hide AckSegs, ProbeSegs;
    if o in AckSegs(p) {
      Emissions.AckShape(p, o);
    } else {
      Emissions.ProbeShape(p, o);
    }
  }

  /** A round of an idle side brings the other side no data and leaves it as it was. */
  lemma RoundIdle(n: Net, t: nat, conv: nat)
    ensures Turn(n, t, conv) && Idle(n.a.pcb) && n.b.pcb.rcv.queue == [] ==> Idle(Round(n, t).a.pcb) && Round(n, t).b.pcb.rcv == n.b.pcb.rcv
  {
    hide Valid, Flush, InputAll, Good, NoWrap, Has, DueSegs, D.ParseAll, R.Settled;
    if Turn(n, t, conv) && Idle(n.a.pcb) && n.b.pcb.rcv.queue == [] {
      var x, y := Clock(n.a.pcb, t), Clock(n.b.pcb, t);
      GoodSides(n, t, conv);
      RoundGood(n, t, conv);
      NoDataEmitted(x);
      InputAllNoData(y, Outbound(n, t));
      InputAllKeeps(y, Outbound(n, t));
      var z := Answering(n, t);
      assert y.rcv.queue[0..] == [] && z.rcv == y.rcv;
      Runs.TakeValid(Received(n, t), 0);
      Runs.FlushKeeps(z);
      IdleFlush(x);
      Runs.FlushKeeps(x);
      InputAllSame(Flush(x).pcb, Flush(z).out);
      forall sn ensures !Has(InputAll(Flush(x).pcb, Flush(z).out).snd.buf, sn) {
        NoneThere(sn);
        InputAllHas(Flush(x).pcb, Flush(z).out, sn);
      }
      NothingLeft(InputAll(Flush(x).pcb, Flush(z).out).snd.buf);
    }
  }

  lemma NoneThere(sn: nat)
    ensures !Has([], sn)
  {
  }

  lemma IdleFlush(x: Pcb)
    requires Valid(x) && x.updated != 0 && Idle(x)
    ensures Flush(x).pcb.snd.buf == [] && Flush(x).pcb.snd.queue == []
  {
    FlushMoves(x);
    FlushedBuffer(x);
    hide Valid, Flush, Window, T.Touch, FlushContext;
    S.AdmitPrefix(x.snd, x.snd.una + Window(x), StampOf(x));
    assert Admitted(x).buf == [];
  }

  ghost predicate FitAll(n: Net, ts: seq<nat>) {
    ts == [] || (FitAll(n, ts[..|ts| - 1]) && RoundFits(RoundsOf(n, ts[..|ts| - 1]), ts[|ts| - 1]))
  }

  lemma {:induction false} RoundsIdle(n: Net, ts: seq<nat>, conv: nat)
    requires Good(n, conv) && NoWrap(n) && FitAll(n, ts) && Idle(n.a.pcb) && n.b.pcb.rcv.queue == []
    ensures var m := RoundsOf(n, ts);
            Good(m, conv) && NoWrap(m) && Idle(m.a.pcb) && m.b.pcb.rcv == n.b.pcb.rcv && m.a.msgs == n.a.msgs
  {
    hide Good, NoWrap, Round, RoundFits, Idle;
    if ts != [] {
      var k := |ts| - 1;
      RoundsIdle(n, ts[..k], conv);
      RoundIdle(RoundsOf(n, ts[..k]), ts[k], conv);
      RoundGood(RoundsOf(n, ts[..k]), ts[k], conv);
    }
  }

  /** That `b` left nothing behind is needed: once `a` has nothing more to send and `b` has emptied its queue, no
      number of rounds, however late, makes `b` read what it left deliverable in its buffer (the early return
      of kcp/parse.go:93-95). Everything is read, then or at any later time, exactly if nothing was left. */
  lemma StuckForGood(conv: nat, n: Net, ts: seq<nat>)
    requires conv < TWO_32 && Reachable(conv, n)
    ensures Idle(n.a.pcb) && n.b.pcb.rcv.queue == [] && FitAll(n, ts)
        ==> (M.Regroup(RoundsOf(n, ts).b.taken).done == n.a.msgs <==> R.Settled(n.b.pcb.rcv))
  {
    hide Good, NoWrap, Reachable, FitAll, RoundsOf, R.Settled, M.Regroup, Idle;
    ReachableGood(conv, n);
    if Idle(n.a.pcb) && n.b.pcb.rcv.queue == [] && FitAll(n, ts) {
      RoundsIdle(n, ts, conv);
      var m := RoundsOf(n, ts);
      IdleReadIff(m, conv);
      assert m.b.taken + Payloads([]) == m.b.taken;
    }
  }
}
