/** What one flush puts on the network, and what the peer reads out of it. */
module Emissions {
  import opened Bytes
  import opened Segments
  import opened Endpoints
  import opened Lists
  import Congestion
  import D = Datagrams
  import P = Probing
  import R = Receivers
  import Runs
  import S = Senders
  import T = Retransmission

  lemma FlushSegSendable(p: Pcb, s: Seg)
    requires Valid(p) && p.cfg.conv < TWO_32 && s in FlushSegs(p)
    ensures D.Sendable(p.cfg.conv, p.cfg.mtu, s)
    ensures s.cmd == CMD_ACK <==> s in AckSegs(p)
    ensures s.cmd == CMD_PUSH <==> s in DueSegs(p)
  {
    hide Valid, AckSegs, DueSegs, ProbeSegs, Sliced;
    var acks, probes, due := AckSegs(p), ProbeSegs(p), DueSegs(p);
    assert s in acks || s in probes || s in due;
    if s in due {
      DueShape(p, s);
    }
    if s in acks {
      AckShape(p, s);
    }
    if s in probes {
      ProbeShape(p, s);
    }
    assert s.cmd == CMD_ACK ==> s in acks;
    MtuShape(p);
  }

  lemma MtuShape(p: Pcb)
    requires Valid(p)
    ensures 0 < p.cfg.mss && p.cfg.mss + OVERHEAD == p.cfg.mtu < TWO_32
  {
  }

  lemma AckShape(p: Pcb, s: Seg)
    requires s in AckSegs(p)
    ensures s.cmd == CMD_ACK && s.conv == p.cfg.conv && s.data == []
  {
    var i :| 0 <= i < |p.acks| && AckSegs(p)[i] == s;
  }

  lemma ProbeShape(p: Pcb, s: Seg)
    requires s in ProbeSegs(p)
    ensures (s.cmd == CMD_WASK || s.cmd == CMD_WINS) && s.conv == p.cfg.conv && s.data == []
  {
  }

  lemma DueShape(p: Pcb, s: Seg)
    requires Valid(p) && s in DueSegs(p)
    ensures |s.data| <= p.cfg.mss && s.cmd == CMD_PUSH && s.conv == p.cfg.conv
  {
    hide Valid, Admitted, FlushContext, T.Due, T.Touch, T.Decide, Flushed;
    var buf, c := Admitted(p).buf, FlushContext(p);
    T.DueMembers(buf, c);
    Runs.FlushedSnd(p);
    var o :| o in buf && T.Decide(o, c) != T.Skip && s == T.Touch(o, c);
    var i :| 0 <= i < |buf| && buf[i] == o;
    assert T.TouchAll(buf, c)[i] == s;
    assert s in Flushed(p).snd.buf;
  }

  /** The datagrams of one flush, fed to the peer's parser in order, give back exactly the owed
      acknowledgements in arrival order, then the probes, then the due data, with no error; each
      datagram is non-empty, fits the MTU and holds whole segments only, and none is closed while the next
      segment would have fitted. */
  lemma FlushIsReadBack(p: Pcb)
    requires Valid(p) && p.cfg.conv < TWO_32 && p.updated != 0
    ensures var out := Flush(p).out;
            && (forall d <- out :: D.WholeDatagram(p.cfg.conv, p.cfg.mtu, d)) && D.AllFull(p.cfg.conv, p.cfg.mtu, out)
            && D.ParseAll(p.cfg.conv, out)
               == D.OnWires(AckSegs(p)) + D.OnWires(ProbeSegs(p)) + D.OnWires(DueSegs(p))
  {
    hide Valid, DueSegs, AckSegs, ProbeSegs, D.OnWires, D.Parse, D.ParseAll, D.AllFull;
    forall s | s in FlushSegs(p) ensures D.Sendable(p.cfg.conv, p.cfg.mtu, s) {
      FlushSegSendable(p, s);
    }
    D.PackParse(p.cfg.conv, p.cfg.mtu, FlushSegs(p));
    D.PackedTight(p.cfg.conv, p.cfg.mtu, FlushSegs(p));
    D.OnWiresConcat(AckSegs(p) + ProbeSegs(p), DueSegs(p));
    D.OnWiresConcat(AckSegs(p), ProbeSegs(p));
  }

  /** No datagram a flush emitted is refused by a peer of the same conversation. */
  lemma PeerAcceptsFlush(p: Pcb, q: Pcb, d: seq<byte>)
    requires Valid(p) && p.cfg.conv < TWO_32 && p.updated != 0 && q.cfg.conv == p.cfg.conv
    requires d in Flush(p).out
    ensures Input(q, d).code == 0
  {
    FlushIsReadBack(p);
    assert D.WholeDatagram(p.cfg.conv, p.cfg.mtu, d);
    hide Valid, Flush, ProcessAll, Conclude;
    WholeIsLong(p.cfg.conv, p.cfg.mtu, d);
  }

  lemma WholeIsLong(conv: nat, mtu: nat, d: seq<byte>)
    requires D.WholeDatagram(conv, mtu, d)
    ensures |d| >= OVERHEAD
  {
    assert D.Wires([]) == [];
  }

  lemma FlushCommands(p: Pcb)
    requires Valid(p) && p.cfg.conv < TWO_32
    ensures forall s <- FlushSegs(p) :: s.cmd < TWO_8
    ensures (exists s :: s in FlushSegs(p) && s.cmd == CMD_WASK) <==> Asking(p).send
    ensures (exists s :: s in FlushSegs(p) && s.cmd == CMD_WINS) <==> Asking(p).tell
  {
    forall s | s in FlushSegs(p)
      ensures ((s.cmd == CMD_WASK || s.cmd == CMD_WINS) ==> s in ProbeSegs(p)) && s.cmd < TWO_8
    {
      FlushSegSendable(p, s);
    }
    ProbeCommands(p);
    hide Valid, FlushSegs, ProbeSegs, Asking;
  }

  lemma FlushClearsAsk(p: Pcb)
    requires p.updated != 0
    ensures Flush(p).pcb.ask == Ask(false, false)
  {
  }

  /** Exactly the asked-for probes go out: a question when one is due or pending, an answer when the
      peer asked since the last flush; afterwards nothing is pending. */
  lemma ProbesAnswered(p: Pcb)
    requires Valid(p) && p.cfg.conv < TWO_32 && p.updated != 0
    ensures var read := D.ParseAll(p.cfg.conv, Flush(p).out);
            && ((exists s :: s in read && s.cmd == CMD_WASK) <==> p.ask.send || P.Due(p.prober, p.rmtWnd, p.current))
            && ((exists s :: s in read && s.cmd == CMD_WINS) <==> p.ask.tell)
    ensures Flush(p).pcb.ask == Ask(false, false)
  {
    FlushIsReadBack(p);
    D.OnWiresConcat(AckSegs(p) + ProbeSegs(p), DueSegs(p));
    D.OnWiresConcat(AckSegs(p), ProbeSegs(p));
    FlushCommands(p);
    hide Valid, FlushSegs, DueSegs, AckSegs, ProbeSegs, D.OnWires, D.ParseAll, Flush;
    CommandOnWire(FlushSegs(p), CMD_WASK);
    CommandOnWire(FlushSegs(p), CMD_WINS);
    FlushClearsAsk(p);
  }

  lemma ProbeCommands(p: Pcb)
    ensures var probes := ProbeSegs(p);
            && (forall s <- probes :: s in FlushSegs(p) && (s.cmd == CMD_WASK || s.cmd == CMD_WINS))
            && ((exists s :: s in probes && s.cmd == CMD_WASK) <==> Asking(p).send)
            && ((exists s :: s in probes && s.cmd == CMD_WINS) <==> Asking(p).tell)
  {
    var probes := ProbeSegs(p);
    if Asking(p).send {
      assert probes[0] in probes && probes[0].cmd == CMD_WASK;
    }
    if Asking(p).tell {
      assert probes[|probes| - 1] in probes && probes[|probes| - 1].cmd == CMD_WINS;
    }
  }

  lemma CommandOnWire(segs: seq<Seg>, cmd: nat)
    requires cmd < TWO_8 && forall s <- segs :: s.cmd < TWO_8
    ensures (exists s :: s in D.OnWires(segs) && s.cmd == cmd) <==> (exists s :: s in segs && s.cmd == cmd)
  {
    if s :| s in D.OnWires(segs) && s.cmd == cmd {
      var i :| 0 <= i < |segs| && D.OnWires(segs)[i] == s;
      assert segs[i] in segs;
    }
    if s :| s in segs && s.cmd == cmd {
      var i :| 0 <= i < |segs| && segs[i] == s;
      assert D.OnWires(segs)[i] in D.OnWires(segs);
    }
  }

  /** What the probe timer saw: clock and peer's window at every flush that was not refused. */
  function LooksOf(conv: nat, es: seq<Event>): seq<P.Look> {
    if es == [] then []
    else
      var n := |es| - 1;
      var p := ApplyAll(Create(conv), es[..n]);
      LooksOf(conv, es[..n]) + if es[n].DoFlush? && p.updated != 0 then [P.Look(p.current, p.rmtWnd)] else []
  }

  lemma ProberStep(p: Pcb, e: Event)
    requires Valid(p)
    ensures Apply(p, e).prober == if e.DoFlush? && p.updated != 0 then P.Tick(p.prober, p.rmtWnd, p.current) else p.prober
  {
    hide Input, Valid, P.Tick, DueSegs, Admitted;
    if e.DoInput? {
      Runs.InputFrame(p, e.data);
    }
  }

  /** In every run of an endpoint the probe timer is the one `Probing` describes, so its requests are
      spaced and its wait grows as proved there, whatever arrives in between. */
  lemma {:induction false} ProberOverRuns(conv: nat, es: seq<Event>)
    ensures ApplyAll(Create(conv), es).prober == P.Run(LooksOf(conv, es))
  {
    hide Apply, P.Tick;
    if es != [] {
      var n := |es| - 1;
      ProberOverRuns(conv, es[..n]);
      Runs.ReachableValid(conv, es[..n]);
      var p := ApplyAll(Create(conv), es[..n]);
      ProberStep(p, es[n]);
      P.RunStep(LooksOf(conv, es[..n]), P.Look(p.current, p.rmtWnd));
      AppendNothing(LooksOf(conv, es[..n]));
    }
  }

  /** A question that arrives is answered: after any datagram with a WASK in it, up to the next
      flush, an answer is pending. */
  lemma {:induction false} QuestionIsPending(a: Pass, segs: seq<Seg>)
    ensures ProcessAll(a, segs).pcb.ask.tell <==> a.pcb.ask.tell || exists s :: s in segs && s.cmd == CMD_WASK
    ensures ProcessAll(a, segs).pcb.ask.send == a.pcb.ask.send
  {
    if segs != [] {
      var n := |segs| - 1;
      QuestionIsPending(a, segs[..n]);
      SplitMembers(segs, n);
      hide Common, OnAck, OnPush;
      var b := ProcessAll(a, segs[..n]);
      ProcessAsk(b, segs[n]);
      hide ProcessSeg;
      assert segs[n..] == [segs[n]];
    }
  }

  lemma ProcessAsk(a: Pass, s: Seg)
    ensures ProcessSeg(a, s).pcb.ask == (if s.cmd == CMD_WASK then a.pcb.ask.(tell := true) else a.pcb.ask)
  {
    hide S.ShrinkBuf, S.ParseUna, S.ParseAck, R.ParseData;
  }

  // ----- Probing over runs -----

  /** A flush reads back with a probe of this kind in it. */
  ghost predicate Emits(p: Pcb, cmd: nat) {
    exists s :: s in D.ParseAll(p.cfg.conv, Flush(p).out) && s.cmd == cmd
  }

  /** The times at which a question goes out. */
  ghost function AskTimes(conv: nat, es: seq<Event>): seq<nat> {
    if es == [] then []
    else
      var n := |es| - 1;
      var p := ApplyAll(Create(conv), es[..n]);
      AskTimes(conv, es[..n]) + if es[n].DoFlush? && p.updated != 0 && Emits(p, CMD_WASK) then [p.current] else []
  }

  lemma InputAsk(p: Pcb, data: seq<byte>)
    ensures var q := Input(p, data).pcb;
            && q.ask.send == p.ask.send && (p.ask.tell ==> q.ask.tell)
            && ((exists s :: s in D.Parse(p.cfg.conv, data).segs && s.cmd == CMD_WASK) ==> q.ask.tell)
  {
    hide ProcessAll, D.Parse;
    var segs := D.Parse(p.cfg.conv, data).segs;
    QuestionIsPending(Pass(p, NoAck), segs);
    ConcludeAsk(ProcessAll(Pass(p, NoAck), segs), p.snd.una);
    ShortHasNone(p.cfg.conv, data);
  }

  lemma ShortHasNone(conv: nat, data: seq<byte>)
    ensures |data| < OVERHEAD ==> D.Parse(conv, data).segs == []
  {
  }

  lemma ConcludeAsk(a: Pass, prevUna: nat)
    ensures Conclude(a, prevUna).ask == a.pcb.ask
  {
    hide S.ParseFastack, Congestion.Grow;
  }

  /** Questions are asked in the flush in which they come due: none is ever left pending. */
  lemma {:induction false} NothingPending(conv: nat, es: seq<Event>)
    ensures !ApplyAll(Create(conv), es).ask.send
    ensures ApplyAll(Create(conv), es).cfg.conv == conv
  {
    hide Apply;
    if es != [] {
      var p := ApplyAll(Create(conv), es[..|es| - 1]);
      NothingPending(conv, es[..|es| - 1]);
      Runs.ReachableValid(conv, es[..|es| - 1]);
      Runs.ApplyKeeps(p, es[|es| - 1]);
      StepAsk(p, es[|es| - 1]);
    }
  }

  lemma StepAsk(p: Pcb, e: Event)
    ensures !p.ask.send ==> !Apply(p, e).ask.send
    ensures !e.DoFlush? && p.ask.tell ==> Apply(p, e).ask.tell
  {
    hide Input, Flush;
    if e.DoInput? {
      InputAsk(p, e.data);
    }
    if e.DoFlush? && p.updated != 0 {
      FlushClearsAsk(p);
    }
    IdleFlush(p);
  }

  lemma IdleFlush(p: Pcb)
    ensures p.updated == 0 ==> Flush(p).pcb == p
  {
  }

  /** In every run of an endpoint the times at which a question goes out are exactly the requests of the probe
      timer, whose spacing and growth are proved in `Probing`. */
  lemma {:induction false} AskTimesAreRequests(conv: nat, es: seq<Event>)
    requires conv < TWO_32
    ensures AskTimes(conv, es) == P.Requests(LooksOf(conv, es))
  {
    hide Apply, Emits, P.Tick, P.Due, LooksOf, Flush;
    LooksStep(conv, es);
    if es != [] {
      var n := |es| - 1;
      var p := ApplyAll(Create(conv), es[..n]);
      AskTimesAreRequests(conv, es[..n]);
      NothingPending(conv, es[..n]);
      Runs.ReachableValid(conv, es[..n]);
      ProberOverRuns(conv, es[..n]);
      AppendNothing(P.Requests(LooksOf(conv, es[..n])));
      if es[n].DoFlush? && p.updated != 0 {
        EmitsIff(p);
        P.RequestsStep(LooksOf(conv, es[..n]), P.Look(p.current, p.rmtWnd));
      }
    }
  }

  lemma LooksStep(conv: nat, es: seq<Event>)
    ensures es == [] ==> LooksOf(conv, es) == []
    ensures es != [] ==>
              var n := |es| - 1;
              var p := ApplyAll(Create(conv), es[..n]);
              LooksOf(conv, es) == if es[n].DoFlush? && p.updated != 0
                                   then LooksOf(conv, es[..n]) + [P.Look(p.current, p.rmtWnd)] else LooksOf(conv, es[..n])
  {
    hide ApplyAll;
    if es != [] {
      AppendNothing(LooksOf(conv, es[..|es| - 1]));
    }
  }

  /** In every run: with the looks so far split where the peer's window last closed, a flush asks exactly when it
      finds the window closed, as the look before it did, and the wait for the questions asked since then has gone by
      since the last of them, or since the window was found closed. */
  lemma AsksInRunsExactlyWhen(conv: nat, es: seq<Event>, before: seq<P.Look>, closed: seq<P.Look>)
    requires conv < TWO_32 && LooksOf(conv, es) == before + closed && P.ClosedSince(before, closed)
    ensures var p := ApplyAll(Create(conv), es);
            p.updated != 0 ==>
              (Emits(p, CMD_WASK) <==>
                 p.rmtWnd == 0 && closed != [] && p.current >= P.Since(closed) + P.Wait(|P.Requests(closed)|))
  {
    var p := ApplyAll(Create(conv), es);
    hide ApplyAll, Emits, P.Run, P.Requests, LooksOf, P.Since, P.Wait, Valid, P.Due;
    NothingPending(conv, es);
    Runs.ReachableValid(conv, es);
    ProberOverRuns(conv, es);
    if p.updated != 0 {
      EmitsIff(p);
      var l := P.Look(p.current, p.rmtWnd);
      P.RequestsStep(before + closed, l);
      P.AsksExactlyWhen(before, closed, l);
    }
  }

  lemma EmitsIff(p: Pcb)
    requires Valid(p) && p.cfg.conv < TWO_32 && p.updated != 0
    ensures Emits(p, CMD_WASK) <==> p.ask.send || P.Due(p.prober, p.rmtWnd, p.current)
    ensures Emits(p, CMD_WINS) <==> p.ask.tell
  {
    hide Valid, Flush, D.ParseAll, P.Due;
    ProbesAnswered(p);
  }

  /** A question that `Input` accepts in a run is answered by the next flush of that run, whatever else
      happens in between. */
  lemma QuestionIsAnswered(conv: nat, es: seq<Event>, data: seq<byte>, more: seq<Event>)
    requires conv < TWO_32 && (exists s :: s in D.Parse(conv, data).segs && s.cmd == CMD_WASK)
    requires forall e <- more :: !e.DoFlush?
    ensures var p := ApplyAll(Create(conv), es + [DoInput(data)] + more); p.updated != 0 ==> Emits(p, CMD_WINS)
  {
    hide ApplyAll, Emits, D.Parse, Input, Valid;
    var p := ApplyAll(Create(conv), es + [DoInput(data)] + more);
    StillPending(conv, es, data, more);
    Runs.ReachableValid(conv, es + [DoInput(data)] + more);
    if p.updated != 0 {
      EmitsIff(p);
    }
  }

  lemma {:induction false} StillPending(conv: nat, es: seq<Event>, data: seq<byte>, more: seq<Event>)
    requires exists s :: s in D.Parse(conv, data).segs && s.cmd == CMD_WASK
    requires forall e <- more :: !e.DoFlush?
    ensures ApplyAll(Create(conv), es + [DoInput(data)] + more).ask.tell
  {
    hide Apply, D.Parse;
    var all := es + [DoInput(data)] + more;
    if more == [] {
      assert all == es + [DoInput(data)] && all[..|es|] == es;
      NothingPending(conv, es);
      InputTells(ApplyAll(Create(conv), es), data);
    } else {
      var n := |more| - 1;
      assert all[..|all| - 1] == es + [DoInput(data)] + more[..n] && all[|all| - 1] == more[n];
      assert more[n] in more && forall e <- more[..n] :: e in more;
      StillPending(conv, es, data, more[..n]);
      StepAsk(ApplyAll(Create(conv), es + [DoInput(data)] + more[..n]), more[n]);
    }
  }

  lemma InputTells(p: Pcb, data: seq<byte>)
    requires exists s :: s in D.Parse(p.cfg.conv, data).segs && s.cmd == CMD_WASK
    ensures Apply(p, DoInput(data)).ask.tell
  {
    hide Input, D.Parse;
    InputAsk(p, data);
  }
}
