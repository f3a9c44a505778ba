/** What goes back to the peer: an acknowledgement for every data segment taken, and the header fields that tell
    the peer where this side is (kcp/kcp.go:175-178, 265-291). */
module Echoes {
  import opened Bytes
  import opened Lists
  import opened Segments
  import opened Endpoints
  import Congestion
  import D = Datagrams
  import Emissions
  import R = Receivers
  import Runs
  import S = Senders
  import T = Retransmission

  // ----- Acknowledgements -----

  /** A data segment that does not lie beyond the window, be it new or repeated. */
  predicate Taken(r: R.Receiver, s: Seg) {
    s.cmd == CMD_PUSH && s.sn < r.nxt + r.wnd
  }

  /** Number and time of the data segments taken, in arrival order, each judged by the window of its arrival. */
  function TakenIn(p: Pcb, segs: seq<Seg>): seq<Ack> {
    if segs == [] then []
    else
      var n := |segs| - 1;
      TakenIn(p, segs[..n])
      + if Taken(ProcessAll(Pass(p, NoAck), segs[..n]).pcb.rcv, segs[n]) then [Ack(segs[n].sn, segs[n].ts)] else []
  }

  function TakenOf(conv: nat, es: seq<Event>): seq<Ack> {
    if es == [] then []
    else
      var n := |es| - 1;
      var p := ApplyAll(Create(conv), es[..n]);
      TakenOf(conv, es[..n])
      + if es[n].DoInput? && |es[n].data| >= OVERHEAD then TakenIn(p, D.Parse(p.cfg.conv, es[n].data).segs) else []
  }

  /** Number and time of the acknowledgements among the segments read. */
  function AcksAmong(segs: seq<Seg>): seq<Ack> {
    if segs == [] then []
    else
      var n := |segs| - 1;
      AcksAmong(segs[..n]) + if segs[n].cmd == CMD_ACK then [Ack(segs[n].sn, segs[n].ts)] else []
  }

  /** What a reader finds in the datagrams of all flushes of the run. */
  function AckedOf(conv: nat, es: seq<Event>): seq<Ack> {
    if es == [] then []
    else
      var n := |es| - 1;
      var p := ApplyAll(Create(conv), es[..n]);
      AckedOf(conv, es[..n]) + if es[n].DoFlush? then AcksAmong(D.ParseAll(conv, Flush(p).out)) else []
  }

  lemma {:induction false} AcksAmongConcat(xs: seq<Seg>, ys: seq<Seg>)
    ensures AcksAmong(xs + ys) == AcksAmong(xs) + AcksAmong(ys)
  {
    if ys == [] {
      AppendNothing(xs);
      AppendNothing(AcksAmong(xs));
    } else {
      var n := |ys| - 1;
      AcksAmongConcat(xs, ys[..n]);
      AppendSplit(xs, ys);
      assert (xs + ys)[..|xs + ys| - 1] == xs + ys[..n];
    }
  }

  lemma {:induction false} NoAcksAmong(segs: seq<Seg>)
    requires forall s <- segs :: s.cmd != CMD_ACK
    ensures AcksAmong(segs) == []
  {
    if segs != [] {
      NoAcksAmong(segs[..|segs| - 1]);
    }
  }

  /** The owed pairs fit their header fields. */
  ghost predicate Fitting(acks: seq<Ack>) {
    forall a <- acks :: a.sn < TWO_32 && a.ts < TWO_32
  }

  lemma {:induction false} PrintedAcks(p: Pcb, k: nat)
    requires k <= |p.acks| && Fitting(p.acks)
    ensures AcksAmong(D.OnWires(AckSegs(p)[..k])) == p.acks[..k]
  {
    hide D.OnWires, OnWire;
    if k > 0 {
      PrintedAcks(p, k - 1);
      assert AckSegs(p)[..k] == AckSegs(p)[..k - 1] + [AckSegs(p)[k - 1]];
      D.OnWiresConcat(AckSegs(p)[..k - 1], [AckSegs(p)[k - 1]]);
      D.Single(AckSegs(p)[k - 1]);
      AcksAmongConcat(D.OnWires(AckSegs(p)[..k - 1]), [OnWire(AckSegs(p)[k - 1])]);
      PrintedAck(p, p.acks[k - 1]);
    } else {
      D.OnWiresConcat([], []);
    }
  }

  lemma PrintedAck(p: Pcb, a: Ack)
    requires a.sn < TWO_32 && a.ts < TWO_32
    ensures AcksAmong([OnWire(Control(p, CMD_ACK, a))]) == [a]
  {
    var s := OnWire(Control(p, CMD_ACK, a));
    assert [s][..0] == [];
    assert s.cmd == CMD_ACK && s.sn == a.sn && s.ts == a.ts;
  }

  /** A flush pays what is owed: the acknowledgements read back are the owed pairs, in order. */
  lemma FlushPays(p: Pcb)
    requires Valid(p) && p.cfg.conv < TWO_32 && p.updated != 0 && Fitting(p.acks)
    ensures AcksAmong(D.ParseAll(p.cfg.conv, Flush(p).out)) == p.acks && Flush(p).pcb.acks == []
  {
    Emissions.FlushIsReadBack(p);
    PrintedAcks(p, |p.acks|);
    OthersNoAck(p);
    Runs.FlushKeeps(p);
    var acks, probes, due := D.OnWires(AckSegs(p)), D.OnWires(ProbeSegs(p)), D.OnWires(DueSegs(p));
    hide Valid, Flush, D.ParseAll, AckSegs, ProbeSegs, DueSegs, D.OnWires, AcksAmong, Fitting;
    assert AckSegs(p)[..|p.acks|] == AckSegs(p) && p.acks[..|p.acks|] == p.acks;
    AcksAmongConcat(acks + probes, due);
    AcksAmongConcat(acks, probes);
    NoAcksAmong(probes);
    NoAcksAmong(due);
  }

  lemma OthersNoAck(p: Pcb)
    requires Valid(p) && p.cfg.conv < TWO_32
    ensures forall s <- D.OnWires(ProbeSegs(p)) :: s.cmd != CMD_ACK
    ensures forall s <- D.OnWires(DueSegs(p)) :: s.cmd != CMD_ACK
  {
    hide Valid, ProbeSegs, DueSegs;
    var probes, due := ProbeSegs(p), DueSegs(p);
    forall s | s in D.OnWires(probes) ensures s.cmd != CMD_ACK {
      var i :| 0 <= i < |probes| && D.OnWires(probes)[i] == s;
      Emissions.ProbeShape(p, probes[i]);
    }
    forall s | s in D.OnWires(due) ensures s.cmd != CMD_ACK {
      var i :| 0 <= i < |due| && D.OnWires(due)[i] == s;
      Emissions.DueShape(p, due[i]);
    }
  }

  lemma SegOwes(a: Pass, s: Seg)
    requires S.Valid(a.pcb.snd) && R.Valid(a.pcb.rcv)
    ensures ProcessSeg(a, s).pcb.acks == a.pcb.acks + if Taken(a.pcb.rcv, s) then [Ack(s.sn, s.ts)] else []
  {
    hide S.ShrinkBuf, S.ParseUna, S.ParseAck, R.ParseData, S.Valid, R.Valid;
    AppendNothing(a.pcb.acks);
  }

  lemma {:induction false} SegsOwe(p: Pcb, segs: seq<Seg>)
    requires S.Valid(p.snd) && R.Valid(p.rcv)
    ensures ProcessAll(Pass(p, NoAck), segs).pcb.acks == p.acks + TakenIn(p, segs)
  {
    hide ProcessSeg, S.Valid, R.Valid, Taken;
    AppendNothing(p.acks);
    if segs != [] {
      var n := |segs| - 1;
      var a := ProcessAll(Pass(p, NoAck), segs[..n]);
      SegsOwe(p, segs[..n]);
      ProcessAllProcessed(Pass(p, NoAck), segs[..n]);
      ProcessedValid(p, a.pcb);
      SegOwes(a, segs[n]);
    }
  }

  lemma {:induction false} TakenFits(p: Pcb, segs: seq<Seg>)
    requires forall s <- segs :: s.sn < TWO_32 && s.ts < TWO_32
    ensures Fitting(TakenIn(p, segs))
  {
    if segs != [] {
      assert forall s <- segs[..|segs| - 1] :: s in segs;
      TakenFits(p, segs[..|segs| - 1]);
      assert segs[|segs| - 1] in segs;
    }
  }

  lemma {:induction false} ReadFits(conv: nat, data: seq<byte>)
    ensures forall s <- D.Parse(conv, data).segs :: s.sn < TWO_32 && s.ts < TWO_32
    decreases |data|
  {
    hide D.Parse;
    if |data| < OVERHEAD || D.Refusal(conv, data) != 0 {
      D.ParseStops(conv, data);
    } else {
      var s, tail := D.ParseStep(conv, data);
      ReadFits(conv, tail);
    }
  }

  lemma StepOwes(p: Pcb, e: Event)
    requires Valid(p) && p.cfg.conv < TWO_32 && Fitting(p.acks)
    ensures var q := Apply(p, e);
            var taken := if e.DoInput? && |e.data| >= OVERHEAD then TakenIn(p, D.Parse(p.cfg.conv, e.data).segs) else [];
            var paid := if e.DoFlush? then AcksAmong(D.ParseAll(p.cfg.conv, Flush(p).out)) else [];
            paid + q.acks == p.acks + taken && Fitting(q.acks)
  {
    AppendNothing(p.acks);
    if e.DoInput? {
      InputOwes(p, e.data);
    } else if e.DoFlush? {
      FlushOwes(p);
    }
    hide Valid, Input, Flush, AcksAmong, TakenIn, D.Parse, D.ParseAll;
  }

  lemma FlushOwes(p: Pcb)
    requires Valid(p) && p.cfg.conv < TWO_32 && Fitting(p.acks)
    ensures AcksAmong(D.ParseAll(p.cfg.conv, Flush(p).out)) + Flush(p).pcb.acks == p.acks && Fitting(Flush(p).pcb.acks)
  {
    AppendNothing(p.acks);
    if p.updated != 0 {
      FlushPays(p);
    } else {
      IdleOut(p);
    }
    hide Valid, Flush;
  }

  lemma IdleOut(p: Pcb)
    requires p.updated == 0
    ensures Flush(p).pcb == p && AcksAmong(D.ParseAll(p.cfg.conv, Flush(p).out)) == []
  {
  }

  lemma InputOwes(p: Pcb, data: seq<byte>)
    requires Valid(p) && Fitting(p.acks)
    ensures var taken := if |data| >= OVERHEAD then TakenIn(p, D.Parse(p.cfg.conv, data).segs) else [];
            Input(p, data).pcb.acks == p.acks + taken && Fitting(p.acks + taken)
  {
    AppendNothing(p.acks);
    if |data| >= OVERHEAD {
      var segs := D.Parse(p.cfg.conv, data).segs;
      ReadFits(p.cfg.conv, data);
      TakenFits(p, segs);
      SegsOwe(p, segs);
      ConcludeOwes(ProcessAll(Pass(p, NoAck), segs), p.snd.una);
    }
    hide Valid, ProcessAll, D.Parse, TakenIn, Conclude;
  }

  lemma ConcludeOwes(a: Pass, prevUna: nat)
    ensures Conclude(a, prevUna).acks == a.pcb.acks
  {
    hide S.ParseFastack, Congestion.Grow;
  }

  /** In every run of an endpoint, whatever arrives, the acknowledgements a reader finds in its datagrams, followed by
      those still owed, are the data segments it has taken: each once, in arrival order, with its own number and time,
      repeated segments included and segments beyond the window not. */
  lemma {:induction false} EveryTakenIsAcked(conv: nat, es: seq<Event>)
    requires conv < TWO_32
    ensures AckedOf(conv, es) + ApplyAll(Create(conv), es).acks == TakenOf(conv, es)
    ensures Fitting(ApplyAll(Create(conv), es).acks)
  {
    hide Apply, AcksAmong, TakenIn, D.Parse, D.ParseAll, Valid, Fitting;
    if es == [] {
      NothingOwed(conv);
    } else {
      var n := |es| - 1;
      var p, q := ApplyAll(Create(conv), es[..n]), ApplyAll(Create(conv), es);
      EveryTakenIsAcked(conv, es[..n]);
      Runs.ReachableValid(conv, es[..n]);
      StepOwes(p, es[n]);
      var paid := if es[n].DoFlush? then AcksAmong(D.ParseAll(conv, Flush(p).out)) else [];
      assert AckedOf(conv, es) + q.acks == AckedOf(conv, es[..n]) + (paid + q.acks);
    }
  }

  lemma NothingOwed(conv: nat)
    ensures Fitting(Create(conv).acks) && Create(conv).acks == []
  {
  }

  // ----- Header fields -----

  /** Every segment read from the datagrams of a flush of any run tells the peer the next number expected and the
      free room in the receive queue, and a data segment the time of the flush, each cut to its field. */
  lemma HeadersTell(conv: nat, es: seq<Event>, s: Seg)
    requires conv < TWO_32
    ensures var p := ApplyAll(Create(conv), es);
            p.updated != 0 && s in D.ParseAll(conv, Flush(p).out) ==>
              && s.una == p.rcv.nxt % TWO_32 && s.wnd == WND_RCV - |p.rcv.queue|
              && (s.cmd == CMD_PUSH ==> s.ts == p.current % TWO_32)
  {
    Runs.ReachableValid(conv, es);
    var p := ApplyAll(Create(conv), es);
    hide ApplyAll, Valid, AckSegs, ProbeSegs, DueSegs, Flush, D.ParseAll, D.OnWires;
    if p.updated != 0 && s in D.ParseAll(conv, Flush(p).out) {
      Emissions.FlushIsReadBack(p);
      D.OnWiresConcat(AckSegs(p) + ProbeSegs(p), DueSegs(p));
      D.OnWiresConcat(AckSegs(p), ProbeSegs(p));
      var x := Origin(FlushSegs(p), s);
      SegTells(p, x);
    }
  }

  lemma Origin(segs: seq<Seg>, s: Seg) returns (x: Seg)
    requires s in D.OnWires(segs)
    ensures x in segs && s == OnWire(x)
  {
    var i :| 0 <= i < |segs| && D.OnWires(segs)[i] == s;
    x := segs[i];
  }

  lemma SegTells(p: Pcb, x: Seg)
    requires Valid(p) && p.cfg.conv < TWO_32 && x in FlushSegs(p)
    ensures x.una == p.rcv.nxt && x.wnd == WndLeft(p.rcv) && x.cmd < TWO_8 && (x.cmd == CMD_PUSH ==> x.ts == p.current)
  {
    hide Valid, DueSegs, AckSegs, ProbeSegs, WndLeft;
    Emissions.FlushSegSendable(p, x);
    if x in AckSegs(p) {
      AckTells(p, x);
    } else if x in ProbeSegs(p) {
      ProbeTells(p, x);
      Emissions.ProbeShape(p, x);
    } else {
      DueTells(p, x);
    }
  }

  lemma AckTells(p: Pcb, x: Seg)
    requires x in AckSegs(p)
    ensures x.una == p.rcv.nxt && x.wnd == WndLeft(p.rcv) && x.cmd == CMD_ACK
  {
    var i :| 0 <= i < |p.acks| && AckSegs(p)[i] == x;
  }

  lemma ProbeTells(p: Pcb, x: Seg)
    requires x in ProbeSegs(p)
    ensures x.una == p.rcv.nxt && x.wnd == WndLeft(p.rcv)
  {
  }

  lemma DueTells(p: Pcb, x: Seg)
    requires x in DueSegs(p)
    ensures x.una == p.rcv.nxt && x.wnd == WndLeft(p.rcv) && x.ts == p.current
  {
    T.DueMembers(Admitted(p).buf, FlushContext(p));
    hide Admitted, WndLeft, T.Due;
  }
}
