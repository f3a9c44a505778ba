/** No unacknowledged segment is left without a next transmission, in any mode (kcp/kcp.go:387-449). */
module Schedules {
  import opened Bytes
  import opened Segments
  import opened Endpoints
  import Datagrams
  import Histories
  import R = Receivers
  import Runs
  import S = Senders
  import T = Retransmission

  /** Once transmitted, a segment is due again at most nine eighths of its own timeout from now. */
  predicate OnTime(s: Seg, now: nat) {
    s.xmit > 0 ==> s.rto >= RTO_NDL && s.resendTs <= now + s.rto + s.rto / 8
  }

  /** The timeout has its floor. */
  predicate Floored(p: Pcb) {
    p.rtt.rto >= RTO_NDL && RTO_NDL <= p.cfg.minrto <= RTO_MAX
  }

  ghost predicate Inv(p: Pcb) {
    Valid(p) && Floored(p) && forall s <- p.snd.buf :: OnTime(s, p.current)
  }

  lemma TouchOnTime(s: Seg, c: T.Context)
    requires OnTime(s, c.now) && c.rxRto >= RTO_NDL
    ensures var t := T.Touch(s, c); t.xmit > 0 && t.resendTs > c.now && OnTime(t, c.now)
  {
  }

  lemma AdmittedOnTime(p: Pcb)
    requires Inv(p)
    ensures forall s <- Admitted(p).buf :: OnTime(s, p.current)
  {
    var limit := p.snd.una + Window(p);
    S.AdmitPrefix(p.snd, limit, StampOf(p));
    var k := S.Room(p.snd, limit);
    hide S.Admit, Window, Valid, WndLeft;
    forall s | s in Admitted(p).buf ensures OnTime(s, p.current) {
      if s !in p.snd.buf {
        var i := S.NumberedMember(p.snd, k, StampOf(p), s);
      }
    }
  }

  /** After a flush every buffered segment has been transmitted and has its next transmission ahead,
      at most nine eighths of its timeout away. */
  lemma FlushSchedules(p: Pcb)
    requires Inv(p) && p.updated != 0
    ensures Inv(Flush(p).pcb)
    ensures forall s <- Flush(p).pcb.snd.buf :: s.xmit > 0 && p.current < s.resendTs <= p.current + s.rto + s.rto / 8
  {
    hide Valid, Admitted, T.Touch, T.TouchAll, Datagrams.Pack, DueSegs, FlushSegs;
    Runs.FlushKeeps(p);
    Runs.FlushedSnd(p);
    AdmittedOnTime(p);
    TouchedOnTime(Admitted(p).buf, FlushContext(p));
  }

  lemma TouchedOnTime(buf: seq<Seg>, c: T.Context)
    requires c.rxRto >= RTO_NDL && forall s <- buf :: OnTime(s, c.now)
    ensures forall t <- T.TouchAll(buf, c) :: t.xmit > 0 && t.resendTs > c.now && OnTime(t, c.now)
  {
    hide T.Touch;
    forall t | t in T.TouchAll(buf, c) ensures t.xmit > 0 && t.resendTs > c.now && OnTime(t, c.now) {
      var i :| 0 <= i < |buf| && T.TouchAll(buf, c)[i] == t;
      assert buf[i] in buf;
      TouchOnTime(buf[i], c);
    }
  }

  lemma {:induction false} AcksKeepFloor(a: Pass, segs: seq<Seg>)
    requires Floored(a.pcb)
    ensures Floored(ProcessAll(a, segs).pcb)
  {
    if segs != [] {
      AcksKeepFloor(a, segs[..|segs| - 1]);
      hide S.ShrinkBuf, S.ParseUna, S.ParseAck, R.ParseData;
    }
  }

  lemma InputKeeps(p: Pcb, data: seq<byte>)
    requires Inv(p)
    ensures Inv(Input(p, data).pcb)
  {
    hide Valid, ProcessAll, Datagrams.Parse, Floored;
    Runs.InputKeeps(p, data);
    Runs.InputFrame(p, data);
    Histories.InputBuffer(p, data);
    AcksKeepFloor(Pass(p, NoAck), Datagrams.Parse(p.cfg.conv, data).segs);
    ConcludeFloor(ProcessAll(Pass(p, NoAck), Datagrams.Parse(p.cfg.conv, data).segs), p.snd.una);
  }

  lemma ConcludeFloor(a: Pass, prevUna: nat)
    requires Floored(a.pcb)
    ensures Floored(Conclude(a, prevUna))
  {
  }

  lemma StepKeeps(p: Pcb, e: Event)
    requires Inv(p) && (e.DoClock? ==> e.now >= p.current)
    ensures Inv(Apply(p, e))
  {
    hide Valid, Input, Flush;
    Runs.ApplyKeeps(p, e);
    if e.DoInput? {
      InputKeeps(p, e.data);
    }
    if e.DoFlush? {
      FlushStep(p);
    }
  }

  lemma FlushStep(p: Pcb)
    requires Inv(p)
    ensures Inv(Flush(p).pcb)
  {
    if p.updated != 0 {
      FlushSchedules(p);
    }
  }

  lemma {:induction false} RunKeeps(conv: nat, es: seq<Event>)
    requires Runs.Forward(conv, es)
    ensures Inv(ApplyAll(Create(conv), es))
  {
    hide Inv, Apply;
    if es == [] {
      CreateInv(conv);
    } else {
      RunKeeps(conv, es[..|es| - 1]);
      StepKeeps(ApplyAll(Create(conv), es[..|es| - 1]), es[|es| - 1]);
    }
  }

  lemma CreateInv(conv: nat)
    ensures Inv(Create(conv))
  {
    CreateValid(conv);
  }

  /** Over every run with a clock that does not go back, in every mode and whatever arrives: a flush
      leaves no unacknowledged segment unsent or without a next transmission, and what is already due
      goes out in it. */
  lemma NothingIsAbandoned(conv: nat, es: seq<Event>)
    requires Runs.Forward(conv, es) && ApplyAll(Create(conv), es).updated != 0
    ensures var p := ApplyAll(Create(conv), es);
            && (forall s <- Flush(p).pcb.snd.buf :: s.xmit > 0 && p.current < s.resendTs <= p.current + s.rto + s.rto / 8)
            && (forall s <- p.snd.buf :: s.resendTs <= p.current ==> Has(DueSegs(p), s.sn))
  {
    RunKeeps(conv, es);
    var p := ApplyAll(Create(conv), es);
    hide ApplyAll, Flush, Valid;
    FlushSchedules(p);
    forall s | s in p.snd.buf && s.resendTs <= p.current ensures Has(DueSegs(p), s.sn) {
      DueGoesOut(p, s);
    }
  }

  lemma DueGoesOut(p: Pcb, s: Seg)
    requires Valid(p) && s in p.snd.buf && s.resendTs <= p.current
    ensures Has(DueSegs(p), s.sn)
  {
    var k := Runs.AdmittedBuffer(p);
    hide Valid, Admitted, T.Due, S.Numbered;
    T.DueMembers(Admitted(p).buf, FlushContext(p));
    T.TouchKeeps(s, FlushContext(p));
    assert s in Admitted(p).buf && T.Decide(s, FlushContext(p)) != T.Skip;
    assert T.Touch(s, FlushContext(p)) in DueSegs(p);
  }
}
