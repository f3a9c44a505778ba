/** Runs of an endpoint whose data loop updates copies (kcp/kcp.go:388), the rest as intended. */
module CopiedRuns {
  import opened Segments
  import opened Endpoints
  import Congestion
  import D = Datagrams
  import Histories
  import P = Probing
  import R = Receivers
  import Runs
  import S = Senders
  import T = Retransmission

  /** A flush that transmits what is due and keeps what it numbered as it numbered it. */
  function CopiedFlush(p: Pcb): Emission {
    if p.updated == 0 then Emission(p, [])
    else Emission(Flushed(p).(snd := Admitted(p)), D.Pack(p.cfg.mtu, FlushSegs(p)))
  }

  function CopiedApply(p: Pcb, e: Event): Pcb {
    if e.DoFlush? then CopiedFlush(p).pcb else Apply(p, e)
  }

  function CopiedRun(conv: nat, es: seq<Event>): Pcb {
    if es == [] then Create(conv) else CopiedApply(CopiedRun(conv, es[..|es| - 1]), es[|es| - 1])
  }

  /** No buffered segment remembers a transmission, and the endpoint counts none. */
  ghost predicate Oblivious(p: Pcb) {
    && Valid(p) && p.state == 0 && p.xmit == 0 && p.cfg.deadLink == DEADLINK
    && forall s <- p.snd.buf :: s.xmit == 0
  }

  lemma AdmittedUnsent(p: Pcb)
    requires Oblivious(p)
    ensures forall s <- Admitted(p).buf :: s.xmit == 0
  {
    var limit := p.snd.una + Window(p);
    S.AdmitPrefix(p.snd, limit, StampOf(p));
    var k := S.Room(p.snd, limit);
    hide S.Admit, Window, Valid, WndLeft;
    forall s | s in Admitted(p).buf ensures s.xmit == 0 {
      if s !in p.snd.buf {
        var i := S.NumberedMember(p.snd, k, StampOf(p), s);
      }
    }
  }

  /** A buffer of segments never sent goes out whole, each for the first time. */
  lemma {:induction false} AllDue(buf: seq<Seg>, c: T.Context)
    requires forall s <- buf :: s.xmit == 0
    ensures T.Due(buf, c) == T.TouchAll(buf, c)
    ensures T.CountKind(buf, c, T.Timeout) == 0 && T.CountKind(buf, c, T.Fast) == 0
    ensures forall s <- T.TouchAll(buf, c) :: s.xmit == 1
  {
    if buf != [] {
      var n := |buf| - 1;
      assert buf[n] in buf && forall s <- buf[..n] :: s in buf;
      AllDue(buf[..n], c);
      FirstTouch(buf[n], c);
      hide T.Touch, T.Decide;
      assert T.TouchAll(buf, c) == T.TouchAll(buf[..n], c) + [T.Touch(buf[n], c)];
    } else {
      assert T.TouchAll(buf, c) == [];
    }
  }

  lemma FirstTouch(s: Seg, c: T.Context)
    requires s.xmit == 0
    ensures T.Decide(s, c) == T.First && T.Touch(s, c).xmit == 1
  {
  }

  lemma FlushKeeps(p: Pcb)
    requires Oblivious(p)
    ensures Oblivious(CopiedFlush(p).pcb)
    ensures p.updated != 0 ==> DueSegs(p) == T.TouchAll(Admitted(p).buf, FlushContext(p))
  {
    hide Admitted, S.Valid, R.Valid, T.TouchAll, Congestion.Tracks, Flushed, D.Pack, DueSegs, FlushSegs;
    if p.updated != 0 {
      AdmittedUnsent(p);
      NothingCounted(p);
      Runs.AdmittedKeeps(p);
      Runs.FlushedTimers(p);
    }
  }

  lemma NothingCounted(p: Pcb)
    requires Oblivious(p)
    ensures Flushed(p).xmit == 0 && Flushed(p).state == 0
    ensures DueSegs(p) == T.TouchAll(Admitted(p).buf, FlushContext(p))
    ensures Flushed(p).rmtWnd == p.rmtWnd && Flushed(p).updated == p.updated
  {
    hide Valid, Admitted, T.TouchAll, T.Due, T.CountKind, Congestion.React, P.Tick, FlushContext;
    AdmittedUnsent(p);
    AllDue(Admitted(p).buf, FlushContext(p));
  }

  lemma ApplyKeeps(p: Pcb, e: Event)
    requires Oblivious(p)
    ensures Oblivious(CopiedApply(p, e))
  {
    hide Valid, Input, Flush, CopiedFlush;
    if e.DoFlush? {
      FlushKeeps(p);
    } else {
      Runs.ApplyKeeps(p, e);
      OtherKeeps(p, e);
    }
  }

  lemma OtherKeeps(p: Pcb, e: Event)
    requires Oblivious(p) && !e.DoFlush?
    ensures var q := Apply(p, e);
            q.state == 0 && q.xmit == 0 && q.cfg.deadLink == DEADLINK && forall s <- q.snd.buf :: s.xmit == 0
  {
    hide Valid, Input;
    if e.DoInput? {
      Runs.InputFrame(p, e.data);
      Histories.InputBuffer(p, e.data);
    }
  }

  lemma {:induction false} RunKeeps(conv: nat, es: seq<Event>)
    ensures Oblivious(CopiedRun(conv, es))
  {
    hide Oblivious, CopiedApply;
    if es == [] {
      CreateOblivious(conv);
    } else {
      RunKeeps(conv, es[..|es| - 1]);
      ApplyKeeps(CopiedRun(conv, es[..|es| - 1]), es[|es| - 1]);
    }
  }

  lemma CreateOblivious(conv: nat)
    ensures Oblivious(Create(conv))
  {
    CreateValid(conv);
  }

  /** In every run of the written form: no transmission is ever remembered, every flush transmits the whole
      buffer, each segment as if for the first time, no loss is ever counted and no link ever found dead. */
  lemma EveryFlushSendsAll(conv: nat, es: seq<Event>)
    ensures var p := CopiedRun(conv, es);
            && (forall s <- p.snd.buf :: s.xmit == 0) && p.xmit == 0 && p.state == 0
            && (p.updated != 0 ==>
                  && |DueSegs(p)| == |Admitted(p).buf|
                  && forall i :: 0 <= i < |Admitted(p).buf| ==>
                       DueSegs(p)[i] == T.Touch(Admitted(p).buf[i], FlushContext(p)) && DueSegs(p)[i].xmit == 1)
  {
    hide Valid, CopiedRun, Admitted, FlushContext, T.Touch, T.Due, DueSegs, Flushed;
    RunKeeps(conv, es);
    var p := CopiedRun(conv, es);
    NothingCounted(p);
    AdmittedUnsent(p);
    AllDue(Admitted(p).buf, FlushContext(p));
    assert forall i :: 0 <= i < |DueSegs(p)| ==> DueSegs(p)[i] in DueSegs(p);
  }
}
