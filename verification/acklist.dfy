/** Runs of an endpoint whose acknowledgement list never grows (kcp/parse.go:67-72), the rest as intended. */
module AckListRuns {
  import opened Bytes
  import opened Departures
  import opened Segments
  import opened Endpoints
  import Congestion
  import D = Datagrams
  import R = Receivers
  import S = Senders

  /** The endpoint, with `AckList` and `AckCount` beside it in place of its owed acknowledgements. */
  datatype Listed = Listed(pcb: Pcb, list: seq<nat>, count: nat)

  datatype ListedPass = ListedPass(pass: Pass, list: seq<nat>, count: nat)

  /** A data segment that is acknowledged. */
  predicate Acknowledges(r: R.Receiver, s: Seg) {
    s.cmd == CMD_PUSH && s.sn < r.nxt + r.wnd
  }

  function ListedSeg(a: ListedPass, s: Seg): Go<ListedPass> {
    var q := ProcessSeg(a.pass, s);
    if !Acknowledges(a.pass.pcb.rcv, s) then Done(ListedPass(q, a.list, a.count))
    else
      match WrittenAckPush(a.list, a.count, s.sn, s.ts)
      case Panic => Panic
      case Done(list) => Done(ListedPass(q.(pcb := q.pcb.(acks := [])), list, a.count + 1))
  }

  function ListedSegs(a: ListedPass, segs: seq<Seg>): Go<ListedPass> {
    if segs == [] then Done(a)
    else
      match ListedSegs(a, segs[..|segs| - 1])
      case Panic => Panic
      case Done(b) => ListedSeg(b, segs[|segs| - 1])
  }

  function ListedInput(p: Listed, data: seq<byte>): Go<Listed> {
    if |data| < OVERHEAD then Done(p)
    else
      var parsed := D.Parse(p.pcb.cfg.conv, data);
      match ListedSegs(ListedPass(Pass(p.pcb, NoAck), p.list, p.count), parsed.segs)
      case Panic => Panic
      case Done(a) =>
        Done(Listed(if parsed.code != 0 then a.pass.pcb else Conclude(a.pass, p.pcb.snd.una), a.list, a.count))
  }

  /** The pairs a flush reads out of the list. */
  function Pairs(list: seq<nat>, count: nat): Go<seq<Ack>> {
    if 2 * count > |list| then Panic else Done(AcksOf(list, count))
  }

  function ListedFlush(p: Listed): Go<Listed> {
    if p.pcb.updated == 0 then Done(p)
    else
      match Pairs(p.list, p.count)
      case Panic => Panic
      case Done(acks) => Done(Listed(Flush(p.pcb.(acks := acks)).pcb, p.list, 0))
  }

  function ListedApply(p: Listed, e: Event): Go<Listed> {
    match e
    case DoInput(data) => ListedInput(p, data)
    case DoFlush => ListedFlush(p)
    case _ => Done(p.(pcb := Apply(p.pcb, e)))
  }

  function ListedRun(conv: nat, es: seq<Event>): Go<Listed> {
    if es == [] then Done(Listed(Create(conv), [], 0))
    else
      match ListedRun(conv, es[..|es| - 1])
      case Panic => Panic
      case Done(p) => ListedApply(p, es[|es| - 1])
  }

  // ----- The list stays empty, or the run has panicked -----

  /** Nothing was ever received, and nothing is owed. */
  predicate Untouched(conv: nat, p: Pcb) {
    p.rcv == R.Receiver(0, WND_RCV, [], []) && p.acks == [] && p.cfg.conv == conv
  }

  /** A datagram with a data segment inside the first window. */
  ghost predicate Fatal(conv: nat, e: Event) {
    e.DoInput? && exists s :: s in D.Parse(conv, e.data).segs && s.cmd == CMD_PUSH && s.sn < WND_RCV
  }

  lemma HarmlessSeg(conv: nat, a: Pass, s: Seg)
    requires Untouched(conv, a.pcb) && !Acknowledges(a.pcb.rcv, s)
    ensures Untouched(conv, ProcessSeg(a, s).pcb)
  {
    hide S.ShrinkBuf, S.ParseUna, S.ParseAck;
  }

  lemma {:induction false} SegsPanicIff(conv: nat, a: Pass, segs: seq<Seg>)
    requires Untouched(conv, a.pcb)
    ensures var fatal := exists s :: s in segs && s.cmd == CMD_PUSH && s.sn < WND_RCV;
            && ListedSegs(ListedPass(a, [], 0), segs) == (if fatal then Panic else Done(ListedPass(ProcessAll(a, segs), [], 0)))
            && (!fatal ==> Untouched(conv, ProcessAll(a, segs).pcb))
  {
    hide ProcessSeg;
    if segs != [] {
      var n := |segs| - 1;
      SegsPanicIff(conv, a, segs[..n]);
      assert segs == segs[..n] + [segs[n]];
      assert forall s :: s in segs <==> s in segs[..n] || s == segs[n];
      var b := ProcessAll(a, segs[..n]);
      if Untouched(conv, b.pcb) && !Acknowledges(b.pcb.rcv, segs[n]) {
        HarmlessSeg(conv, b, segs[n]);
      }
    }
  }

  lemma InputPanicsIff(conv: nat, p: Pcb, data: seq<byte>)
    requires Untouched(conv, p)
    ensures ListedInput(Listed(p, [], 0), data)
         == if Fatal(conv, DoInput(data)) then Panic else Done(Listed(Input(p, data).pcb, [], 0))
    ensures !Fatal(conv, DoInput(data)) ==> Untouched(conv, Input(p, data).pcb)
  {
    hide ProcessAll, D.Parse, ListedSegs, Conclude;
    var segs := D.Parse(conv, data).segs;
    ShortDatagram(conv, data);
    SegsPanicIff(conv, Pass(p, NoAck), segs);
    ConcludeUntouched(conv, ProcessAll(Pass(p, NoAck), segs), p.snd.una);
    assert Fatal(conv, DoInput(data)) <==> exists s :: s in segs && s.cmd == CMD_PUSH && s.sn < WND_RCV;
  }

  lemma StepPanicsIff(conv: nat, p: Pcb, e: Event)
    requires Untouched(conv, p)
    ensures ListedApply(Listed(p, [], 0), e) == if Fatal(conv, e) then Panic else Done(Listed(Apply(p, e), [], 0))
    ensures !Fatal(conv, e) ==> Untouched(conv, Apply(p, e))
  {
    hide ProcessAll, D.Parse, Flushed, Send, FlushSegs, ListedSegs, Conclude;
    match e {
      case DoInput(data) => InputPanicsIff(conv, p, data);
      case DoFlush =>
        assert p.(acks := []) == p && AcksOf([], 0) == [];
        FlushUntouched(conv, p);
      case DoSend(buf) => SendUntouched(conv, p, buf);
      case _ =>
    }
  }

  lemma ShortDatagram(conv: nat, data: seq<byte>)
    ensures |data| < OVERHEAD ==> D.Parse(conv, data).segs == []
  {
  }

  lemma ConcludeUntouched(conv: nat, a: Pass, prevUna: nat)
    ensures Untouched(conv, a.pcb) ==> Untouched(conv, Conclude(a, prevUna))
  {
    hide S.ParseFastack, Congestion.Grow;
  }

  lemma FlushUntouched(conv: nat, p: Pcb)
    requires Untouched(conv, p)
    ensures Untouched(conv, Flush(p).pcb)
  {
    hide Admitted, FlushSegs, D.Pack, Congestion.React, DueSegs;
  }

  lemma SendUntouched(conv: nat, p: Pcb, buf: seq<byte>)
    requires Untouched(conv, p)
    ensures Untouched(conv, Send(p, buf).pcb)
  {
  }

  /** A run of the written form panics exactly when some received datagram holds a data segment inside the
      first window. Until then the list is empty, nothing is received and nothing acknowledged: a written
      endpoint receives no data at all. */
  lemma {:induction false} RunPanicsIff(conv: nat, es: seq<Event>)
    ensures ListedRun(conv, es)
         == if (exists e :: e in es && Fatal(conv, e)) then Panic else Done(Listed(ApplyAll(Create(conv), es), [], 0))
    ensures !(exists e :: e in es && Fatal(conv, e)) ==> Untouched(conv, ApplyAll(Create(conv), es))
  {
    hide Fatal, ListedApply, Apply, Untouched;
    if es == [] {
      CreateUntouched(conv);
    } else {
      var n := |es| - 1;
      RunPanicsIff(conv, es[..n]);
      assert es == es[..n] + [es[n]];
      assert forall e :: e in es <==> e in es[..n] || e == es[n];
      var p := ApplyAll(Create(conv), es[..n]);
      if !(exists e :: e in es[..n] && Fatal(conv, e)) {
        StepPanicsIff(conv, p, es[n]);
      }
    }
  }

  lemma CreateUntouched(conv: nat)
    ensures Untouched(conv, Create(conv))
  {
  }
}
