/** Runs of an endpoint whose `Shrink_Buf` reads the wrong field (kcp/parse.go:23), the rest as intended. */
module LaggingRuns {
  import opened Bytes
  import opened Departures
  import opened Segments
  import opened Endpoints
  import Congestion
  import D = Datagrams
  import R = Receivers
  import S = Senders
  import T = Retransmission

  /** `Shrink_Buf` as written. */
  function Lag(s: S.Sender): S.Sender {
    s.(una := WrittenFirst(s))
  }

  /** What one segment does to the send side: both calls of `Shrink_Buf` as written. */
  function LagSnd(snd: S.Sender, s: Seg): S.Sender {
    var t := Lag(S.ParseUna(snd, s.una));
    if s.cmd == CMD_ACK then Lag(S.ParseAck(t, s.sn)) else t
  }

  function LagSeg(a: Pass, s: Seg): Pass {
    var q := ProcessSeg(a, s);
    q.(pcb := q.pcb.(snd := LagSnd(a.pcb.snd, s)))
  }

  function LagSegs(a: Pass, segs: seq<Seg>): Pass {
    if segs == [] then a else LagSeg(LagSegs(a, segs[..|segs| - 1]), segs[|segs| - 1])
  }

  function LagInput(p: Pcb, data: seq<byte>): Pcb {
    if |data| < OVERHEAD then p
    else
      var parsed := D.Parse(p.cfg.conv, data);
      var a := LagSegs(Pass(p, NoAck), parsed.segs);
      if parsed.code != 0 then a.pcb else Conclude(a, p.snd.una)
  }

  function LagApply(p: Pcb, e: Event): Pcb {
    if e.DoInput? then LagInput(p, e.data) else Apply(p, e)
  }

  /** A run, with `Rcv_nxt` as it was when each number was last transmitted. */
  datatype Tracked = Tracked(pcb: Pcb, seen: map<nat, nat>)

  function Noted(segs: seq<Seg>, rcvNxt: nat): map<nat, nat> {
    map s | s in segs :: s.sn := rcvNxt
  }

  function LagStep(t: Tracked, e: Event): Tracked {
    Tracked(LagApply(t.pcb, e),
            if e.DoFlush? && t.pcb.updated != 0 then t.seen + Noted(DueSegs(t.pcb), t.pcb.rcv.nxt) else t.seen)
  }

  function LagTrace(conv: nat, es: seq<Event>): Tracked {
    if es == [] then Tracked(Create(conv), map[])
    else LagStep(LagTrace(conv, es[..|es| - 1]), es[|es| - 1])
  }

  // ----- Every buffered segment carries the `Rcv_nxt` of its last transmission -----

  ghost predicate Sorted(s: S.Sender) {
    Ascending(s.buf) && forall x <- s.buf :: x.sn < s.nxt
  }

  ghost predicate Carrying(buf: seq<Seg>, seen: map<nat, nat>, rcvNxt: nat) {
    forall x <- buf :: x.sn in seen && seen[x.sn] == x.una && x.una <= rcvNxt
  }

  ghost predicate Inv(t: Tracked) {
    Sorted(t.pcb.snd) && R.Valid(t.pcb.rcv) && Carrying(t.pcb.snd.buf, t.seen, t.pcb.rcv.nxt)
  }

  /** Acknowledgements only remove. */
  ghost predicate Fewer(s: S.Sender, t: S.Sender) {
    Sorted(t) && t.nxt == s.nxt && forall x :: x in t.buf ==> x in s.buf
  }

  lemma LagSndFewer(snd: S.Sender, s: Seg)
    requires Sorted(snd)
    ensures Fewer(snd, LagSnd(snd, s)) && LagSnd(snd, s).una == WrittenFirst(LagSnd(snd, s))
  {
    hide S.RemoveSn, Ascending;
    S.DropBelowMembers(snd.buf, s.una);
    S.DropBelowSorted(snd.buf, s.una);
    S.RemoveSnMembers(S.DropBelow(snd.buf, s.una), s.sn);
  }

  lemma RcvKept(a: Pass, s: Seg)
    requires R.Valid(a.pcb.rcv)
    ensures R.Valid(ProcessSeg(a, s).pcb.rcv) && ProcessSeg(a, s).pcb.rcv.nxt >= a.pcb.rcv.nxt
  {
    hide R.Valid, R.ParseData, S.ShrinkBuf, S.ParseUna, S.ParseAck;
    R.ParseDataValid(a.pcb.rcv, s);
  }

  lemma {:induction false} LagSegsKeep(a: Pass, segs: seq<Seg>)
    requires Sorted(a.pcb.snd) && R.Valid(a.pcb.rcv)
    ensures var b := LagSegs(a, segs);
            && Fewer(a.pcb.snd, b.pcb.snd) && R.Valid(b.pcb.rcv) && b.pcb.rcv.nxt >= a.pcb.rcv.nxt
            && (segs != [] ==> b.pcb.snd.una == WrittenFirst(b.pcb.snd))
  {
    hide ProcessSeg, LagSnd, R.Valid, Sorted, WrittenFirst;
    if segs != [] {
      var n := |segs| - 1;
      LagSegsKeep(a, segs[..n]);
      var b := LagSegs(a, segs[..n]);
      LagSndFewer(b.pcb.snd, segs[n]);
      RcvKept(b, segs[n]);
    }
  }

  /** Counting skips changes neither numbers nor what segments carry. */
  lemma ConcludeCarries(a: Pass, prevUna: nat, seen: map<nat, nat>)
    requires Sorted(a.pcb.snd) && Carrying(a.pcb.snd.buf, seen, a.pcb.rcv.nxt)
    ensures var q := Conclude(a, prevUna);
            && Sorted(q.snd) && Carrying(q.snd.buf, seen, q.rcv.nxt) && q.rcv == a.pcb.rcv && q.snd.una == a.pcb.snd.una
            && (a.pcb.snd.una == WrittenFirst(a.pcb.snd) ==> q.snd.una == WrittenFirst(q.snd))
  {
    hide Congestion.Grow, Ascending, S.Bump;
    if a.best != NoAck {
      S.BumpBelow(a.pcb.snd.buf, a.best.sn);
      BumpedCarries(a.pcb.snd, a.best.sn, seen, a.pcb.rcv.nxt);
    }
  }

  lemma BumpedCarries(s: S.Sender, sn: nat, seen: map<nat, nat>, rcvNxt: nat)
    requires Sorted(s) && Carrying(s.buf, seen, rcvNxt)
    ensures var b := S.Bump(s.buf, sn); Sorted(s.(buf := b)) && Carrying(b, seen, rcvNxt)
    ensures WrittenFirst(s) == WrittenFirst(s.(buf := S.Bump(s.buf, sn)))
  {
    S.BumpBelow(s.buf, sn);
    var b := S.Bump(s.buf, sn);
    hide S.Bump;
    forall x | x in b ensures x.sn < s.nxt && x.sn in seen && seen[x.sn] == x.una && x.una <= rcvNxt {
      var i :| 0 <= i < |b| && b[i] == x;
      assert s.buf[i] in s.buf;
    }
  }

  lemma LagInputKeeps(t: Tracked, data: seq<byte>)
    requires Inv(t)
    ensures var q := LagInput(t.pcb, data);
            && Inv(Tracked(q, t.seen))
            && (D.Parse(t.pcb.cfg.conv, data).segs != [] ==> q.snd.una == WrittenFirst(q.snd))
  {
    hide Sorted, R.Valid, WrittenFirst, Conclude, LagSegs, D.Parse;
    if |data| >= OVERHEAD {
      var a := LagSegs(Pass(t.pcb, NoAck), D.Parse(t.pcb.cfg.conv, data).segs);
      LagSegsKeep(Pass(t.pcb, NoAck), D.Parse(t.pcb.cfg.conv, data).segs);
      ConcludeCarries(a, t.pcb.snd.una, t.seen);
    } else {
      ShortDatagram(t.pcb.cfg.conv, data);
    }
  }

  lemma ShortDatagram(conv: nat, data: seq<byte>)
    requires |data| < OVERHEAD
    ensures D.Parse(conv, data).segs == []
  {
  }

  lemma AdmittedSorted(p: Pcb) returns (k: nat)
    requires Sorted(p.snd)
    ensures k <= |p.snd.queue| && Admitted(p).buf == p.snd.buf + S.Numbered(p.snd, k, StampOf(p))
    ensures Sorted(Admitted(p))
  {
    var limit := p.snd.una + Window(p);
    S.AdmitPrefix(p.snd, limit, StampOf(p));
    k := S.Room(p.snd, limit);
    S.AppendedValid(p.snd.(una := S.FirstUnacked(p.snd)), k, StampOf(p));
    hide S.Admit, Window, WndLeft, S.Numbered;
  }

  lemma TouchedCarries(t: Tracked, k: nat, o: Seg)
    requires Inv(t) && k <= |t.pcb.snd.queue|
    requires Admitted(t.pcb).buf == t.pcb.snd.buf + S.Numbered(t.pcb.snd, k, StampOf(t.pcb)) && Sorted(Admitted(t.pcb))
    requires o in Admitted(t.pcb).buf
    ensures var x, seen := T.Touch(o, FlushContext(t.pcb)), t.seen + Noted(DueSegs(t.pcb), t.pcb.rcv.nxt);
            x.sn == o.sn && x.sn in seen && seen[x.sn] == x.una && x.una <= t.pcb.rcv.nxt
  {
    var p, c := t.pcb, FlushContext(t.pcb);
    var x, buf, due := T.Touch(o, c), Admitted(t.pcb).buf, DueSegs(t.pcb);
    hide Admitted, T.Due, R.Valid, S.Numbered;
    T.TouchKeeps(o, c);
    T.DueMembers(buf, c);
    if T.Decide(o, c) != T.Skip {
      assert x in due;
    } else {
      if o !in p.snd.buf {
        var i := S.NumberedMember(p.snd, k, StampOf(p), o);
      }
      NotNoted(buf, c, o, p.rcv.nxt);
    }
  }

  lemma NotNoted(buf: seq<Seg>, c: T.Context, o: Seg, rcvNxt: nat)
    requires Ascending(buf) && o in buf && T.Decide(o, c) == T.Skip
    ensures o.sn !in Noted(T.Due(buf, c), rcvNxt)
  {
    T.DueMembers(buf, c);
    forall x | x in T.Due(buf, c) ensures x.sn != o.sn {
      var y :| y in buf && T.Decide(y, c) != T.Skip && x == T.Touch(y, c);
      T.TouchKeeps(y, c);
      assert y != o;
    }
  }

  lemma FlushKeeps(t: Tracked)
    requires Inv(t)
    ensures Inv(LagStep(t, DoFlush))
  {
    if t.pcb.updated != 0 {
      var k := AdmittedSorted(t.pcb);
      var buf, c := Admitted(t.pcb).buf, FlushContext(t.pcb);
      var after := T.TouchAll(buf, c);
      hide Admitted, T.Touch, DueSegs, FlushContext, R.Valid, FlushSegs, Noted, S.Numbered;
      forall i | 0 <= i < |buf|
        ensures after[i].sn == buf[i].sn && after[i].sn in LagStep(t, DoFlush).seen
        ensures LagStep(t, DoFlush).seen[after[i].sn] == after[i].una && after[i].una <= t.pcb.rcv.nxt
      {
        TouchedCarries(t, k, buf[i]);
      }
      TouchedSorted(Admitted(t.pcb), after);
    }
  }

  lemma TouchedSorted(s: S.Sender, after: seq<Seg>)
    requires Sorted(s) && |after| == |s.buf| && forall i :: 0 <= i < |after| ==> after[i].sn == s.buf[i].sn
    ensures Sorted(s.(buf := after))
  {
    forall x | x in after ensures x.sn < s.nxt {
      var i :| 0 <= i < |after| && after[i] == x;
      assert s.buf[i] in s.buf;
    }
  }

  lemma OtherKeeps(t: Tracked, e: Event)
    requires Inv(t) && !e.DoFlush? && !e.DoInput?
    ensures Inv(LagStep(t, e))
  {
    hide Sorted;
    assert Sorted(Apply(t.pcb, e).snd) by {
      SameSorted(t.pcb.snd, Apply(t.pcb, e).snd);
    }
  }

  lemma SameSorted(s: S.Sender, t: S.Sender)
    requires Sorted(s)
    ensures t.buf == s.buf && t.nxt == s.nxt ==> Sorted(t)
  {
  }

  lemma {:induction false} TraceInv(conv: nat, es: seq<Event>)
    ensures Inv(LagTrace(conv, es))
  {
    hide Inv, LagStep;
    if es == [] {
      StartInv(conv);
    } else {
      var t, e := LagTrace(conv, es[..|es| - 1]), es[|es| - 1];
      TraceInv(conv, es[..|es| - 1]);
      if e.DoFlush? {
        FlushKeeps(t);
      } else if e.DoInput? {
        LagInputKeeps(t, e.data);
        InputStep(t, e.data);
      } else {
        OtherKeeps(t, e);
      }
    }
  }

  lemma InputStep(t: Tracked, data: seq<byte>)
    ensures LagStep(t, DoInput(data)) == Tracked(LagInput(t.pcb, data), t.seen)
  {
  }

  lemma StartInv(conv: nat)
    ensures Inv(Tracked(Create(conv), map[]))
  {
  }

  /** In every run of the written form, after a datagram with any segment in it, `Snd_una` is `Rcv_nxt` as it
      was when the first buffered segment was last transmitted. So it is the first unacknowledged number
      exactly when nothing is buffered or the two directions happened to be at the same number then; on an
      endpoint that has received nothing, when the first buffered number is 0. */
  lemma WrittenFirstOverRuns(conv: nat, es: seq<Event>, data: seq<byte>)
    requires D.Parse(LagTrace(conv, es).pcb.cfg.conv, data).segs != []
    ensures var t := LagTrace(conv, es);
            var q := LagInput(t.pcb, data);
            && (q.snd.buf == [] ==> q.snd.una == q.snd.nxt)
            && (q.snd.buf != [] ==>
                  var head := q.snd.buf[0].sn;
                  && head in t.seen && q.snd.una == t.seen[head] <= q.rcv.nxt
                  && (q.snd.una == S.FirstUnacked(q.snd) <==> head == t.seen[head])
                  && (q.rcv.nxt == 0 ==> q.snd.una == 0 && (q.snd.una == S.FirstUnacked(q.snd) <==> head == 0)))
  {
    var t := LagTrace(conv, es);
    TraceInv(conv, es);
    LagInputKeeps(t, data);
    var q := LagInput(t.pcb, data);
    hide LagTrace, LagInput, Sorted, R.Valid, D.Parse;
    if q.snd.buf != [] {
      assert q.snd.buf[0] in q.snd.buf;
    }
  }
}
