/** One exchange of datagrams: what a flush transmits is acknowledged away once it has arrived and the
    answer has come back. */
module Progress {
  import opened Bytes
  import opened Segments
  import opened Endpoints
  import opened Network
  import Congestion
  import D = Datagrams
  import Emissions
  import Histories
  import R = Receivers
  import Rtt = RttEstimator
  import Runs
  import S = Senders
  import T = Retransmission

  /** Datagrams arriving one after the other. */
  function InputAll(p: Pcb, ds: seq<seq<byte>>): Pcb {
    if ds == [] then p else Input(InputAll(p, ds[..|ds| - 1]), ds[|ds| - 1]).pcb
  }

  lemma {:induction false} InputAllKeeps(p: Pcb, ds: seq<seq<byte>>)
    requires Valid(p)
    ensures var q := InputAll(p, ds);
            && Valid(q) && q.cfg == p.cfg && q.updated == p.updated && q.rcv.wnd == p.rcv.wnd && q.rcv.nxt >= p.rcv.nxt
  {
    hide Valid, Input;
    if ds != [] {
      var b := InputAll(p, ds[..|ds| - 1]);
      InputAllKeeps(p, ds[..|ds| - 1]);
      Runs.InputKeeps(b, ds[|ds| - 1]);
      Runs.InputFrame(b, ds[|ds| - 1]);
    }
  }

  lemma {:induction false} ParseAllSource(conv: nat, ds: seq<seq<byte>>, s: Seg) returns (d: seq<byte>)
    requires s in D.ParseAll(conv, ds)
    ensures d in ds && s in D.Parse(conv, d).segs
  {
    hide D.Parse;
    var n := |ds| - 1;
    if s in D.Parse(conv, ds[n]).segs {
      d := ds[n];
    } else {
      d := ParseAllSource(conv, ds[..n], s);
    }
  }

  // ----- The receiving side owes an acknowledgement -----

  /** Owed acknowledgements are not forgotten before the next flush. */
  ghost predicate Owes(p: Pcb, a: Ack) {
    a in p.acks
  }

  lemma SegOwes(a: Pass, s: Seg)
    ensures forall k :: Owes(a.pcb, k) ==> Owes(ProcessSeg(a, s).pcb, k)
    ensures s.cmd == CMD_PUSH && s.sn < a.pcb.rcv.nxt + a.pcb.rcv.wnd ==> Owes(ProcessSeg(a, s).pcb, Ack(s.sn, s.ts))
  {
    hide S.ShrinkBuf, S.ParseUna, S.ParseAck, R.ParseData, Rtt.Update;
  }

  lemma {:induction false} SegsOwe(a: Pass, segs: seq<Seg>)
    requires S.Valid(a.pcb.snd) && R.Valid(a.pcb.rcv)
    ensures var q := ProcessAll(a, segs).pcb;
            && (forall k :: Owes(a.pcb, k) ==> Owes(q, k))
            && forall s <- segs :: s.cmd == CMD_PUSH && s.sn < a.pcb.rcv.nxt + a.pcb.rcv.wnd ==> Owes(q, Ack(s.sn, s.ts))
  {
    hide S.Valid, R.Valid, ProcessSeg, Owes;
    if segs != [] {
      var n := |segs| - 1;
      SegsOwe(a, segs[..n]);
      ProcessAllProcessed(a, segs[..n]);
      SegOwes(ProcessAll(a, segs[..n]), segs[n]);
      assert segs == segs[..n] + [segs[n]];
      assert forall s :: s in segs <==> s in segs[..n] || s == segs[n];
    }
  }

  lemma InputOwes(p: Pcb, d: seq<byte>)
    requires Valid(p)
    ensures var q := Input(p, d).pcb;
            && (forall k :: Owes(p, k) ==> Owes(q, k))
            && forall s <- D.Parse(p.cfg.conv, d).segs ::
                 s.cmd == CMD_PUSH && s.sn < p.rcv.nxt + p.rcv.wnd ==> Owes(q, Ack(s.sn, s.ts))
  {
    hide ProcessAll, D.Parse, Congestion.Grow, S.ParseFastack, S.Valid, R.Valid;
    SegsOwe(Pass(p, NoAck), D.Parse(p.cfg.conv, d).segs);
    Emissions.ShortHasNone(p.cfg.conv, d);
  }

  lemma {:induction false} InputAllOwes(p: Pcb, ds: seq<seq<byte>>, d: seq<byte>, s: Seg)
    requires Valid(p) && d in ds && s in D.Parse(p.cfg.conv, d).segs
    requires s.cmd == CMD_PUSH && s.sn < p.rcv.nxt + p.rcv.wnd
    ensures Owes(InputAll(p, ds), Ack(s.sn, s.ts))
  {
    hide Valid, Input, D.Parse, Owes;
    var n := |ds| - 1;
    var b := InputAll(p, ds[..n]);
    InputAllKeeps(p, ds[..n]);
    InputOwes(b, ds[n]);
    if d != ds[n] {
      InputAllOwes(p, ds[..n], d, s);
    }
  }

  // ----- The sending side forgets what is acknowledged -----

  lemma SegRemoves(a: Pass, s: Seg)
    requires S.Valid(a.pcb.snd) && R.Valid(a.pcb.rcv)
    ensures s.cmd == CMD_ACK ==> !Has(ProcessSeg(a, s).pcb.snd.buf, s.sn)
    ensures forall x :: x in ProcessSeg(a, s).pcb.snd.buf ==> x in a.pcb.snd.buf
    ensures S.Valid(ProcessSeg(a, s).pcb.snd) && R.Valid(ProcessSeg(a, s).pcb.rcv)
  {
    hide S.Valid, R.Valid, S.ShrinkBuf, S.ParseUna, S.ParseAck, R.ParseData, Rtt.Update;
    ProcessSegProcessed(a, s);
    S.UnaStep(a.pcb.snd, s.una);
    S.AckStep(Common(a.pcb, s).snd, s.sn);
  }

  lemma {:induction false} SegsRemove(a: Pass, segs: seq<Seg>, s: Seg)
    requires S.Valid(a.pcb.snd) && R.Valid(a.pcb.rcv) && s in segs && s.cmd == CMD_ACK
    ensures !Has(ProcessAll(a, segs).pcb.snd.buf, s.sn)
  {
    hide S.Valid, R.Valid, ProcessSeg;
    var n := |segs| - 1;
    var b := ProcessAll(a, segs[..n]);
    ProcessAllProcessed(a, segs[..n]);
    ProcessedValid(a.pcb, b.pcb);
    SegRemoves(b, segs[n]);
    if s != segs[n] {
      SegsRemove(a, segs[..n], s);
    }
  }

  lemma ConcludeHas(a: Pass, prevUna: nat, sn: nat)
    requires S.Valid(a.pcb.snd) && Has(Conclude(a, prevUna).snd.buf, sn)
    ensures Has(a.pcb.snd.buf, sn)
  {
    hide S.Valid, S.ParseFastack, Congestion.Grow;
    var buf := Conclude(a, prevUna).snd.buf;
    var x :| x in buf && x.sn == sn;
    if a.best != NoAck {
      S.FastackStep(a.pcb.snd, a.best.sn);
    }
    var i :| 0 <= i < |buf| && buf[i] == x;
    assert a.pcb.snd.buf[i] in a.pcb.snd.buf;
  }

  lemma InputRemoves(p: Pcb, d: seq<byte>, sn: nat)
    requires Valid(p)
    requires !Has(p.snd.buf, sn) || exists s :: s in D.Parse(p.cfg.conv, d).segs && s.cmd == CMD_ACK && s.sn == sn
    ensures !Has(Input(p, d).pcb.snd.buf, sn)
  {
    if !Has(p.snd.buf, sn) {
      hide Valid, Input, D.Parse;
      Histories.InputBuffer(p, d);
    } else {
      var segs := D.Parse(p.cfg.conv, d).segs;
      var a := ProcessAll(Pass(p, NoAck), segs);
      var s :| s in segs && s.cmd == CMD_ACK && s.sn == sn;
      Emissions.ShortHasNone(p.cfg.conv, d);
      SegsRemove(Pass(p, NoAck), segs, s);
      ProcessAllProcessed(Pass(p, NoAck), segs);
      ProcessedValid(p, a.pcb);
      hide S.Valid, R.Valid, ProcessAll, D.Parse, Conclude, Has;
      if Has(Conclude(a, p.snd.una).snd.buf, sn) {
        ConcludeHas(a, p.snd.una, sn);
      }
    }
  }

  lemma {:induction false} InputAllRemoves(p: Pcb, ds: seq<seq<byte>>, d: seq<byte>, s: Seg)
    requires Valid(p) && d in ds && s in D.Parse(p.cfg.conv, d).segs && s.cmd == CMD_ACK
    ensures !Has(InputAll(p, ds).snd.buf, s.sn)
  {
    hide Valid, Input, D.Parse, Has;
    var n := |ds| - 1;
    InputAllKeeps(p, ds[..n]);
    if d != ds[n] {
      InputAllRemoves(p, ds[..n], d, s);
    }
    InputRemoves(InputAll(p, ds[..n]), ds[n], s.sn);
  }

  // ----- One exchange -----

  /** Every due segment is in some emitted datagram. */
  lemma DueIsEmitted(p: Pcb, s: Seg) returns (d: seq<byte>)
    requires Valid(p) && p.cfg.conv < TWO_32 && p.updated != 0 && s in DueSegs(p)
    ensures d in Flush(p).out && OnWire(s) in D.Parse(p.cfg.conv, d).segs && s.cmd == CMD_PUSH
  {
    hide Valid, Flush, DueSegs, AckSegs, ProbeSegs, OnWire, D.Parse, D.ParseAll;
    Emissions.FlushIsReadBack(p);
    Emissions.DueShape(p, s);
    InOnWires(DueSegs(p), s);
    d := ParseAllSource(p.cfg.conv, Flush(p).out, OnWire(s));
  }

  /** Every owed acknowledgement is in some emitted datagram. */
  lemma AckIsEmitted(p: Pcb, a: Ack) returns (d: seq<byte>, s: Seg)
    requires Valid(p) && p.cfg.conv < TWO_32 && p.updated != 0 && Owes(p, a) && a.sn < TWO_32
    ensures d in Flush(p).out && s in D.Parse(p.cfg.conv, d).segs && s.cmd == CMD_ACK && s.sn == a.sn
  {
    var k :| 0 <= k < |p.acks| && p.acks[k] == a;
    var t := AckSegs(p)[k];
    s := OnWire(t);
    assert s.cmd == CMD_ACK && s.sn == a.sn;
    hide Valid, Flush, DueSegs, AckSegs, ProbeSegs, OnWire, D.Parse, D.ParseAll;
    Emissions.FlushIsReadBack(p);
    InOnWires(AckSegs(p), t);
    d := ParseAllSource(p.cfg.conv, Flush(p).out, s);
  }

  lemma InOnWires(segs: seq<Seg>, s: Seg)
    requires s in segs
    ensures OnWire(s) in D.OnWires(segs)
  {
    hide OnWire;
    var i :| 0 <= i < |segs| && segs[i] == s;
    assert D.OnWires(segs)[i] == OnWire(s);
  }

  lemma DataOnWire(s: Seg)
    requires s.cmd == CMD_PUSH && s.sn < TWO_32
    ensures OnWire(s).cmd == CMD_PUSH && OnWire(s).sn == s.sn
  {
  }

  /** If all datagrams of a flush arrive, in any order and among any others, and then, after the application has
      taken what it likes, all datagrams of the peer's next flush arrive, in any order and among any others,
      every segment the flush transmitted inside the peer's window has left the send buffer. The window's end
      must not have passed 32 bits by then. */
  lemma RoundTrip(x: Pcb, y: Pcb, arrivals: seq<seq<byte>>, k: nat, replies: seq<seq<byte>>, s: Seg)
    requires Valid(x) && Valid(y) && x.cfg.conv == y.cfg.conv < TWO_32 && x.updated != 0 && y.updated != 0
    requires forall d :: d in Flush(x).out ==> d in arrivals
    requires k <= |InputAll(y, arrivals).rcv.queue|
    requires forall d :: d in Flush(Take(InputAll(y, arrivals), k)).out ==> d in replies
    requires InputAll(y, arrivals).rcv.nxt + y.rcv.wnd < TWO_32
    requires s in DueSegs(x) && s.sn < y.rcv.nxt + y.rcv.wnd
    ensures !Has(InputAll(Flush(x).pcb, replies).snd.buf, s.sn)
  {
    hide Valid, Flush, DueSegs, InputAll, OnWire, D.Parse, Has;
    var y1 := InputAll(y, arrivals);
    var d := DueIsEmitted(x, s);
    InputAllKeeps(y, arrivals);
    DataOnWire(s);
    InputAllOwes(y, arrivals, d, OnWire(s));
    Runs.TakeValid(y1, k);
    var e, ack := AckIsEmitted(Take(y1, k), Ack(OnWire(s).sn, OnWire(s).ts));
    Runs.FlushKeeps(x);
    InputAllRemoves(Flush(x).pcb, replies, e, ack);
  }

  // ----- In the network -----

  /** The fixed window sizes, and what they bound. */
  predicate Bounded(p: Pcb) {
    p.cfg.sndWnd == WND_SND && p.rcv.wnd == WND_RCV && p.snd.nxt - p.snd.una <= WND_SND
  }

  lemma ApplyBounded(p: Pcb, e: Event)
    requires Valid(p) && Bounded(p)
    ensures Bounded(Apply(p, e))
  {
    hide Valid, Input, Flush;
    Runs.ApplyKeeps(p, e);
    if e.DoInput? {
      Runs.InputKeeps(p, e.data);
      Runs.InputFrame(p, e.data);
    }
    if e.DoFlush? {
      Runs.FlushKeeps(p);
      FlushBounded(p);
    }
  }

  lemma FlushBounded(p: Pcb)
    requires p.cfg.sndWnd == WND_SND
    ensures Window(p) <= WND_SND && (p.updated == 0 ==> Flush(p).pcb == p)
  {
  }

  lemma {:induction false} RunBounded(conv: nat, steps: seq<Step>)
    requires conv < TWO_32 && Possible(Start(conv), steps)
    ensures var n := RunOf(Start(conv), steps); Bounded(n.a.pcb) && Bounded(n.b.pcb)
  {
    hide Apply, Valid, Accepted, Mail, Link, Bounded;
    if steps == [] {
      StartBounded(conv);
    } else {
      var k := |steps| - 1;
      var n := RunOf(Start(conv), steps[..k]);
      RunBounded(conv, steps[..k]);
      RunInv(conv, steps[..k]);
      match steps[k]
      case AtA(e) => ApplyBounded(n.a.pcb, e);
      case AtB(e) => ApplyBounded(n.b.pcb, e);
      case Lose(_, _) =>
    }
  }

  lemma StartBounded(conv: nat)
    ensures Bounded(Create(conv))
  {
  }

  /** With room in the queue and nothing left undelivered, what is unacknowledged starts no later than the
      peer's window, so the window covers what is in flight. */
  lemma WindowCovers(x: Peer, y: Peer)
    requires S.Valid(x.pcb.snd) && R.Valid(y.pcb.rcv) && Link(x, y)
    requires R.Settled(y.pcb.rcv) && |y.pcb.rcv.queue| < y.pcb.rcv.wnd
    ensures x.pcb.snd.una <= y.pcb.rcv.nxt
  {
    NextNotHeld(y.pcb.rcv);
    UnaBounds(x.pcb.snd, y.pcb.rcv.nxt);
  }

  lemma NextNotHeld(r: R.Receiver)
    requires R.Valid(r) && R.Settled(r) && |r.queue| < r.wnd
    ensures !R.Held(r, r.nxt)
  {
    assert r.buf != [] ==> r.buf[0] in r.buf;
  }

  lemma UnaBounds(s: S.Sender, sn: nat)
    requires S.Valid(s)
    ensures s.una <= s.nxt && (sn < s.una ==> !Has(s.buf, sn))
  {
    assert s.buf != [] ==> s.buf[0] in s.buf;
  }

  /** `x` flushes, all of it arrives at `y`, whose window covers what is in flight, its application takes `k`
      segments, and all of what `y` flushes next arrives; both in any order, among any other datagrams. */
  ghost predicate Exchange(x: Pcb, y: Pcb, arrivals: seq<seq<byte>>, k: nat, replies: seq<seq<byte>>) {
    && x.updated != 0 && y.updated != 0
    && Flush(x).pcb.snd.nxt + WND_RCV < TWO_32 && InputAll(y, arrivals).rcv.nxt + WND_RCV < TWO_32
    && x.snd.una + WND_SND <= y.rcv.nxt + WND_RCV
    && (forall d :: d in Flush(x).out ==> d in arrivals)
    && k <= |InputAll(y, arrivals).rcv.queue|
    && (forall d :: d in Flush(Take(InputAll(y, arrivals), k)).out ==> d in replies)
  }

  lemma ExchangeBetween(x: Pcb, y: Pcb, arrivals: seq<seq<byte>>, k: nat, replies: seq<seq<byte>>, s: Seg)
    requires Valid(x) && Valid(y) && x.cfg.conv == y.cfg.conv < TWO_32 && Bounded(x) && Bounded(y)
    ensures Exchange(x, y, arrivals, k, replies) && s in DueSegs(x) ==> !Has(InputAll(Flush(x).pcb, replies).snd.buf, s.sn)
  {
    hide Valid, Flush, DueSegs, InputAll, Has;
    if Exchange(x, y, arrivals, k, replies) && s in DueSegs(x) {
      DueInFlight(x, s);
      RoundTrip(x, y, arrivals, k, replies, s);
    }
  }

  /** In every state two endpoints reach over the network, after an exchange started by either side nothing of
      what its flush transmitted is still in the send buffer. */
  lemma RoundOverNetwork(conv: nat, n: Net, arrivals: seq<seq<byte>>, k: nat, replies: seq<seq<byte>>, s: Seg)
    requires conv < TWO_32 && Reachable(conv, n)
    ensures Exchange(n.a.pcb, n.b.pcb, arrivals, k, replies) && s in DueSegs(n.a.pcb)
        ==> !Has(InputAll(Flush(n.a.pcb).pcb, replies).snd.buf, s.sn)
    ensures Exchange(n.b.pcb, n.a.pcb, arrivals, k, replies) && s in DueSegs(n.b.pcb)
        ==> !Has(InputAll(Flush(n.b.pcb).pcb, replies).snd.buf, s.sn)
  {
    hide Valid, Flush, DueSegs, InputAll, Has, Link, Accepted, Mail, RunOf, Possible, Exchange, Bounded;
    ReachableInv(conv, n);
    var steps :| Possible(Start(conv), steps) && n == RunOf(Start(conv), steps);
    RunBounded(conv, steps);
    ExchangeBetween(n.a.pcb, n.b.pcb, arrivals, k, replies, s);
    ExchangeBetween(n.b.pcb, n.a.pcb, arrivals, k, replies, s);
  }

  lemma Parts(p: Pcb)
    requires Valid(p)
    ensures S.Valid(p.snd) && R.Valid(p.rcv)
  {
  }

  lemma DueInFlight(p: Pcb, s: Seg)
    requires Valid(p) && Bounded(p) && p.updated != 0 && s in DueSegs(p)
    ensures s.sn < Flush(p).pcb.snd.nxt <= p.snd.una + WND_SND
  {
    hide Valid, Admitted, T.Touch, T.Due, T.TouchAll, D.Pack, FlushContext;
    ApplyBounded(p, DoFlush);
    Runs.FlushKeeps(p);
    Runs.FlushedSnd(p);
    Histories.AdmittedSorted(p);
    T.DueMembers(Admitted(p).buf, FlushContext(p));
    var o :| o in Admitted(p).buf && T.Decide(o, FlushContext(p)) != T.Skip && s == T.Touch(o, FlushContext(p));
    T.TouchKeeps(o, FlushContext(p));
  }
}
