/** Two endpoints over a network that loses, duplicates, delays and reorders datagrams. */
module Network {
  import opened Bytes
  import opened Segments
  import opened Endpoints
  import D = Datagrams
  import M = Messages
  import R = Receivers
  import Runs
  import S = Senders
  import T = Retransmission

  /** One side: its endpoint, the messages it accepted from its application, the payload it gave
      each number so far, and the payloads its application has taken. */
  datatype Peer = Peer(pcb: Pcb, msgs: seq<seq<byte>>, sent: seq<Payload>, taken: seq<Payload>)

  /** Both sides, and the datagrams that may still arrive at either. */
  datatype Net = Net(a: Peer, b: Peer, ab: set<seq<byte>>, ba: set<seq<byte>>)

  function Payloads(segs: seq<Seg>): (r: seq<Payload>)
    ensures |r| == |segs|
  {
    seq(|segs|, i requires 0 <= i < |segs| => PayloadOf(segs[i]))
  }

  /** How many waiting segments the next flush numbers. */
  function Moving(p: Pcb): nat {
    if p.updated == 0 then 0 else S.Room(p.snd, p.snd.una + Window(p))
  }

  /** One side acts: its endpoint does what the source does, the rest is bookkeeping. */
  function Act(x: Peer, e: Event): Peer {
    var y := x.(pcb := Apply(x.pcb, e));
    match e
    case DoSend(buf) => if Send(x.pcb, buf).code == 0 then y.(msgs := x.msgs + [buf]) else y
    case DoFlush => y.(sent := x.sent + Payloads(x.pcb.snd.queue[..Moving(x.pcb)]))
    case DoTake(k) =>
      if k <= |x.pcb.rcv.queue| then y.(taken := x.taken + Payloads(x.pcb.rcv.queue[..k])) else y
    case _ => y
  }

  function Emitted(x: Peer, e: Event): set<seq<byte>> {
    if e.DoFlush? then set d | d in Flush(x.pcb).out else {}
  }

  /** Only datagrams that are in flight arrive. */
  predicate Allowed(e: Event, inbox: set<seq<byte>>) {
    e.DoInput? ==> e.data in inbox
  }

  datatype Step = AtA(e: Event) | AtB(e: Event) | Lose(ab: set<seq<byte>>, ba: set<seq<byte>>)

  predicate Enabled(n: Net, s: Step) {
    match s
    case AtA(e) => Allowed(e, n.ba)
    case AtB(e) => Allowed(e, n.ab)
    case Lose(_, _) => true
  }

  /** A delivered datagram stays in flight: it may arrive again, in any order; only `Lose` removes it. */
  function Next(n: Net, s: Step): Net {
    match s
    case AtA(e) => n.(a := Act(n.a, e), ab := n.ab + Emitted(n.a, e))
    case AtB(e) => n.(b := Act(n.b, e), ba := n.ba + Emitted(n.b, e))
    case Lose(ab, ba) => n.(ab := n.ab - ab, ba := n.ba - ba)
  }

  /** Sequence numbers, and the ends of windows behind them, fit 32 bits: the source adds and compares them
      without regard to wrap-around. */
  predicate NoWrap(n: Net) {
    n.a.pcb.snd.nxt + WND_RCV < TWO_32 && n.b.pcb.snd.nxt + WND_RCV < TWO_32
  }

  function Start(conv: nat): Net {
    var p := Peer(Create(conv), [], [], []);
    Net(p, p, {}, {})
  }

  function RunOf(n: Net, steps: seq<Step>): Net {
    if steps == [] then n else Next(RunOf(n, steps[..|steps| - 1]), steps[|steps| - 1])
  }

  /** Every step was possible, and the numbers never ran out. */
  ghost predicate Possible(n: Net, steps: seq<Step>) {
    && NoWrap(RunOf(n, steps))
    && (steps == [] ||
        (Possible(n, steps[..|steps| - 1]) && Enabled(RunOf(n, steps[..|steps| - 1]), steps[|steps| - 1])))
  }

  // ----- The invariant -----

  /** The segment carries what its number was given. */
  ghost predicate Carries(sent: seq<Payload>, s: Seg) {
    s.sn < |sent| && PayloadOf(s) == sent[s.sn]
  }

  /** Send side `snd` with history `sent`, towards the receive side `rcv`: buffered segments carry
      their history, and a number that is no longer buffered is held by the peer. */
  ghost predicate SndLink(snd: S.Sender, sent: seq<Payload>, rcv: R.Receiver) {
    && |sent| == snd.nxt
    && (forall s <- snd.buf :: Carries(sent, s))
    && (forall sn :: 0 <= sn < snd.nxt ==> Has(snd.buf, sn) || R.Held(rcv, sn))
  }

  /** Receive side: what was delivered, in order, is the peer's history up to `Rcv_nxt`; what is
      buffered carries that history; what is about to be acknowledged is held. */
  ghost predicate RcvLink(rcv: R.Receiver, acks: seq<Ack>, taken: seq<Payload>, sent: seq<Payload>) {
    && rcv.nxt <= |sent|
    && taken + Payloads(rcv.queue) == sent[..rcv.nxt]
    && (forall s <- rcv.buf :: Carries(sent, s))
    && (forall a <- acks :: R.Held(rcv, a.sn))
  }

  /** What a segment on its way from `src` says is true of `src`. */
  ghost predicate Truthful(rcv: R.Receiver, sent: seq<Payload>, s: Seg) {
    && s.una <= rcv.nxt
    && (s.cmd == CMD_ACK ==> R.Held(rcv, s.sn))
    && (s.cmd == CMD_PUSH ==> Carries(sent, s))
  }

  ghost predicate Mail(src: Peer, box: set<seq<byte>>) {
    forall d, s :: d in box && s in D.Parse(src.pcb.cfg.conv, d).segs ==> Truthful(src.pcb.rcv, src.sent, s)
  }

  /** Numbered and waiting fragments together are the accepted messages. */
  ghost predicate Accepted(x: Peer) {
    && x.pcb.cfg.mss > 0
    && (forall m <- x.msgs :: m != [])
    && x.sent + Payloads(x.pcb.snd.queue) == M.FragmentAll(x.msgs, x.pcb.cfg.mss)
  }

  ghost predicate Link(x: Peer, y: Peer) {
    && SndLink(x.pcb.snd, x.sent, y.pcb.rcv)
    && RcvLink(y.pcb.rcv, y.pcb.acks, y.taken, x.sent)
  }

  ghost predicate SideInv(x: Peer, conv: nat, mss: nat, out: set<seq<byte>>) {
    && Valid(x.pcb) && x.pcb.cfg.conv == conv < TWO_32 && x.pcb.cfg.mss == mss
    && Accepted(x) && Mail(x, out)
  }

  ghost predicate Inv(n: Net, conv: nat, mss: nat) {
    && SideInv(n.a, conv, mss, n.ab) && SideInv(n.b, conv, mss, n.ba)
    && Link(n.a, n.b) && Link(n.b, n.a)
  }

  lemma StartInv(conv: nat)
    requires conv < TWO_32
    ensures Inv(Start(conv), conv, MTU_DEF - OVERHEAD)
  {
    CreateValid(conv);
  }

  // ----- Receiving -----

  /** A segment that tells the truth about its sender leaves the send side linked: what it
      acknowledges away is held by the peer. */
  lemma SegKeepsSnd(a: Pass, s: Seg, sent: seq<Payload>, rcv: R.Receiver, psent: seq<Payload>)
    requires S.Valid(a.pcb.snd) && SndLink(a.pcb.snd, sent, rcv) && Truthful(rcv, psent, s)
    ensures SndLink(ProcessSeg(a, s).pcb.snd, sent, rcv)
  {
    var p := Common(a.pcb, s);
    S.UnaStep(a.pcb.snd, s.una);
    UnaKeeps(a.pcb.snd, p.snd, s.una, sent, rcv);
    if s.cmd == CMD_ACK {
      S.AckStep(p.snd, s.sn);
      AckKeeps(p.snd, OnAck(p, s).snd, s.sn, sent, rcv);
    }
    hide SndLink, S.Valid, S.ShrinkBuf, S.ParseUna, S.ParseAck;
  }

  lemma UnaKeeps(s: S.Sender, t: S.Sender, una: nat, sent: seq<Payload>, rcv: R.Receiver)
    requires SndLink(s, sent, rcv) && una <= rcv.nxt && t.nxt == s.nxt
    requires forall x :: x in t.buf <==> x in s.buf && x.sn >= una
    ensures SndLink(t, sent, rcv)
  {
    forall sn | 0 <= sn < t.nxt ensures Has(t.buf, sn) || R.Held(rcv, sn) {
      assert Has(s.buf, sn) || R.Held(rcv, sn);
    }
  }

  lemma AckKeeps(s: S.Sender, t: S.Sender, acked: nat, sent: seq<Payload>, rcv: R.Receiver)
    requires SndLink(s, sent, rcv) && R.Held(rcv, acked) && t.nxt == s.nxt
    requires forall x :: x in t.buf <==> x in s.buf && x.sn != acked
    ensures SndLink(t, sent, rcv)
  {
    forall sn | 0 <= sn < t.nxt ensures Has(t.buf, sn) || R.Held(rcv, sn) {
      assert Has(s.buf, sn) || R.Held(rcv, sn);
    }
  }

  lemma RunIsHistory(nxt: nat, run: seq<Seg>, sent: seq<Payload>)
    requires forall i :: 0 <= i < |run| ==> run[i].sn == nxt + i && Carries(sent, run[i])
    requires nxt <= |sent|
    ensures nxt + |run| <= |sent| && sent[nxt..nxt + |run|] == Payloads(run)
  {
    if run != [] {
      assert Carries(sent, run[|run| - 1]);
    }
    forall i | 0 <= i < |run| ensures sent[nxt + i] == PayloadOf(run[i]) {
    }
  }

  lemma DataKeepsRcv(rcv: R.Receiver, s: Seg, acks: seq<Ack>, taken: seq<Payload>, sent: seq<Payload>)
    requires R.Valid(rcv) && RcvLink(rcv, acks, taken, sent) && Carries(sent, s)
    ensures RcvLink(R.ParseData(rcv, s), acks, taken, sent)
  {
    hide R.Valid, R.ParseData, R.Held, R.Duplicate, R.InWindow, Carries, Payloads;
    var run := R.ParseDataEffect(rcv, s);
    R.HeldGrows(rcv, s);
    var r' := R.ParseData(rcv, s);
    assert forall x :: x in run || x in r'.buf ==> x in rcv.buf || x == s;
    assert forall i :: 0 <= i < |run| ==> run[i] in run && Carries(sent, run[i]);
    RunIsHistory(rcv.nxt, run, sent);
    PayloadsConcat(rcv.queue, run);
    assert sent[..rcv.nxt] + sent[rcv.nxt..rcv.nxt + |run|] == sent[..rcv.nxt + |run|];
  }

  lemma PayloadsConcat(xs: seq<Seg>, ys: seq<Seg>)
    ensures Payloads(xs + ys) == Payloads(xs) + Payloads(ys)
  {
  }

  lemma SegKeepsRcv(a: Pass, s: Seg, taken: seq<Payload>, sent: seq<Payload>, prcv: R.Receiver)
    requires R.Valid(a.pcb.rcv) && RcvLink(a.pcb.rcv, a.pcb.acks, taken, sent) && Truthful(prcv, sent, s)
    ensures RcvLink(ProcessSeg(a, s).pcb.rcv, ProcessSeg(a, s).pcb.acks, taken, sent)
    ensures forall sn :: R.Held(a.pcb.rcv, sn) ==> R.Held(ProcessSeg(a, s).pcb.rcv, sn)
  {
    if s.cmd == CMD_PUSH {
      DataKeepsRcv(a.pcb.rcv, s, a.pcb.acks, taken, sent);
      R.HeldGrows(a.pcb.rcv, s);
      hide R.Valid, R.ParseData, S.ShrinkBuf, S.ParseUna;
    }
  }

  ghost predicate AllTruthful(rcv: R.Receiver, sent: seq<Payload>, segs: seq<Seg>) {
    forall s <- segs :: Truthful(rcv, sent, s)
  }

  /** A whole datagram of truthful segments. */
  lemma {:induction false} AllKeep(x: Peer, y: Peer, segs: seq<Seg>)
    requires S.Valid(x.pcb.snd) && R.Valid(x.pcb.rcv) && AllTruthful(y.pcb.rcv, y.sent, segs)
    requires SndLink(x.pcb.snd, x.sent, y.pcb.rcv)
    requires RcvLink(x.pcb.rcv, x.pcb.acks, x.taken, y.sent)
    ensures var q := ProcessAll(Pass(x.pcb, NoAck), segs).pcb;
            && SndLink(q.snd, x.sent, y.pcb.rcv)
            && RcvLink(q.rcv, q.acks, x.taken, y.sent)
            && forall sn :: R.Held(x.pcb.rcv, sn) ==> R.Held(q.rcv, sn)
  {
    if segs != [] {
      var n := |segs| - 1;
      var b := ProcessAll(Pass(x.pcb, NoAck), segs[..n]);
      assert Truthful(y.pcb.rcv, y.sent, segs[n]);
      hide S.Valid, R.Valid, ProcessSeg, SndLink, RcvLink, R.Held, Truthful;
      AllKeep(x, y, segs[..n]);
      ProcessAllProcessed(Pass(x.pcb, NoAck), segs[..n]);
      ProcessedValid(x.pcb, b.pcb);
      SegKeepsSnd(b, segs[n], x.sent, y.pcb.rcv, y.sent);
      SegKeepsRcv(b, segs[n], x.taken, y.sent, y.pcb.rcv);
    }
  }

  /** What can be read out of a mailbox is true. */
  lemma MailTruthful(y: Peer, yx: set<seq<byte>>, d: seq<byte>, conv: nat)
    requires Mail(y, yx) && d in yx && y.pcb.cfg.conv == conv
    ensures AllTruthful(y.pcb.rcv, y.sent, D.Parse(conv, d).segs)
  {
  }

  /** Buffers that agree index by index on number, fragment and bytes. */
  ghost predicate SameNumbers(xs: seq<Seg>, ys: seq<Seg>) {
    |xs| == |ys| && forall i :: 0 <= i < |xs| ==> xs[i].sn == ys[i].sn && PayloadOf(xs[i]) == PayloadOf(ys[i])
  }

  lemma SameNumbersHave(xs: seq<Seg>, ys: seq<Seg>, sn: nat)
    requires SameNumbers(xs, ys) && Has(xs, sn)
    ensures Has(ys, sn)
  {
    var x :| x in xs && x.sn == sn;
    var i :| 0 <= i < |xs| && xs[i] == x;
    assert ys[i] in ys && ys[i].sn == sn;
  }

  lemma SameNumbersCarry(xs: seq<Seg>, ys: seq<Seg>, sent: seq<Payload>)
    requires SameNumbers(xs, ys) && forall s <- xs :: Carries(sent, s)
    ensures forall s <- ys :: Carries(sent, s)
  {
    forall y | y in ys ensures Carries(sent, y) {
      var i :| 0 <= i < |ys| && ys[i] == y;
      assert Carries(sent, xs[i]);
    }
  }

  lemma SameNumbersLink(s: S.Sender, t: S.Sender, sent: seq<Payload>, rcv: R.Receiver)
    requires SndLink(s, sent, rcv) && t.nxt == s.nxt && SameNumbers(s.buf, t.buf)
    ensures SndLink(t, sent, rcv)
  {
    SameNumbersCarry(s.buf, t.buf, sent);
    hide SameNumbers, Carries, R.Held;
    forall sn | 0 <= sn < t.nxt ensures Has(t.buf, sn) || R.Held(rcv, sn) {
      if Has(s.buf, sn) {
        SameNumbersHave(s.buf, t.buf, sn);
      }
    }
  }

  lemma BumpKeeps(s: S.Sender, sn: nat, sent: seq<Payload>, rcv: R.Receiver)
    requires S.Valid(s) && SndLink(s, sent, rcv)
    ensures SndLink(S.ParseFastack(s, sn), sent, rcv)
  {
    S.FastackStep(s, sn);
    var t := S.ParseFastack(s, sn);
    assert SameNumbers(s.buf, t.buf);
    SameNumbersLink(s, t, sent, rcv);
  }

  /** After the last segment only bookkeeping moves: the links stay as processing left them. */
  lemma ConcludeKeeps(a: Pass, prevUna: nat, sent: seq<Payload>, rcv: R.Receiver)
    requires S.Valid(a.pcb.snd) && SndLink(a.pcb.snd, sent, rcv)
    ensures var q := Conclude(a, prevUna);
            SndLink(q.snd, sent, rcv) && q.rcv == a.pcb.rcv && q.acks == a.pcb.acks && q.snd.queue == a.pcb.snd.queue
  {
    if a.best != NoAck {
      BumpKeeps(a.pcb.snd, a.best.sn, sent, rcv);
    }
    hide SndLink, S.Valid;
  }

  /** An arriving datagram keeps both links, and the receiver loses nothing it held. */
  lemma InputKeepsLinks(x: Peer, y: Peer, data: seq<byte>)
    requires Valid(x.pcb) && Link(x, y) && Link(y, x)
    requires AllTruthful(y.pcb.rcv, y.sent, D.Parse(x.pcb.cfg.conv, data).segs)
    ensures var q := Input(x.pcb, data).pcb;
            && SndLink(q.snd, x.sent, y.pcb.rcv)
            && RcvLink(q.rcv, q.acks, x.taken, y.sent)
            && (forall sn :: R.Held(x.pcb.rcv, sn) ==> R.Held(q.rcv, sn))
            && q.snd.queue == x.pcb.snd.queue
  {
    if |data| >= OVERHEAD {
      var parsed := D.Parse(x.pcb.cfg.conv, data);
      var a := ProcessAll(Pass(x.pcb, NoAck), parsed.segs);
      AllKeep(x, y, parsed.segs);
      ProcessAllProcessed(Pass(x.pcb, NoAck), parsed.segs);
      ProcessedValid(x.pcb, a.pcb);
      ConcludeKeeps(a, x.pcb.snd.una, x.sent, y.pcb.rcv);
      hide S.Valid, R.Valid, ProcessAll, Conclude, SndLink, RcvLink, D.Parse, R.Held, AllTruthful;
    }
  }

  /** Held numbers keep a mailbox true and the peer's send side linked. */
  lemma HoldingMore(rcv: R.Receiver, rcv': R.Receiver, sent: seq<Payload>, s: Seg)
    requires Truthful(rcv, sent, s) && rcv'.nxt >= rcv.nxt
    requires forall sn :: R.Held(rcv, sn) ==> R.Held(rcv', sn)
    ensures Truthful(rcv', sent, s)
  {
  }

  lemma HoldingMoreLinks(snd: S.Sender, sent: seq<Payload>, rcv: R.Receiver, rcv': R.Receiver)
    requires SndLink(snd, sent, rcv)
    requires forall sn :: R.Held(rcv, sn) ==> R.Held(rcv', sn)
    ensures SndLink(snd, sent, rcv')
  {
    hide R.Held, Carries;
  }

  lemma MailStays(x: Peer, x': Peer, box: set<seq<byte>>)
    requires Mail(x, box) && x'.pcb.cfg.conv == x.pcb.cfg.conv && x'.sent == x.sent
    requires x'.pcb.rcv.nxt >= x.pcb.rcv.nxt
    requires forall sn :: R.Held(x.pcb.rcv, sn) ==> R.Held(x'.pcb.rcv, sn)
    ensures Mail(x', box)
  {
    hide R.Held, D.Parse, Truthful;
    forall d, s | d in box && s in D.Parse(x.pcb.cfg.conv, d).segs ensures Truthful(x'.pcb.rcv, x.sent, s) {
      HoldingMore(x.pcb.rcv, x'.pcb.rcv, x.sent, s);
    }
  }

  /** What one side's step must preserve, seen from that side. */
  ghost predicate StepKeeps(x: Peer, y: Peer, e: Event, conv: nat, mss: nat, xy: set<seq<byte>>) {
    var x' := Act(x, e);
    SideInv(x', conv, mss, xy + Emitted(x, e)) && Link(x', y) && Link(y, x')
  }

  lemma DeliverKeeps(x: Peer, y: Peer, d: seq<byte>, conv: nat, mss: nat, xy: set<seq<byte>>, yx: set<seq<byte>>)
    requires SideInv(x, conv, mss, xy) && SideInv(y, conv, mss, yx) && Link(x, y) && Link(y, x)
    requires d in yx
    ensures StepKeeps(x, y, DoInput(d), conv, mss, xy)
  {
    hide Valid, Input, SndLink, RcvLink, R.Held, D.Parse, AllTruthful, M.FragmentAll, Payloads, Truthful, Mail;
    MailTruthful(y, yx, d, conv);
    InputKeepsLinks(x, y, d);
    Runs.InputKeeps(x.pcb, d);
    Runs.InputFrame(x.pcb, d);
    var q := Input(x.pcb, d).pcb;
    HoldingMoreLinks(y.pcb.snd, y.sent, x.pcb.rcv, q.rcv);
    var x' := Act(x, DoInput(d));
    MailStays(x, x', xy);
    assert xy + Emitted(x, DoInput(d)) == xy;
  }

  // ----- Sending -----

  lemma ControlTruthful(x: Peer, y: Peer, s: Seg)
    requires Link(y, x)
    requires s in AckSegs(x.pcb) + ProbeSegs(x.pcb)
    ensures s.una == x.pcb.rcv.nxt && s.cmd != CMD_PUSH && (s.cmd == CMD_ACK ==> R.Held(x.pcb.rcv, s.sn))
    ensures s.conv == x.pcb.cfg.conv && KnownCmd(s.cmd) && s.data == []
  {
    if s in AckSegs(x.pcb) {
      var i :| 0 <= i < |x.pcb.acks| && AckSegs(x.pcb)[i] == s;
      assert x.pcb.acks[i] in x.pcb.acks;
    }
  }

  lemma NewNumbersCarry(x: Peer, sent': seq<Payload>)
    requires Valid(x.pcb) && |x.sent| == x.pcb.snd.nxt && (forall s <- x.pcb.snd.buf :: Carries(x.sent, s))
    requires x.pcb.updated != 0 && sent' == x.sent + Payloads(x.pcb.snd.queue[..Moving(x.pcb)])
    ensures var t := Admitted(x.pcb);
            && |sent'| == t.nxt && (forall s <- t.buf :: Carries(sent', s))
            && t.queue == x.pcb.snd.queue[Moving(x.pcb)..]
            && (forall sn: nat :: x.pcb.snd.nxt <= sn < t.nxt || Has(x.pcb.snd.buf, sn) ==> Has(t.buf, sn))
  {
    var p := x.pcb;
    var limit, st := p.snd.una + Window(p), StampOf(p);
    S.AdmitPrefix(p.snd, limit, st);
    var k, t := S.Room(p.snd, limit), Admitted(p);
    hide Window, WndLeft, S.Admit, Valid;
    forall s | s in t.buf ensures Carries(sent', s) {
      if s in p.snd.buf {
        assert Carries(x.sent, s);
      } else {
        var i := S.NumberedMember(p.snd, k, st, s);
      }
    }
    forall sn | p.snd.nxt <= sn < t.nxt ensures Has(t.buf, sn) {
      var s := S.Numbered(p.snd, k, st)[sn - p.snd.nxt];
      assert s in S.Numbered(p.snd, k, st) && s.sn == sn;
    }
    forall sn | Has(p.snd.buf, sn) ensures Has(t.buf, sn) {
      var s :| s in p.snd.buf && s.sn == sn;
      assert s in t.buf;
    }
  }

  lemma TouchAllSame(buf: seq<Seg>, c: T.Context)
    ensures SameNumbers(buf, T.TouchAll(buf, c))
  {
    forall i | 0 <= i < |buf| ensures T.TouchAll(buf, c)[i].sn == buf[i].sn && PayloadOf(T.TouchAll(buf, c)[i]) == PayloadOf(buf[i]) {
      T.TouchKeeps(buf[i], c);
    }
  }

  lemma DueIsBuffered(buf: seq<Seg>, c: T.Context, s: Seg)
    requires s in T.Due(buf, c)
    ensures s in T.TouchAll(buf, c)
  {
    T.DueMembers(buf, c);
    var x :| x in buf && T.Decide(x, c) != T.Skip && s == T.Touch(x, c);
    var i :| 0 <= i < |buf| && buf[i] == x;
    assert T.TouchAll(buf, c)[i] == s;
  }

  lemma FlushedLink(x: Peer, y: Peer)
    requires Valid(x.pcb) && Link(x, y) && x.pcb.updated != 0
    ensures var x' := Act(x, DoFlush);
            && SndLink(x'.pcb.snd, x'.sent, y.pcb.rcv) && x.sent <= x'.sent
            && Moving(x.pcb) <= |x.pcb.snd.queue| && x'.pcb.snd.queue == x.pcb.snd.queue[Moving(x.pcb)..]
            && x'.pcb.rcv == x.pcb.rcv && x'.pcb.acks == []
  {
    var x' := Act(x, DoFlush);
    NewNumbersCarry(x, x'.sent);
    var t := Admitted(x.pcb);
    assert SndLink(t, x'.sent, y.pcb.rcv) by {
      hide Admitted, Flush, Carries, Valid;
    }
    TouchAllSame(t.buf, FlushContext(x.pcb));
    SameNumbersLink(t, x'.pcb.snd, x'.sent, y.pcb.rcv);
    hide SndLink, Valid, Admitted, T.TouchAll;
  }

  lemma DueTruthful(x: Peer, y: Peer, s: Seg)
    requires Valid(x.pcb) && Link(x, y) && x.pcb.updated != 0
    requires s in DueSegs(x.pcb)
    ensures s.una == x.pcb.rcv.nxt && s.cmd == CMD_PUSH && Carries(Act(x, DoFlush).sent, s)
    ensures s.conv == x.pcb.cfg.conv && Sliced(s, x.pcb.cfg.mss)
  {
    var buf, c := Admitted(x.pcb).buf, FlushContext(x.pcb);
    DueIsBuffered(buf, c, s);
    DueUna(x.pcb, s);
    FlushedLink(x, y);
    Runs.FlushedSnd(x.pcb);
    hide Valid, Admitted, T.TouchAll, T.Due, Flushed, Carries, FlushContext, Sliced, Link;
    assert s in Flushed(x.pcb).snd.buf;
  }

  lemma DueUna(p: Pcb, s: Seg)
    requires s in DueSegs(p)
    ensures s.una == p.rcv.nxt
  {
    T.DueMembers(Admitted(p).buf, FlushContext(p));
    hide Admitted, WndLeft, T.Due;
  }

  /** Every segment of a flush may be emitted, and tells the truth. */
  lemma FlushSegTruthful(x: Peer, y: Peer, s: Seg)
    requires Valid(x.pcb) && x.pcb.cfg.conv < TWO_32 && Link(x, y) && Link(y, x) && x.pcb.updated != 0
    requires s in FlushSegs(x.pcb)
    ensures Truthful(x.pcb.rcv, Act(x, DoFlush).sent, s)
    ensures D.Sendable(x.pcb.cfg.conv, x.pcb.cfg.mtu, s)
    ensures s.cmd == CMD_PUSH ==> s.frg < M.MAX_FRAGMENTS
  {
    if s in AckSegs(x.pcb) + ProbeSegs(x.pcb) {
      ControlTruthful(x, y, s);
    } else {
      DueTruthful(x, y, s);
    }
    hide AckSegs, ProbeSegs, DueSegs, Carries, R.Held, Act, Link;
  }

  lemma OnWireTruthful(rcv: R.Receiver, sent: seq<Payload>, s: Seg)
    requires Truthful(rcv, sent, s) && KnownCmd(s.cmd) && (s.cmd == CMD_PUSH ==> s.frg < M.MAX_FRAGMENTS)
    requires s.cmd == CMD_ACK || s.cmd == CMD_PUSH ==> s.sn < TWO_32
    ensures Truthful(rcv, sent, OnWire(s))
  {
    assert s.cmd % TWO_8 == s.cmd;
    assert s.una % TWO_32 <= s.una;
  }

  /** No held number is beyond what the peer numbered. */
  lemma HeldBounded(rcv: R.Receiver, acks: seq<Ack>, taken: seq<Payload>, sent: seq<Payload>, sn: nat)
    requires RcvLink(rcv, acks, taken, sent) && R.Held(rcv, sn)
    ensures sn < |sent|
  {
  }

  lemma EmittedTruthful(x: Peer, y: Peer, d: seq<byte>, w: Seg)
    requires Valid(x.pcb) && x.pcb.cfg.conv < TWO_32 && Link(x, y) && Link(y, x) && x.pcb.updated != 0
    requires Act(x, DoFlush).pcb.snd.nxt <= TWO_32 && y.pcb.snd.nxt <= TWO_32
    ensures d in Flush(x.pcb).out && w in D.Parse(x.pcb.cfg.conv, d).segs
        ==> Truthful(x.pcb.rcv, Act(x, DoFlush).sent, w)
  {
    hide FlushSegs, D.Pack, Valid, OnWire, D.Parse, Truthful, D.Sendable;
    var p := x.pcb;
    forall s | s in FlushSegs(p) ensures D.Sendable(p.cfg.conv, p.cfg.mtu, s) {
      FlushSegTruthful(x, y, s);
    }
    D.PackedOnly(p.cfg.conv, p.cfg.mtu, FlushSegs(p), d, w);
    if d in Flush(p).out && w in D.Parse(p.cfg.conv, d).segs {
      var s :| s in FlushSegs(p) && w == OnWire(s);
      PrintedTruthful(x, y, s);
    }
  }

  lemma PrintedTruthful(x: Peer, y: Peer, s: Seg)
    requires Valid(x.pcb) && x.pcb.cfg.conv < TWO_32 && Link(x, y) && Link(y, x) && x.pcb.updated != 0
    requires Act(x, DoFlush).pcb.snd.nxt <= TWO_32 && y.pcb.snd.nxt <= TWO_32
    requires s in FlushSegs(x.pcb)
    ensures Truthful(x.pcb.rcv, Act(x, DoFlush).sent, OnWire(s))
  {
    hide FlushSegs, Flush, Valid, OnWire;
    FlushSegTruthful(x, y, s);
    FlushedLink(x, y);
    if s.cmd == CMD_ACK {
      HeldBounded(x.pcb.rcv, x.pcb.acks, x.taken, y.sent, s.sn);
    }
    OnWireTruthful(x.pcb.rcv, Act(x, DoFlush).sent, s);
  }

  lemma MovedAccepted(sent: seq<Payload>, queue: seq<Seg>, k: nat, f: seq<Payload>)
    requires k <= |queue| && sent + Payloads(queue) == f
    ensures (sent + Payloads(queue[..k])) + Payloads(queue[k..]) == f
  {
    assert Payloads(queue) == Payloads(queue[..k]) + Payloads(queue[k..]);
  }

  lemma HistoryGrows(rcv: R.Receiver, acks: seq<Ack>, taken: seq<Payload>, sent: seq<Payload>, sent': seq<Payload>)
    requires RcvLink(rcv, acks, taken, sent) && sent <= sent'
    ensures RcvLink(rcv, acks, taken, sent')
  {
    assert sent'[..rcv.nxt] == sent[..rcv.nxt];
  }

  lemma AcksForgotten(rcv: R.Receiver, acks: seq<Ack>, taken: seq<Payload>, sent: seq<Payload>)
    requires RcvLink(rcv, acks, taken, sent)
    ensures RcvLink(rcv, [], taken, sent)
  {
  }

  lemma OldMailStaysTrue(x: Peer, s: Seg, sent': seq<Payload>)
    requires Truthful(x.pcb.rcv, x.sent, s) && x.sent <= sent'
    ensures Truthful(x.pcb.rcv, sent', s)
  {
  }

  lemma IdleFlushKeeps(x: Peer, y: Peer, conv: nat, mss: nat, xy: set<seq<byte>>)
    requires SideInv(x, conv, mss, xy) && Link(x, y) && Link(y, x) && x.pcb.updated == 0
    ensures StepKeeps(x, y, DoFlush, conv, mss, xy)
  {
    hide Valid, Mail, SndLink, RcvLink, Accepted;
    assert Act(x, DoFlush).sent == x.sent + Payloads([]) == x.sent;
    assert xy + Emitted(x, DoFlush) == xy;
  }

  lemma FlushedMail(x: Peer, y: Peer, conv: nat, mss: nat, xy: set<seq<byte>>)
    requires SideInv(x, conv, mss, xy) && Link(x, y) && Link(y, x) && x.pcb.updated != 0
    requires Act(x, DoFlush).pcb.snd.nxt <= TWO_32 && y.pcb.snd.nxt <= TWO_32
    ensures Mail(Act(x, DoFlush), xy + Emitted(x, DoFlush))
  {
    hide Valid, D.Parse, Truthful, Link, SndLink, RcvLink, Payloads, Moving, Flush;
    var x' := Act(x, DoFlush);
    FlushedLink(x, y);
    Runs.FlushKeeps(x.pcb);
    forall d, s | d in xy + Emitted(x, DoFlush) && s in D.Parse(conv, d).segs
      ensures Truthful(x'.pcb.rcv, x'.sent, s)
    {
      if d in xy {
        OldMailStaysTrue(x, s, x'.sent);
      } else {
        EmittedTruthful(x, y, d, s);
      }
    }
  }

  lemma FlushStepKeeps(x: Peer, y: Peer, conv: nat, mss: nat, xy: set<seq<byte>>, yx: set<seq<byte>>)
    requires SideInv(x, conv, mss, xy) && SideInv(y, conv, mss, yx) && Link(x, y) && Link(y, x)
    requires Act(x, DoFlush).pcb.snd.nxt <= TWO_32 && y.pcb.snd.nxt <= TWO_32
    ensures StepKeeps(x, y, DoFlush, conv, mss, xy)
  {
    hide Valid, Mail, SndLink, RcvLink, M.FragmentAll, Payloads, Moving, Flush;
    if x.pcb.updated == 0 {
      IdleFlushKeeps(x, y, conv, mss, xy);
    } else {
      var x' := Act(x, DoFlush);
      Runs.FlushKeeps(x.pcb);
      FlushedLink(x, y);
      FlushedMail(x, y, conv, mss, xy);
      HistoryGrows(y.pcb.rcv, y.pcb.acks, y.taken, x.sent, x'.sent);
      AcksForgotten(x.pcb.rcv, x.pcb.acks, x.taken, y.sent);
      MovedAccepted(x.sent, x.pcb.snd.queue, Moving(x.pcb), M.FragmentAll(x.msgs, mss));
    }
  }

  lemma SendStepKeeps(x: Peer, y: Peer, buf: seq<byte>, conv: nat, mss: nat, xy: set<seq<byte>>)
    requires SideInv(x, conv, mss, xy) && Link(x, y) && Link(y, x)
    ensures StepKeeps(x, y, DoSend(buf), conv, mss, xy)
  {
    var e := DoSend(buf);
    var x', f := Act(x, e), M.Fragment(buf, mss);
    SendValid(x.pcb, buf);
    assert xy + Emitted(x, e) == xy;
    if Send(x.pcb, buf).code == 0 {
      assert x'.msgs[..|x.msgs|] == x.msgs;
      assert Payloads(WaitingAll(f)) == f;
      assert Payloads(x.pcb.snd.queue + WaitingAll(f)) == Payloads(x.pcb.snd.queue) + f;
      assert x.sent + (Payloads(x.pcb.snd.queue) + f) == (x.sent + Payloads(x.pcb.snd.queue)) + f;
    }
    hide Valid, D.Parse, Truthful, SndLink, RcvLink, M.Fragment, Payloads;
  }

  lemma TakeStepKeeps(x: Peer, y: Peer, k: nat, conv: nat, mss: nat, xy: set<seq<byte>>)
    requires SideInv(x, conv, mss, xy) && Link(x, y) && Link(y, x)
    ensures StepKeeps(x, y, DoTake(k), conv, mss, xy)
  {
    var e := DoTake(k);
    assert xy + Emitted(x, e) == xy;
    var q := x.pcb.rcv.queue;
    if k <= |q| {
      Runs.TakeValid(x.pcb, k);
      assert Payloads(q) == Payloads(q[..k]) + Payloads(q[k..]);
      assert (x.taken + Payloads(q[..k])) + Payloads(q[k..]) == x.taken + Payloads(q);
      var r' := Take(x.pcb, k).rcv;
      assert RcvLink(r', x.pcb.acks, x.taken + Payloads(q[..k]), y.sent);
      HoldingMoreLinks(y.pcb.snd, y.sent, x.pcb.rcv, r');
      MailStays(x, Act(x, e), xy);
      hide Valid, Mail, M.FragmentAll, Payloads, SndLink, RcvLink, R.Held;
    } else {
      hide Valid, D.Parse, M.FragmentAll, Payloads, SndLink, RcvLink, Truthful;
    }
  }

  lemma OtherStepKeeps(x: Peer, y: Peer, e: Event, conv: nat, mss: nat, xy: set<seq<byte>>)
    requires SideInv(x, conv, mss, xy) && Link(x, y) && Link(y, x)
    requires e.DoClock? || e.DoSettings?
    ensures StepKeeps(x, y, e, conv, mss, xy)
  {
    Runs.ApplyKeeps(x.pcb, e);
    assert xy + Emitted(x, e) == xy;
    hide Valid, D.Parse, Truthful, SndLink, RcvLink, M.FragmentAll, Payloads;
  }

  /** Whatever one side does, with whatever the network brings it, keeps its invariant and both links. */
  lemma ActKeeps(x: Peer, y: Peer, e: Event, conv: nat, mss: nat, xy: set<seq<byte>>, yx: set<seq<byte>>)
    requires SideInv(x, conv, mss, xy) && SideInv(y, conv, mss, yx) && Link(x, y) && Link(y, x)
    requires Allowed(e, yx)
    requires Act(x, e).pcb.snd.nxt <= TWO_32 && y.pcb.snd.nxt <= TWO_32
    ensures StepKeeps(x, y, e, conv, mss, xy)
  {
    match e
    case DoSend(buf) => SendStepKeeps(x, y, buf, conv, mss, xy);
    case DoInput(d) => DeliverKeeps(x, y, d, conv, mss, xy, yx);
    case DoFlush => FlushStepKeeps(x, y, conv, mss, xy, yx);
    case DoTake(k) => TakeStepKeeps(x, y, k, conv, mss, xy);
    case _ => OtherStepKeeps(x, y, e, conv, mss, xy);
  }

  lemma NextKeeps(n: Net, s: Step, conv: nat, mss: nat)
    requires Inv(n, conv, mss) && Enabled(n, s) && NoWrap(Next(n, s))
    ensures Inv(Next(n, s), conv, mss)
  {
    hide SideInv, Link, Act, Emitted;
    match s
    case AtA(e) => ActKeeps(n.a, n.b, e, conv, mss, n.ab, n.ba);
    case AtB(e) => ActKeeps(n.b, n.a, e, conv, mss, n.ba, n.ab);
    case Lose(ab, ba) =>
      LessMail(n.a, conv, mss, n.ab, ab);
      LessMail(n.b, conv, mss, n.ba, ba);
  }

  lemma LessMail(x: Peer, conv: nat, mss: nat, box: set<seq<byte>>, lost: set<seq<byte>>)
    requires SideInv(x, conv, mss, box)
    ensures SideInv(x, conv, mss, box - lost)
  {
    hide Valid, Truthful, D.Parse, Accepted;
  }

  lemma {:induction false} RunInv(conv: nat, steps: seq<Step>)
    requires conv < TWO_32 && Possible(Start(conv), steps)
    ensures Inv(RunOf(Start(conv), steps), conv, MTU_DEF - OVERHEAD)
  {
    hide Inv, Next;
    if steps == [] {
      StartInv(conv);
    } else {
      var n := |steps| - 1;
      RunInv(conv, steps[..n]);
      NextKeeps(RunOf(Start(conv), steps[..n]), steps[n], conv, MTU_DEF - OVERHEAD);
    }
  }

  /** A state of some possible run. */
  ghost predicate Reachable(conv: nat, n: Net) {
    exists steps :: Possible(Start(conv), steps) && n == RunOf(Start(conv), steps)
  }

  lemma ReachableInv(conv: nat, n: Net)
    requires conv < TWO_32 && Reachable(conv, n)
    ensures Inv(n, conv, MTU_DEF - OVERHEAD)
  {
    hide Inv, RunOf, Possible;
    var steps :| Possible(Start(conv), steps) && n == RunOf(Start(conv), steps);
    RunInv(conv, steps);
  }

  // ----- The guarantees -----

  /** Everything the receive side has delivered so far, taken or not, in order. */
  function Delivered(y: Peer): seq<Payload> {
    y.taken + Payloads(y.pcb.rcv.queue)
  }

  /** Data from `x` to `y`: delivered exactly once, in order, unchanged, and never forgotten. */
  ghost predicate Reliable(x: Peer, y: Peer) {
    // the k-th delivered fragment is what the sender gave number k, for all k below `Rcv_nxt`
    && |x.sent| == x.pcb.snd.nxt && y.pcb.rcv.nxt <= |x.sent|
    && Delivered(y) == x.sent[..y.pcb.rcv.nxt]
    // a number leaves the send buffer only when the peer has it
    && (forall sn :: 0 <= sn < x.pcb.snd.nxt && !Has(x.pcb.snd.buf, sn) ==> R.Held(y.pcb.rcv, sn))
    // what the application reads is a prefix of what the other application sent, and a message is
    // read as soon as all its fragments have been delivered
    && M.Regroup(Delivered(y)).done <= x.msgs
    && (forall k :: 0 <= k <= |x.msgs| ==>
          (k <= |M.Regroup(Delivered(y)).done| <==> M.FragmentAll(x.msgs[..k], MTU_DEF - OVERHEAD) <= Delivered(y)))
  }

  lemma LinkReliable(x: Peer, y: Peer)
    requires Link(x, y) && Accepted(x) && x.pcb.cfg.mss == MTU_DEF - OVERHEAD
    ensures Reliable(x, y)
  {
    var mss, d := x.pcb.cfg.mss, Delivered(y);
    assert d <= x.sent <= M.FragmentAll(x.msgs, mss);
    M.PrefixOfMessages(x.msgs, mss, d);
    forall k | 0 <= k <= |x.msgs|
      ensures k <= |M.Regroup(d).done| <==> M.FragmentAll(x.msgs[..k], mss) <= d
    {
      M.ReadExactlyWhenComplete(x.msgs, mss, d, k);
    }
    hide M.Regroup, M.FragmentAll, Payloads, R.Held, Carries;
  }

  /** In every state two endpoints can reach over a network that loses, duplicates and reorders
      datagrams, with any calls, clocks and settings on both sides, both directions are reliable. */
  lemma Reliability(conv: nat, n: Net)
    requires conv < TWO_32 && Reachable(conv, n)
    ensures Reliable(n.a, n.b) && Reliable(n.b, n.a)
  {
    hide Link, Reliable, Valid, Mail, Accepted;
    ReachableInv(conv, n);
    LinkReliable(n.a, n.b);
    LinkReliable(n.b, n.a);
  }
}
