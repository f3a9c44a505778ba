/** One endpoint as a value: what `Send`, `Input`, `Flush` and `SetNodelay` (kcp/kcp.go) do to it. */
module Endpoints {
  import opened Bytes
  import opened Compare
  import opened Segments
  import opened Datagrams
  import Congestion
  import M = Messages
  import P = Probing
  import R = Receivers
  import Rtt = RttEstimator
  import S = Senders
  import T = Retransmission

  /** The settings. */
  datatype Config = Config(
    conv: nat, mtu: nat, mss: nat, sndWnd: nat, deadLink: nat, interval: nat, minrto: nat,
    nodelay: nat, fastResend: int, fastLimit: int, nocwnd: int)

  /** An acknowledgement owed to the peer: one pair of `AckList`. */
  datatype Ack = Ack(sn: nat, ts: nat)

  /** `AckList` holds numbers and times alternately. */
  function AcksOf(list: seq<nat>, count: nat): (r: seq<Ack>)
    requires 2 * count <= |list|
    ensures |r| == count
  {
    seq(count, i requires 0 <= i < count => Ack(list[2 * i], list[2 * i + 1]))
  }

  /** The two bits of `Probe`. */
  datatype Ask = Ask(send: bool, tell: bool)

  /** The protocol control block, grouped by concern. */
  datatype Pcb = Pcb(
    cfg: Config, snd: S.Sender, rcv: R.Receiver, rtt: Rtt.Rtt, cong: Congestion.Cong,
    prober: P.Prober, ask: Ask, acks: seq<Ack>, rmtWnd: nat, current: nat, updated: nat,
    state: int, xmit: nat)

  /** `CreateIKCP`. */
  function Create(conv: nat): Pcb {
    Pcb(Config(conv, MTU_DEF, MTU_DEF - OVERHEAD, WND_SND, DEADLINK, INTERVAL, RTO_MIN, 0, 0, FASTACK_LIMIT, 0),
        S.Sender(0, 0, [], []), R.Receiver(0, WND_RCV, [], []), Rtt.FRESH,
        Congestion.Cong(0, 0, THRESH_INIT), P.IDLE, Ask(false, false), [], WND_RCV, 0, 0, 0, 0)
  }

  // ----- Send -----

  function Waiting(p: Payload): Seg {
    Seg(0, 0, p.frg, 0, 0, 0, 0, 0, 0, 0, 0, p.data)
  }

  function WaitingAll(ps: seq<Payload>): seq<Seg> {
    seq(|ps|, i requires 0 <= i < |ps| => Waiting(ps[i]))
  }

  datatype Outcome = Outcome(pcb: Pcb, code: int)

  function Send(p: Pcb, buf: seq<byte>): Outcome {
    if |buf| == 0 || p.cfg.mss == 0 then Outcome(p, -1)
    else if M.PieceCount(|buf|, p.cfg.mss) > M.MAX_FRAGMENTS then Outcome(p, -2)
    else Outcome(p.(snd := p.snd.(queue := p.snd.queue + WaitingAll(M.Fragment(buf, p.cfg.mss)))), 0)
  }

  // ----- Input -----

  /** The acknowledgement an input pass chose for fast retransmission: `flag`, `maxack`, `latest_ts`. */
  datatype Best = NoAck | Best(sn: nat, ts: nat)

  function Better(b: Best, sn: nat, ts: nat): Best {
    if b == NoAck || (sn > b.sn && ts > b.ts) then Best(sn, ts) else b
  }

  /** State and choice while the segments of one datagram are processed. */
  datatype Pass = Pass(pcb: Pcb, best: Best)

  /** What every segment does first: the peer's window, then its cumulative acknowledgement. */
  function Common(p: Pcb, s: Seg): Pcb {
    p.(rmtWnd := s.wnd, snd := S.ShrinkBuf(S.ParseUna(p.snd, s.una)))
  }

  function OnAck(p: Pcb, s: Seg): Pcb {
    var rtt := if p.current >= s.ts then Rtt.Update(p.rtt, p.current - s.ts, p.cfg.interval, p.cfg.minrto) else p.rtt;
    p.(rtt := rtt, snd := S.ShrinkBuf(S.ParseAck(p.snd, s.sn)))
  }

  function OnPush(p: Pcb, s: Seg): Pcb {
    if s.sn >= p.rcv.nxt + p.rcv.wnd then p
    else
      var acked := p.(acks := p.acks + [Ack(s.sn, s.ts)]);
      if s.sn >= p.rcv.nxt then acked.(rcv := R.ParseData(p.rcv, s)) else acked
  }

  function ProcessSeg(a: Pass, s: Seg): Pass {
    var p := Common(a.pcb, s);
    if s.cmd == CMD_ACK then Pass(OnAck(p, s), Better(a.best, s.sn, s.ts))
    else if s.cmd == CMD_PUSH then Pass(OnPush(p, s), a.best)
    else if s.cmd == CMD_WASK then Pass(p.(ask := p.ask.(tell := true)), a.best)
    else Pass(p, a.best)
  }

  function ProcessAll(a: Pass, segs: seq<Seg>): Pass {
    if segs == [] then a
    else ProcessSeg(ProcessAll(a, segs[..|segs| - 1]), segs[|segs| - 1])
  }

  /** After the last segment: count skipped segments, then open the congestion window. */
  function Conclude(a: Pass, prevUna: nat): Pcb {
    var p := if a.best == NoAck then a.pcb else a.pcb.(snd := S.ParseFastack(a.pcb.snd, a.best.sn));
    if p.snd.una > prevUna && p.cfg.mss > 0
    then p.(cong := Congestion.Grow(p.cong, p.cfg.mss, p.rmtWnd)) else p
  }

  function Input(p: Pcb, data: seq<byte>): Outcome {
    if |data| < OVERHEAD then Outcome(p, -1)
    else
      var parsed := Parse(p.cfg.conv, data);
      var a := ProcessAll(Pass(p, NoAck), parsed.segs);
      if parsed.code != 0 then Outcome(a.pcb, parsed.code) else Outcome(Conclude(a, p.snd.una), 0)
  }

  // ----- Flush -----

  /** Free room in the receive queue, as the unsigned difference the source computes. */
  function WndLeft(r: R.Receiver): nat {
    (r.wnd - |r.queue|) % TWO_32
  }

  /** The template of acknowledgements and probes. */
  function Control(p: Pcb, cmd: nat, a: Ack): Seg {
    Seg(p.cfg.conv, cmd, 0, WndLeft(p.rcv), a.ts, a.sn, p.rcv.nxt, 0, 0, 0, 0, [])
  }

  function AckSegs(p: Pcb): (r: seq<Seg>)
    ensures |r| == |p.acks|
  {
    seq(|p.acks|, i requires 0 <= i < |p.acks| => Control(p, CMD_ACK, p.acks[i]))
  }

  /** What a flush asks and tells: a probe that has come due, or was asked for before. */
  function Asking(p: Pcb): Ask {
    p.ask.(send := p.ask.send || P.Due(p.prober, p.rmtWnd, p.current))
  }

  /** A question and an answer, on one template. */
  function Probes(ask: Ask, t: Seg): seq<Seg> {
    (if ask.send then [t.(cmd := CMD_WASK)] else []) + (if ask.tell then [t.(cmd := CMD_WINS)] else [])
  }

  function LastAck(p: Pcb): Ack {
    if p.acks == [] then Ack(0, 0) else p.acks[|p.acks| - 1]
  }

  /** Probes reuse the template as the last acknowledgement left it. */
  function ProbeSegs(p: Pcb): seq<Seg> {
    Probes(Asking(p), Control(p, CMD_ACK, LastAck(p)))
  }

  /** The window in force: own limit, peer's window, and the congestion window unless switched off. */
  function Window(p: Pcb): nat {
    var w := Min(p.rmtWnd, p.cfg.sndWnd);
    if p.cfg.nocwnd == 0 then Min(p.cong.cwnd, w) else w
  }

  /** What segments are stamped with that enter the window now. */
  function StampOf(p: Pcb): S.Stamp {
    S.Stamp(p.cfg.conv, WndLeft(p.rcv), p.current, p.rcv.nxt, p.rtt.rto)
  }

  function Admitted(p: Pcb): S.Sender {
    S.Admit(p.snd, p.snd.una + Window(p), StampOf(p))
  }

  function Resent(p: Pcb): nat {
    if p.cfg.fastResend > 0 then p.cfg.fastResend else 0xffff_ffff
  }

  function FlushContext(p: Pcb): T.Context {
    T.Context(p.current, p.rtt.rto, p.cfg.nodelay, Resent(p), p.cfg.fastLimit, WndLeft(p.rcv), p.rcv.nxt)
  }

  function DueSegs(p: Pcb): seq<Seg> {
    T.Due(Admitted(p).buf, FlushContext(p))
  }

  /** Everything one flush transmits, in order. */
  function FlushSegs(p: Pcb): seq<Seg> {
    AckSegs(p) + ProbeSegs(p) + DueSegs(p)
  }

  predicate Dead(segs: seq<Seg>, deadLink: nat) {
    exists s :: s in segs && s.xmit >= deadLink
  }

  /** The state after a flush that was not refused. */
  function Flushed(p: Pcb): Pcb {
    var snd, c := Admitted(p), FlushContext(p);
    var inflight := (snd.nxt - snd.una) % TWO_32;
    var fast, lost := T.CountKind(snd.buf, c, T.Fast) > 0, T.CountKind(snd.buf, c, T.Timeout) > 0;
    p.(snd := snd.(buf := T.TouchAll(snd.buf, c)),
       acks := [],
       ask := Ask(false, false),
       prober := P.Tick(p.prober, p.rmtWnd, p.current),
       cong := Congestion.React(p.cong, p.cfg.mss, inflight, Window(p), Resent(p), fast, lost),
       state := if Dead(DueSegs(p), p.cfg.deadLink) then -1 else p.state,
       xmit := p.xmit + T.CountKind(snd.buf, c, T.Timeout))
  }

  datatype Emission = Emission(pcb: Pcb, out: seq<seq<byte>>)

  function Flush(p: Pcb): Emission {
    if p.updated == 0 then Emission(p, [])
    else Emission(Flushed(p), Pack(p.cfg.mtu, FlushSegs(p)))
  }

  // ----- Settings, clock, application -----

  /** The settings after `SetNodelay`, with the flush interval taken from its own argument. */
  function Adjusted(cfg: Config, nodelay: nat, interval: nat, resend: nat, nc: nat): Config {
    cfg.(nodelay := nodelay, minrto := if nodelay > 0 then RTO_NDL else RTO_MIN,
         interval := Min(Max(interval, 10), 5000), fastResend := resend, nocwnd := nc)
  }

  /** `SetNodelay`: nothing changes if an argument is negative. */
  function SetNodelay(p: Pcb, nodelay: int, interval: int, resend: int, nc: int): Outcome {
    if nodelay < 0 || interval < 0 || resend < 0 || nc < 0 then Outcome(p, -1)
    else Outcome(p.(cfg := Adjusted(p.cfg, nodelay, interval, resend, nc)), 0)
  }

  /** The environment sets the clock and starts the endpoint. */
  function Clock(p: Pcb, now: nat): Pcb {
    p.(current := now, updated := 1)
  }

  /** The application takes the first `k` received segments. */
  function Take(p: Pcb, k: nat): Pcb
    requires k <= |p.rcv.queue|
  {
    p.(rcv := p.rcv.(queue := p.rcv.queue[k..]))
  }

  // ----- The invariant of one endpoint -----

  /** A segment that came out of `Send`. */
  predicate Sliced(s: Seg, mss: nat) {
    1 <= |s.data| <= mss && s.frg < M.MAX_FRAGMENTS
  }

  ghost predicate Valid(p: Pcb) {
    && 0 < p.cfg.mss && p.cfg.mss + OVERHEAD == p.cfg.mtu < TWO_32
    && S.Valid(p.snd) && R.Valid(p.rcv)
    && Congestion.Tracks(p.cong, p.cfg.mss) && P.WaitInRange(p.prober)
    && p.cfg.fastResend >= 0
    && (forall s <- p.snd.queue :: Sliced(s, p.cfg.mss))
    && (forall s <- p.snd.buf :: Sliced(s, p.cfg.mss) && s.cmd == CMD_PUSH && s.conv == p.cfg.conv)
  }

  /** Anything an endpoint may be asked to do, with any bytes from the network. */
  datatype Event =
    | DoSend(buf: seq<byte>)
    | DoInput(data: seq<byte>)
    | DoFlush
    | DoClock(now: nat)
    | DoTake(k: nat)
    | DoSettings(nodelay: int, interval: int, resend: int, nc: int)

  function Apply(p: Pcb, e: Event): Pcb {
    match e
    case DoSend(buf) => Send(p, buf).pcb
    case DoInput(data) => Input(p, data).pcb
    case DoFlush => Flush(p).pcb
    case DoClock(now) => Clock(p, now)
    case DoTake(k) => if k <= |p.rcv.queue| then Take(p, k) else p
    case DoSettings(nodelay, interval, resend, nc) => SetNodelay(p, nodelay, interval, resend, nc).pcb
  }

  function ApplyAll(p: Pcb, es: seq<Event>): Pcb {
    if es == [] then p else Apply(ApplyAll(p, es[..|es| - 1]), es[|es| - 1])
  }

  lemma CreateValid(conv: nat)
    ensures Valid(Create(conv))
  {
  }

  lemma FragmentsSliced(buf: seq<byte>, mss: nat, s: Seg)
    requires mss > 0 && buf != [] && M.PieceCount(|buf|, mss) <= M.MAX_FRAGMENTS
    requires s in WaitingAll(M.Fragment(buf, mss))
    ensures Sliced(s, mss)
  {
    M.PiecesCover(buf, mss);
    var ps, f := M.Pieces(buf, mss), M.Fragment(buf, mss);
    var i :| 0 <= i < |f| && WaitingAll(f)[i] == s;
    assert ps[i] in ps;
  }

  lemma SendValid(p: Pcb, buf: seq<byte>)
    requires Valid(p)
    ensures Valid(Send(p, buf).pcb)
  {
    if Send(p, buf).code == 0 {
      forall s | s in WaitingAll(M.Fragment(buf, p.cfg.mss)) ensures Sliced(s, p.cfg.mss) {
        FragmentsSliced(buf, p.cfg.mss, s);
      }
    }
  }

  /** What processing may do to the send side: acknowledged segments go, nothing else changes. */
  ghost predicate Acknowledged(s: S.Sender, t: S.Sender) {
    && S.Valid(t) && t.una >= s.una && t.nxt == s.nxt && t.queue == s.queue
    && forall x :: x in t.buf ==> x in s.buf
  }

  /** What processing does to an endpoint as a whole. */
  ghost predicate Processed(p: Pcb, q: Pcb) {
    && Acknowledged(p.snd, q.snd)
    && R.Valid(q.rcv) && q.rcv.nxt >= p.rcv.nxt && q.rcv.wnd == p.rcv.wnd
    && q == p.(snd := q.snd, rcv := q.rcv, rtt := q.rtt, ask := q.ask, acks := q.acks, rmtWnd := q.rmtWnd)
  }

  lemma ProcessedRefl(p: Pcb)
    requires S.Valid(p.snd) && R.Valid(p.rcv)
    ensures Processed(p, p)
  {
  }

  lemma ProcessedTrans(p: Pcb, q: Pcb, r: Pcb)
    requires Processed(p, q) && Processed(q, r)
    ensures Processed(p, r)
  {
    hide S.Valid, R.Valid;
  }

  lemma ProcessedValid(p: Pcb, q: Pcb)
    requires Processed(p, q)
    ensures S.Valid(q.snd) && R.Valid(q.rcv)
  {
  }

  lemma CommonProcessed(p: Pcb, s: Seg)
    requires S.Valid(p.snd) && R.Valid(p.rcv)
    ensures Processed(p, Common(p, s))
  {
    S.UnaStep(p.snd, s.una);
    hide S.Valid, R.Valid, S.ShrinkBuf, S.ParseUna;
  }

  lemma OnAckProcessed(p: Pcb, s: Seg)
    requires S.Valid(p.snd) && R.Valid(p.rcv)
    ensures Processed(p, OnAck(p, s))
  {
    S.AckStep(p.snd, s.sn);
    hide S.Valid, R.Valid, S.ShrinkBuf, S.ParseAck, Rtt.Update;
  }

  lemma OnPushProcessed(p: Pcb, s: Seg)
    requires S.Valid(p.snd) && R.Valid(p.rcv)
    ensures Processed(p, OnPush(p, s))
  {
    R.ParseDataValid(p.rcv, s);
    hide S.Valid, R.Valid, R.ParseData;
  }

  lemma ProcessSegProcessed(a: Pass, s: Seg)
    requires S.Valid(a.pcb.snd) && R.Valid(a.pcb.rcv)
    ensures Processed(a.pcb, ProcessSeg(a, s).pcb)
  {
    var p := Common(a.pcb, s);
    CommonProcessed(a.pcb, s);
    ProcessedValid(a.pcb, p);
    OnAckProcessed(p, s);
    OnPushProcessed(p, s);
    var q := p.(ask := p.ask.(tell := true));
    assert Processed(p, q) by {
      hide S.Valid, R.Valid, Common;
    }
    hide Processed, OnAck, OnPush, Common;
    forall r | Processed(p, r) ensures Processed(a.pcb, r) {
      ProcessedTrans(a.pcb, p, r);
    }
  }

  lemma {:induction false} ProcessAllProcessed(a: Pass, segs: seq<Seg>)
    requires S.Valid(a.pcb.snd) && R.Valid(a.pcb.rcv)
    ensures Processed(a.pcb, ProcessAll(a, segs).pcb)
  {
    hide S.Valid, R.Valid, ProcessSeg, Processed;
    if segs == [] {
      ProcessedRefl(a.pcb);
    } else {
      var n := |segs| - 1;
      var b := ProcessAll(a, segs[..n]);
      ProcessAllProcessed(a, segs[..n]);
      ProcessedValid(a.pcb, b.pcb);
      ProcessSegProcessed(b, segs[n]);
      ProcessedTrans(a.pcb, b.pcb, ProcessAll(a, segs).pcb);
    }
  }
}
