/** How the windows move: growth after acknowledgements, the reaction to losses, the window in force
    (kcp/kcp.go:198-226, 337-370, 456-482). */
module Windows {
  import opened Bytes
  import opened Compare
  import opened Congestion
  import opened Segments
  import opened Endpoints
  import D = Datagrams
  import R = Receivers
  import Runs
  import S = Senders
  import T = Retransmission

  // ----- Growth -----

  /** A datagram accepted to its end that acknowledges something new. */
  predicate Acknowledges(p: Pcb, data: seq<byte>) {
    Input(p, data).code == 0 && Input(p, data).pcb.snd.una > p.snd.una
  }

  /** The congestion window moves only with a datagram that acknowledges something new. */
  lemma OnlyAcknowledgements(p: Pcb, data: seq<byte>)
    requires Valid(p) && !Acknowledges(p, data)
    ensures Input(p, data).pcb.cong == p.cong
  {
    hide ProcessAll, D.Parse, S.Valid, R.Valid, S.ParseFastack, Tracks;
    ProcessAllProcessed(Pass(p, NoAck), D.Parse(p.cfg.conv, data).segs);
  }

  lemma InputGrows(p: Pcb, data: seq<byte>)
    requires Valid(p) && Acknowledges(p, data)
    ensures var q := Input(p, data).pcb; q.cong == Grow(p.cong, p.cfg.mss, q.rmtWnd)
  {
    hide ProcessAll, D.Parse, S.Valid, R.Valid, S.ParseFastack, Tracks, Grow;
    ProcessAllProcessed(Pass(p, NoAck), D.Parse(p.cfg.conv, data).segs);
  }

  /** A datagram that acknowledges something new: at the peer's window nothing changes; below the threshold the
      window rises by one segment and the counter by its bytes; at or above it the counter makes one step of
      avoidance and the window follows it. */
  lemma AcknowledgementGrows(p: Pcb, data: seq<byte>) returns (incr: nat)
    requires Valid(p) && Acknowledges(p, data)
    ensures var q, c, mss := Input(p, data).pcb, p.cong, p.cfg.mss;
            && (c.cwnd >= q.rmtWnd ==> q.cong == c)
            && (c.cwnd < Min(c.ssthresh, q.rmtWnd) ==> q.cong == Cong(c.cwnd + 1, c.incr + mss, c.ssthresh))
            && (c.ssthresh <= c.cwnd < q.rmtWnd ==>
                  Advanced(c.incr, mss, incr) && Followed(c, q.cong, mss, q.rmtWnd, incr))
  {
    hide S.Valid, R.Valid, Tracks, Input, Grow, Advanced, Followed;
    InputGrows(p, data);
    incr := GrowExact(p.cong, p.cfg.mss, Input(p, data).pcb.rmtWnd);
  }

  /** From a counter of `k` whole segments the step is the k-th part of a segment and a sixteenth. */
  lemma WholeSegments(k: nat, mss: nat, incr: nat)
    requires k > 0 && mss > 0
    ensures k * mss > 0 && (Advanced(k * mss, mss, incr) <==> incr == k * mss + mss / k + mss / 16)
  {
    Arithmetic.ProductBound(1, k, mss);
    GainPerWindow(k, mss);
    var base := k * mss;
    AdvanceExact(base, mss);
    var part := incr - base - mss / 16;
    if part >= 0 && part * base <= mss * mss < (part + 1) * base {
      Arithmetic.Distribute(part, 1, base);
      Arithmetic.DivisionUnique(mss * mss, base, part, mss * mss - part * base);
    }
  }

  /** The peer's window is the one in the last segment read. */
  lemma LastWindow(p: Pcb, data: seq<byte>)
    ensures var segs, q := D.Parse(p.cfg.conv, data).segs, Input(p, data).pcb;
            |data| >= OVERHEAD ==> q.rmtWnd == if segs == [] then p.rmtWnd else segs[|segs| - 1].wnd
  {
    hide D.Parse, S.ShrinkBuf, S.ParseUna, S.ParseAck, S.ParseFastack, R.ParseData, Grow;
  }

  // ----- Losses -----

  /** The window in force is the least of the limits, the congestion window being one unless switched off. */
  predicate InForce(p: Pcb, w: nat) {
    && w <= p.rmtWnd && w <= p.cfg.sndWnd && (p.cfg.nocwnd == 0 ==> w <= p.cong.cwnd)
    && (w == p.rmtWnd || w == p.cfg.sndWnd || (p.cfg.nocwnd == 0 && w == p.cong.cwnd))
  }

  /** The deadline of a segment in flight has passed. */
  predicate TimedOut(p: Pcb, s: Seg) {
    s.xmit > 0 && p.current >= s.resendTs
  }

  /** How many skips make a segment go out again. */
  function SkipLimit(p: Pcb): nat {
    if p.cfg.fastResend > 0 then p.cfg.fastResend else 0xffff_ffff
  }

  /** A segment in flight was skipped often enough and not resent too often. */
  predicate SkippedOver(p: Pcb, s: Seg) {
    && s.xmit > 0 && p.current < s.resendTs && s.fastack >= SkipLimit(p)
    && (s.xmit <= p.cfg.fastLimit || p.cfg.fastLimit <= 0)
  }

  lemma {:induction false} KindCounted(buf: seq<Seg>, c: T.Context, k: T.Kind)
    ensures T.CountKind(buf, c, k) > 0 <==> exists s :: s in buf && T.Decide(s, c) == k
  {
    if buf != [] {
      var n := |buf| - 1;
      KindCounted(buf[..n], c, k);
      assert forall s :: s in buf <==> s in buf[..n] || s == buf[n] by {
        assert buf == buf[..n] + [buf[n]];
      }
    }
  }

  ghost function OfKind(buf: seq<Seg>, c: T.Context, k: T.Kind): set<Seg> {
    set s | s in buf && T.Decide(s, c) == k
  }

  lemma OfKindStep(buf: seq<Seg>, s: Seg, c: T.Context, k: T.Kind)
    ensures OfKind(buf + [s], c, k) == OfKind(buf, c, k) + if T.Decide(s, c) == k then {s} else {}
  {
    hide T.Decide;
    assert forall x :: x in buf + [s] <==> x in buf || x == s;
  }

  lemma {:induction false} KindTotal(buf: seq<Seg>, c: T.Context, k: T.Kind)
    requires Ascending(buf)
    ensures T.CountKind(buf, c, k) == |OfKind(buf, c, k)|
  {
    if buf == [] {
      assert OfKind(buf, c, k) == {};
    } else {
      var n := |buf| - 1;
      KindTotal(buf[..n], c, k);
      assert buf == buf[..n] + [buf[n]];
      OfKindStep(buf[..n], buf[n], c, k);
      assert buf[n] !in buf[..n];
      assert buf[n] !in OfKind(buf[..n], c, k);
    }
    hide T.Decide;
  }

  /** `Xmit` of the endpoint counts the segments in flight that a flush finds past their deadline. */
  lemma TimeoutsCounted(p: Pcb)
    requires Valid(p) && p.updated != 0
    ensures Flush(p).pcb.xmit == p.xmit + |set s | s in p.snd.buf && TimedOut(p, s)|
  {
    var buf, c := Admitted(p).buf, FlushContext(p);
    var k := Runs.AdmittedBuffer(p);
    KindTotal(buf, c, T.Timeout);
    FlushXmit(p);
    hide Valid, Admitted, S.Numbered, T.CountKind, WndLeft, Flush, T.Decide, TimedOut;
    forall s ensures s in buf && T.Decide(s, c) == T.Timeout <==> s in p.snd.buf && TimedOut(p, s) {
      if s in buf {
        FoundBefore(p, s);
      }
    }
    assert OfKind(buf, c, T.Timeout) == set s | s in p.snd.buf && TimedOut(p, s);
  }

  lemma FlushXmit(p: Pcb)
    requires p.updated != 0
    ensures Flush(p).pcb.xmit == p.xmit + T.CountKind(Admitted(p).buf, FlushContext(p), T.Timeout)
  {
    hide Window, WndLeft, T.TouchAll, T.CountKind, D.Pack, FlushSegs, DueSegs, Admitted, React, Dead;
  }

  lemma FoundBefore(p: Pcb, s: Seg)
    requires Valid(p) && s in Admitted(p).buf
    ensures T.Decide(s, FlushContext(p)) == T.Timeout <==> s in p.snd.buf && TimedOut(p, s)
    ensures T.Decide(s, FlushContext(p)) == T.Fast <==> s in p.snd.buf && SkippedOver(p, s)
  {
    var k := Runs.AdmittedBuffer(p);
    hide Valid, Admitted, S.Numbered, WndLeft;
    if s !in p.snd.buf {
      var i := S.NumberedMember(p.snd, k, StampOf(p), s);
    }
  }

  /** Losses of a flush are found among the segments that were in flight before it. */
  lemma LossesBefore(p: Pcb)
    requires Valid(p)
    ensures var buf, c := Admitted(p).buf, FlushContext(p);
            && (T.CountKind(buf, c, T.Timeout) > 0 <==> exists s :: s in p.snd.buf && TimedOut(p, s))
            && (T.CountKind(buf, c, T.Fast) > 0 <==> exists s :: s in p.snd.buf && SkippedOver(p, s))
  {
    var buf, c := Admitted(p).buf, FlushContext(p);
    KindCounted(buf, c, T.Timeout);
    KindCounted(buf, c, T.Fast);
    var k := Runs.AdmittedBuffer(p);
    hide Valid, Admitted, S.Numbered, T.CountKind, T.Decide, TimedOut, SkippedOver;
    forall s | s in buf
      ensures T.Decide(s, c) == T.Timeout <==> s in p.snd.buf && TimedOut(p, s)
      ensures T.Decide(s, c) == T.Fast <==> s in p.snd.buf && SkippedOver(p, s)
    {
      FoundBefore(p, s);
    }
  }

  lemma WindowInForce(p: Pcb)
    ensures forall w: nat :: InForce(p, w) <==> w == Window(p)
  {
  }

  /** The window move fills the window in force as far as segments wait, and nothing else is in flight. */
  lemma MoveFills(p: Pcb, w: nat)
    requires Valid(p) && p.updated != 0 && InForce(p, w)
    ensures var q, before := Flush(p).pcb, p.snd.nxt - p.snd.una;
            && q.snd.una == p.snd.una
            && q.snd.nxt - q.snd.una == Max(before, Min(w, before + |p.snd.queue|))
            && q.snd.queue == p.snd.queue[q.snd.nxt - p.snd.nxt..]
  {
    hide Valid, Window, InForce, Flush, Admitted;
    WindowInForce(p);
    FlushMoves(p);
    AdmittedFills(p);
  }

  lemma FlushMoves(p: Pcb)
    requires p.updated != 0
    ensures var q, t := Flush(p).pcb, Admitted(p);
            q.snd.una == t.una && q.snd.nxt == t.nxt && q.snd.queue == t.queue
  {
    hide Window, WndLeft, T.TouchAll, T.CountKind, D.Pack, FlushSegs, DueSegs, Admitted, React, Dead;
  }

  lemma AdmittedFills(p: Pcb)
    requires Valid(p)
    ensures var t, before := Admitted(p), p.snd.nxt - p.snd.una;
            && t.una == p.snd.una && t.nxt >= p.snd.nxt
            && t.nxt - t.una == Max(before, Min(Window(p), before + |p.snd.queue|))
            && t.nxt - p.snd.nxt <= |p.snd.queue| && t.queue == p.snd.queue[t.nxt - p.snd.nxt..]
  {
    UnaBelowNext(p);
    S.AdmitPrefix(p.snd, p.snd.una + Window(p), StampOf(p));
    hide Valid, S.Admit, S.Numbered, Window, WndLeft;
  }

  lemma UnaBelowNext(p: Pcb)
    requires Valid(p)
    ensures p.snd.una <= p.snd.nxt
  {
    if p.snd.buf != [] {
      assert p.snd.buf[0] in p.snd.buf;
    }
  }

  /** What a flush does to the congestion window, read off the state `p` before it, with the window `w` in force. A
      segment in flight whose deadline has passed: the threshold becomes half of `w` and the window one segment.
      None such, but one skipped over: the threshold becomes half of what is in flight, and the window that and the
      skip limit. Otherwise nothing changes, but a closed window is opened. Half is rounded down and at least 2. */
  ghost predicate Reacted(p: Pcb, q: Pcb, w: nat) {
    var lost, fast := exists s :: s in p.snd.buf && TimedOut(p, s), exists s :: s in p.snd.buf && SkippedOver(p, s);
    && (lost ==> q.cong.cwnd == 1 && q.cong.incr == p.cfg.mss && Halved(q.cong.ssthresh, w))
    && (!lost && fast ==>
          && q.cong.cwnd == q.cong.ssthresh + SkipLimit(p) && q.cong.incr == q.cong.cwnd * p.cfg.mss
          && Halved(q.cong.ssthresh, q.snd.nxt - q.snd.una))
    && (!lost && !fast ==> q.cong == if p.cong.cwnd >= 1 then p.cong else Cong(1, p.cfg.mss, p.cong.ssthresh))
  }

  lemma FlushCong(p: Pcb)
    requires p.updated != 0
    ensures var q, t, c := Flush(p).pcb, Admitted(p), FlushContext(p);
            && q.snd.nxt == t.nxt && q.snd.una == t.una
            && q.cong == React(p.cong, p.cfg.mss, (t.nxt - t.una) % TWO_32, Window(p), SkipLimit(p),
                               T.CountKind(t.buf, c, T.Fast) > 0, T.CountKind(t.buf, c, T.Timeout) > 0)
  {
    hide Window, WndLeft, T.TouchAll, T.CountKind, D.Pack, FlushSegs, DueSegs, Admitted, React, Dead;
  }

  lemma InFlightAfter(p: Pcb)
    requires Valid(p)
    ensures var d := Admitted(p).nxt - Admitted(p).una;
            0 <= d && Admitted(p).una == p.snd.una && (d < TWO_32 ==> d % TWO_32 == d)
  {
    hide Admitted;
    Runs.AdmittedKeeps(p);
    UnaBelowNext(p);
  }

  /** What the reaction of a flush is computed from. */
  lemma ReactsTo(p: Pcb, w: nat)
    requires Valid(p) && p.updated != 0 && InForce(p, w)
    requires Flush(p).pcb.snd.nxt - p.snd.una < TWO_32
    ensures var q := Flush(p).pcb;
            var lost, fast := exists s :: s in p.snd.buf && TimedOut(p, s), exists s :: s in p.snd.buf && SkippedOver(p, s);
            && 0 <= q.snd.nxt - q.snd.una
            && q.cong == React(p.cong, p.cfg.mss, q.snd.nxt - q.snd.una, w, SkipLimit(p), fast, lost)
  {
    hide Valid, Window, InForce, T.CountKind, Admitted, FlushContext, React, TimedOut, SkippedOver, Flush, SkipLimit;
    WindowInForce(p);
    LossesBefore(p);
    FlushCong(p);
    InFlightAfter(p);
  }

  lemma FlushReacts(p: Pcb, w: nat)
    requires Valid(p) && p.updated != 0 && InForce(p, w)
    requires Flush(p).pcb.snd.nxt - p.snd.una < TWO_32
    ensures Reacted(p, Flush(p).pcb, w)
  {
    ReactsTo(p, w);
    hide Valid, InForce, Flush, React, TimedOut, SkippedOver, Halved;
    var q := Flush(p).pcb;
    var lost, fast := exists s :: s in p.snd.buf && TimedOut(p, s), exists s :: s in p.snd.buf && SkippedOver(p, s);
    ReactExact(p.cong, p.cfg.mss, q.snd.nxt - q.snd.una, w, SkipLimit(p), fast, lost);
  }

  // ----- Over runs -----

  /** In every run at most 32 segments are in flight. */
  lemma {:induction false} InFlightBound(conv: nat, es: seq<Event>)
    ensures var p := ApplyAll(Create(conv), es);
            p.cfg.sndWnd == WND_SND && 0 <= p.snd.nxt - p.snd.una <= WND_SND
  {
    hide Apply, Valid;
    if es != [] {
      var n := |es| - 1;
      var p := ApplyAll(Create(conv), es[..n]);
      InFlightBound(conv, es[..n]);
      Runs.ReachableValid(conv, es[..n]);
      StepBound(p, es[n]);
    }
  }

  lemma StepBound(p: Pcb, e: Event)
    requires Valid(p) && p.cfg.sndWnd == WND_SND && 0 <= p.snd.nxt - p.snd.una <= WND_SND
    ensures var q := Apply(p, e); q.cfg.sndWnd == WND_SND && 0 <= q.snd.nxt - q.snd.una <= WND_SND
  {
    hide Valid, Input, Flush, Window;
    Runs.ApplyKeeps(p, e);
    UnaBelowNext(Apply(p, e));
    if e.DoInput? {
      Runs.InputKeeps(p, e.data);
      Runs.InputFrame(p, e.data);
    }
    if e.DoFlush? {
      FlushBound(p);
    }
  }

  lemma FlushBound(p: Pcb)
    requires Valid(p) && p.cfg.sndWnd == WND_SND && 0 <= p.snd.nxt - p.snd.una <= WND_SND
    ensures var q := Flush(p).pcb; q.cfg.sndWnd == WND_SND && q.snd.nxt - q.snd.una <= WND_SND
  {
    hide Valid, Flush;
    Runs.FlushKeeps(p);
    WindowInForce(p);
    if p.updated != 0 {
      MoveFills(p, Window(p));
    } else {
      IdleFlush(p);
    }
  }

  lemma IdleFlush(p: Pcb)
    ensures p.updated == 0 ==> Flush(p).pcb == p
  {
  }

  /** No flush of the run finds a loss. */
  ghost predicate LossFree(p: Pcb, es: seq<Event>) {
    es == [] ||
    (var n := |es| - 1;
     var q := ApplyAll(p, es[..n]);
     LossFree(p, es[..n])
     && (es[n].DoFlush? && q.updated != 0 ==> forall s <- q.snd.buf :: !TimedOut(q, s) && !SkippedOver(q, s)))
  }

  /** The datagrams of the run that acknowledge something new. */
  function Advances(p: Pcb, es: seq<Event>): nat {
    if es == [] then 0
    else
      var n := |es| - 1;
      Advances(p, es[..n]) + if es[n].DoInput? && Acknowledges(ApplyAll(p, es[..n]), es[n].data) then 1 else 0
  }

  /** The peer's window is at least `room` whenever something new is acknowledged. */
  ghost predicate RoomFor(p: Pcb, es: seq<Event>, room: nat) {
    es == [] ||
    (var n := |es| - 1;
     var q := ApplyAll(p, es[..n]);
     RoomFor(p, es[..n], room)
     && (es[n].DoInput? && Acknowledges(q, es[n].data) ==> Input(q, es[n].data).pcb.rmtWnd >= room))
  }

  /** How far `k` acknowledgements open a window from `c` on, up to `room`: by one segment each below the threshold,
      and never less than that or the limit. */
  ghost predicate Opened(c: Cong, g: Cong, mss: nat, k: nat, room: nat) {
    var limit := Min(c.ssthresh, room);
    && g.ssthresh == c.ssthresh && g.cwnd >= Min(limit, c.cwnd + k)
    && (1 <= c.cwnd && c.cwnd + k <= limit ==> g == Cong(c.cwnd + k, c.incr + k * mss, c.ssthresh))
    && g.cwnd >= c.cwnd
  }

  lemma InputOpens(c: Cong, p: Pcb, data: seq<byte>, k: nat, room: nat)
    requires Valid(p) && Opened(c, p.cong, p.cfg.mss, k, room)
    requires Acknowledges(p, data) ==> Input(p, data).pcb.rmtWnd >= room
    ensures var q := Input(p, data).pcb;
            Opened(c, q.cong, p.cfg.mss, k + if Acknowledges(p, data) then 1 else 0, room)
  {
    if Acknowledges(p, data) {
      Runs.InputKeeps(p, data);
      var incr := AcknowledgementGrows(p, data);
      Arithmetic.Distribute(k, 1, p.cfg.mss);
      InputGrows(p, data);
      assert Input(p, data).pcb.cong.ssthresh == p.cong.ssthresh by {
        Tracking(p);
        GrowTracks(p.cong, p.cfg.mss, Input(p, data).pcb.rmtWnd);
      }
    } else {
      OnlyAcknowledgements(p, data);
    }
    hide Valid, Input, Acknowledges, Grow, Advanced, Followed, Tracks;
  }

  lemma Tracking(p: Pcb)
    requires Valid(p)
    ensures p.cfg.mss > 0 && Tracks(p.cong, p.cfg.mss)
  {
  }

  lemma FlushOpens(c: Cong, p: Pcb, k: nat, room: nat)
    requires Valid(p) && p.snd.nxt - p.snd.una <= WND_SND && p.cfg.sndWnd == WND_SND
    requires Opened(c, p.cong, p.cfg.mss, k, room)
    requires p.updated != 0 ==> forall s <- p.snd.buf :: !TimedOut(p, s) && !SkippedOver(p, s)
    ensures Opened(c, Flush(p).pcb.cong, p.cfg.mss, k, room)
  {
    hide Valid, Flush, TimedOut, SkippedOver;
    WindowInForce(p);
    UnaBelowNext(p);
    if p.updated != 0 {
      FlushBound(p);
      MoveFills(p, Window(p));
      FlushReacts(p, Window(p));
    } else {
      IdleFlush(p);
    }
  }

  lemma OtherOpens(p: Pcb, e: Event)
    requires !e.DoFlush? && !e.DoInput?
    ensures Apply(p, e).cong == p.cong
  {
  }

  /** One endpoint in the middle of a run: valid, and in flight what a run allows. */
  ghost predicate Running(p: Pcb) {
    Valid(p) && p.cfg.sndWnd == WND_SND && 0 <= p.snd.nxt - p.snd.una <= WND_SND
  }

  lemma OpensStep(c: Cong, p: Pcb, e: Event, k: nat, room: nat)
    requires Running(p) && Opened(c, p.cong, p.cfg.mss, k, room)
    requires e.DoInput? && Acknowledges(p, e.data) ==> Input(p, e.data).pcb.rmtWnd >= room
    requires e.DoFlush? && p.updated != 0 ==> forall s <- p.snd.buf :: !TimedOut(p, s) && !SkippedOver(p, s)
    ensures var q := Apply(p, e);
            && Running(q) && q.cfg.mss == p.cfg.mss
            && Opened(c, q.cong, p.cfg.mss, k + if e.DoInput? && Acknowledges(p, e.data) then 1 else 0, room)
  {
    hide Valid, Input, Flush, TimedOut, SkippedOver, Opened, Acknowledges;
    Runs.ApplyKeeps(p, e);
    StepBound(p, e);
    if e.DoInput? {
      InputOpens(c, p, e.data, k, room);
    } else if e.DoFlush? {
      FlushOpens(c, p, k, room);
    } else {
      OtherOpens(p, e);
    }
  }

  lemma {:induction false} RunOpens(p: Pcb, es: seq<Event>, room: nat)
    requires Running(p) && LossFree(p, es) && RoomFor(p, es, room)
    ensures var q := ApplyAll(p, es);
            && Running(q) && q.cfg.mss == p.cfg.mss
            && Opened(p.cong, q.cong, p.cfg.mss, Advances(p, es), room)
  {
    hide Running, Apply, Acknowledges, TimedOut, SkippedOver, Input;
    if es != [] {
      var n := |es| - 1;
      hide Opened;
      RunOpens(p, es[..n], room);
      OpensStep(p.cong, ApplyAll(p, es[..n]), es[n], Advances(p, es[..n]), room);
    }
  }

  /** From any state of any run on, over any further calls and bytes, while no flush finds a loss and the peer's
      window stays at least `room` at each acknowledgement of something new: after k of these the congestion window
      has risen by k segments or to the lesser of threshold and `room`, and has not gone beyond k segments before. */
  lemma SlowStartOverRuns(conv: nat, before: seq<Event>, es: seq<Event>, room: nat)
    ensures var p := ApplyAll(Create(conv), before);
            LossFree(p, es) && RoomFor(p, es, room) ==>
              Opened(p.cong, ApplyAll(p, es).cong, p.cfg.mss, Advances(p, es), room)
  {
    Runs.ReachableValid(conv, before);
    InFlightBound(conv, before);
    hide ApplyAll, LossFree, RoomFor, Opened, Valid;
    var p := ApplyAll(Create(conv), before);
    if LossFree(p, es) && RoomFor(p, es, room) {
      RunOpens(p, es, room);
    }
  }

  /** In every run every flush moves the threshold and the window as `Reacted` says, and fills the window in force as
      far as segments wait. */
  lemma ReactionOverRuns(conv: nat, es: seq<Event>, w: nat)
    requires ApplyAll(Create(conv), es).updated != 0 && InForce(ApplyAll(Create(conv), es), w)
    ensures var p := ApplyAll(Create(conv), es);
            var q, before := Flush(p).pcb, p.snd.nxt - p.snd.una;
            && Reacted(p, q, w)
            && q.snd.nxt - q.snd.una == Max(before, Min(w, before + |p.snd.queue|))
  {
    Runs.ReachableValid(conv, es);
    InFlightBound(conv, es);
    hide ApplyAll, Valid, Flush, InForce, Reacted;
    var p := ApplyAll(Create(conv), es);
    Runs.FlushKeeps(p);
    FlushBound(p);
    MoveFills(p, w);
    FlushReacts(p, w);
  }
}
