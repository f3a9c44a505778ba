/** Counting skipped segments for fast retransmission (`Parse_Faskack`, kcp/parse.go; the choice of
    `maxack` and `latest_ts`, kcp/kcp.go:160-171). */
module FastAcks {
  import opened Bytes
  import opened Segments
  import opened Endpoints
  import Congestion
  import D = Datagrams
  import R = Receivers
  import Runs
  import S = Senders
  import T = Retransmission

  /** The acknowledgement an input pass settles on is one that arrived, and none that arrived is both
      for a later segment and for a later transmission. */
  lemma {:induction false} ChoiceIsUnbeaten(p: Pcb, segs: seq<Seg>)
    ensures var b := ProcessAll(Pass(p, NoAck), segs).best;
            && (b == NoAck <==> forall s <- segs :: s.cmd != CMD_ACK)
            && (b != NoAck ==>
                  && (exists s :: s in segs && s.cmd == CMD_ACK && s.sn == b.sn && s.ts == b.ts)
                  && (forall s <- segs :: s.cmd == CMD_ACK ==> !(s.sn > b.sn && s.ts > b.ts)))
  {
    if segs != [] {
      var n := |segs| - 1;
      ChoiceIsUnbeaten(p, segs[..n]);
      hide Common, OnAck, OnPush;
      assert segs == segs[..n] + [segs[n]];
      assert forall s :: s in segs <==> s in segs[..n] || s == segs[n];
      var a := ProcessAll(Pass(p, NoAck), segs[..n]);
      assert ProcessAll(Pass(p, NoAck), segs) == ProcessSeg(a, segs[n]);
      if segs[n].cmd == CMD_ACK {
        assert segs[n] in segs;
      }
    }
  }

  /** One acknowledgement takes the place of another if it is for a later segment and a later transmission. */
  predicate Rises(x: Seg, y: Seg) {
    y.cmd == CMD_ACK && y.sn > x.sn && y.ts > x.ts
  }

  /** No acknowledgement among the first `hi` segments. */
  ghost predicate NoneBelow(segs: seq<Seg>, hi: nat)
    requires hi <= |segs|
  {
    forall k :: 0 <= k < hi ==> segs[k].cmd != CMD_ACK
  }

  /** No segment after position `i` and before `hi` rises above the one at `i`. */
  ghost predicate Holds(segs: seq<Seg>, i: nat, hi: nat)
    requires i < |segs| && hi <= |segs|
  {
    forall k :: i < k < hi ==> !Rises(segs[i], segs[k])
  }

  /** The positions an input pass settles on one after the other: the first acknowledgement, and from each one the
      first later one that rises above it in both number and time, until there is none. */
  ghost predicate Picks(segs: seq<Seg>, picks: seq<nat>) {
    if picks == [] then NoneBelow(segs, |segs|)
    else
      var n, last := |picks| - 1, picks[|picks| - 1];
      && last < |segs| && segs[last].cmd == CMD_ACK && Holds(segs, last, |segs|)
      && Picks(segs[..last], picks[..n])
      && (n > 0 ==> Rises(segs[picks[n - 1]], segs[last]))
  }

  function PickOf(segs: seq<Seg>, picks: seq<nat>): Best {
    if picks == [] || picks[|picks| - 1] >= |segs| then NoAck
    else Best(segs[picks[|picks| - 1]].sn, segs[picks[|picks| - 1]].ts)
  }

  lemma {:induction false} QuietTail(p: Pcb, segs: seq<Seg>, k: nat)
    requires k <= |segs|
    requires var b := ProcessAll(Pass(p, NoAck), segs[..k]).best;
             forall i :: k <= i < |segs| && segs[i].cmd == CMD_ACK ==> Better(b, segs[i].sn, segs[i].ts) == b
    ensures ProcessAll(Pass(p, NoAck), segs).best == ProcessAll(Pass(p, NoAck), segs[..k]).best
  {
    hide Common, OnAck, OnPush, Better;
    if k < |segs| {
      var n := |segs| - 1;
      assert segs[..n][..k] == segs[..k];
      QuietTail(p, segs[..n], k);
    } else {
      assert segs[..k] == segs;
    }
  }

  /** The acknowledgement an input pass settles on is the last of the picks. */
  lemma {:induction false} ChoiceIsLastPick(p: Pcb, segs: seq<Seg>, picks: seq<nat>)
    requires Picks(segs, picks)
    ensures ProcessAll(Pass(p, NoAck), segs).best == PickOf(segs, picks)
    decreases |picks|
  {
    hide ProcessSeg;
    if picks == [] {
      assert segs[..0] == [];
      QuietTail(p, segs, 0);
    } else {
      var n, last := |picks| - 1, picks[|picks| - 1];
      ChoiceIsLastPick(p, segs[..last], picks[..n]);
      Picked(p, segs, last);
      FirstOrRisen(segs, picks);
      QuietTail(p, segs, last + 1);
    }
  }

  lemma Picked(p: Pcb, segs: seq<Seg>, i: nat)
    requires i < |segs| && segs[i].cmd == CMD_ACK
    ensures ProcessAll(Pass(p, NoAck), segs[..i + 1]).best
         == Better(ProcessAll(Pass(p, NoAck), segs[..i]).best, segs[i].sn, segs[i].ts)
  {
    hide Common, OnAck, OnPush, Better;
    assert segs[..i + 1][..i] == segs[..i];
  }

  /** The last pick replaces the one before it, or is the first. */
  lemma FirstOrRisen(segs: seq<Seg>, picks: seq<nat>)
    requires picks != [] && Picks(segs, picks)
    ensures var n, last := |picks| - 1, picks[|picks| - 1];
            Better(PickOf(segs[..last], picks[..n]), segs[last].sn, segs[last].ts) == Best(segs[last].sn, segs[last].ts)
    ensures forall i :: picks[|picks| - 1] < i < |segs| && segs[i].cmd == CMD_ACK ==>
              Better(PickOf(segs, picks), segs[i].sn, segs[i].ts) == PickOf(segs, picks)
  {
  }

  /** There always are picks. */
  lemma {:induction false} PicksExist(segs: seq<Seg>)
    ensures exists picks :: Picks(segs, picks)
  {
    if segs == [] {
      assert Picks(segs, []);
    } else {
      var n := |segs| - 1;
      PicksExist(segs[..n]);
      var picks :| Picks(segs[..n], picks);
      MorePicks(segs, picks);
    }
  }

  lemma MorePicks(segs: seq<Seg>, picks: seq<nat>)
    requires segs != [] && Picks(segs[..|segs| - 1], picks)
    ensures Picks(segs, picks) || Picks(segs, picks + [|segs| - 1])
  {
    var n := |segs| - 1;
    var s := segs[n];
    if s.cmd == CMD_ACK && (picks == [] || Rises(segs[picks[|picks| - 1]], s)) {
      assert (picks + [n])[..|picks|] == picks;
      assert Holds(segs, n, |segs|);
    } else if picks != [] {
      var last := picks[|picks| - 1];
      assert segs[..n][..last] == segs[..last];
      assert Holds(segs[..n], last, n);
      forall k | last < k < |segs| ensures !Rises(segs[last], segs[k]) {
        assert k < n ==> segs[..n][k] == segs[k];
      }
      assert Holds(segs, last, |segs|);
    } else {
      assert forall k :: 0 <= k < n ==> segs[..n][k] == segs[k];
    }
  }

  /** Reading on changes the choice only to one above it in both number and time; the first choice is the first
      acknowledgement. */
  lemma {:induction false} ChoiceRises(p: Pcb, segs: seq<Seg>, k: nat)
    requires k <= |segs|
    ensures var b, b' := ProcessAll(Pass(p, NoAck), segs[..k]).best, ProcessAll(Pass(p, NoAck), segs).best;
            && (b != NoAck ==> b' == b || (b' != NoAck && b'.sn > b.sn && b'.ts > b.ts))
            && (b == NoAck && k < |segs| && segs[k].cmd == CMD_ACK ==>
                  b' != NoAck && (b' == Best(segs[k].sn, segs[k].ts) || (b'.sn > segs[k].sn && b'.ts > segs[k].ts)))
  {
    hide Common, OnAck, OnPush;
    if k == |segs| {
      assert segs[..k] == segs;
    } else {
      var n := |segs| - 1;
      assert segs[..n][..k] == segs[..k];
      ChoiceRises(p, segs[..n], k);
      if k == n && segs[k].cmd == CMD_ACK {
        Picked(p, segs, k);
        assert segs[..k + 1] == segs;
      }
    }
  }

  // ----- Counting over a run -----

  /** What moves the counters: a batch of acknowledgements settled on `sn`, or the counter of `sn`
      was set to zero. */
  datatype Mark = Batch(sn: nat) | Reset(sn: nat)

  /** Batches since the last reset of `sn` that settled on a number above it. */
  function Skips(log: seq<Mark>, sn: nat): nat {
    if log == [] then 0
    else
      var n := |log| - 1;
      match log[n]
      case Reset(m) => if m == sn then 0 else Skips(log[..n], sn)
      case Batch(m) => Skips(log[..n], sn) + if m > sn then 1 else 0
  }

  /** A flush resets the segments that enter the window and those it retransmits fast. */
  function ResetsOf(buf: seq<Seg>, c: T.Context, firstNew: nat): seq<Mark> {
    if buf == [] then []
    else
      var n := |buf| - 1;
      ResetsOf(buf[..n], c, firstNew) + if buf[n].sn >= firstNew || T.Decide(buf[n], c) == T.Fast then [Reset(buf[n].sn)] else []
  }

  /** What the segments of a datagram settle on, by the picks alone. */
  ghost function Choice(segs: seq<Seg>): Best {
    PicksExist(segs);
    var picks :| Picks(segs, picks);
    PickOf(segs, picks)
  }

  lemma ChoiceMade(p: Pcb, segs: seq<Seg>)
    ensures ProcessAll(Pass(p, NoAck), segs).best == Choice(segs)
  {
    PicksExist(segs);
    var picks :| Picks(segs, picks) && Choice(segs) == PickOf(segs, picks);
    ChoiceIsLastPick(p, segs, picks);
  }

  /** An input pass is effective when it ran to its end and what its segments settle on is still outstanding. */
  ghost function BatchOf(p: Pcb, data: seq<byte>): seq<Mark> {
    if |data| < OVERHEAD || D.Parse(p.cfg.conv, data).code != 0 then []
    else
      var segs := D.Parse(p.cfg.conv, data).segs;
      var after, b := ProcessAll(Pass(p, NoAck), segs).pcb.snd, Choice(segs);
      if b != NoAck && S.Outstanding(after, b.sn) then [Batch(b.sn)] else []
  }

  ghost function Marks(p: Pcb, e: Event): seq<Mark> {
    match e
    case DoInput(data) => BatchOf(p, data)
    case DoFlush => if p.updated == 0 then [] else ResetsOf(Admitted(p).buf, FlushContext(p), p.snd.nxt)
    case _ => []
  }

  ghost function LogOf(conv: nat, es: seq<Event>): seq<Mark> {
    if es == [] then []
    else LogOf(conv, es[..|es| - 1]) + Marks(ApplyAll(Create(conv), es[..|es| - 1]), es[|es| - 1])
  }

  ghost predicate Counted(buf: seq<Seg>, log: seq<Mark>) {
    forall s <- buf :: s.fastack == Skips(log, s.sn)
  }

  lemma SkipsAppend(log: seq<Mark>, m: Mark, sn: nat)
    ensures Skips(log + [m], sn) == (match m
                                     case Reset(k) => if k == sn then 0 else Skips(log, sn)
                                     case Batch(k) => Skips(log, sn) + if k > sn then 1 else 0)
  {
    assert (log + [m])[..|log|] == log;
  }

  lemma {:induction false} SkipsAfterResets(log: seq<Mark>, buf: seq<Seg>, c: T.Context, firstNew: nat, sn: nat)
    ensures var zeroed := exists s :: s in buf && s.sn == sn && (s.sn >= firstNew || T.Decide(s, c) == T.Fast);
            Skips(log + ResetsOf(buf, c, firstNew), sn) == if zeroed then 0 else Skips(log, sn)
  {
    if buf == [] {
      assert log + [] == log;
    } else {
      var n := |buf| - 1;
      SkipsAfterResets(log, buf[..n], c, firstNew, sn);
      assert buf == buf[..n] + [buf[n]];
      assert forall s :: s in buf <==> s in buf[..n] || s == buf[n];
      var before := ResetsOf(buf[..n], c, firstNew);
      hide T.Decide, Skips;
      if buf[n].sn >= firstNew || T.Decide(buf[n], c) == T.Fast {
        assert log + ResetsOf(buf, c, firstNew) == (log + before) + [Reset(buf[n].sn)];
        SkipsAppend(log + before, Reset(buf[n].sn), sn);
      } else {
        assert log + ResetsOf(buf, c, firstNew) == log + before;
      }
    }
  }

  lemma FlushCounts(p: Pcb, log: seq<Mark>)
    requires Valid(p) && Counted(p.snd.buf, log)
    ensures Counted(Flush(p).pcb.snd.buf, log + Marks(p, DoFlush))
  {
    if p.updated == 0 {
      assert log + [] == log;
    } else {
      var k := Runs.AdmittedBuffer(p);
      var buf, c := Admitted(p).buf, FlushContext(p);
      hide Valid, Admitted, FlushContext, T.TouchAll, T.CountKind, T.Due, ResetsOf, Skips, Counted, StampOf, D.Pack;
      TouchedCounts(p, log, buf, c, k, StampOf(p));
      assert Flush(p).pcb.snd.buf == T.TouchAll(buf, c);
      assert Marks(p, DoFlush) == ResetsOf(buf, c, p.snd.nxt);
    }
  }

  lemma TouchedCounts(p: Pcb, log: seq<Mark>, buf: seq<Seg>, c: T.Context, k: nat, st: S.Stamp)
    requires Counted(p.snd.buf, log) && (forall s <- p.snd.buf :: s.sn < p.snd.nxt)
    requires k <= |p.snd.queue| && buf == p.snd.buf + S.Numbered(p.snd, k, st) && Ascending(buf)
    ensures Counted(T.TouchAll(buf, c), log + ResetsOf(buf, c, p.snd.nxt))
  {
    forall u | u in T.TouchAll(buf, c) ensures u.fastack == Skips(log + ResetsOf(buf, c, p.snd.nxt), u.sn) {
      var i :| 0 <= i < |buf| && T.TouchAll(buf, c)[i] == u;
      assert u == T.Touch(buf[i], c);
      hide T.TouchAll, T.Touch, T.Decide, ResetsOf, Skips;
      SkipsAfterResets(log, buf, c, p.snd.nxt, buf[i].sn);
      TouchCount(p, log, buf, c, i, k, st);
    }
  }

  lemma TouchCount(p: Pcb, log: seq<Mark>, buf: seq<Seg>, c: T.Context, i: nat, k: nat, st: S.Stamp)
    requires Counted(p.snd.buf, log) && (forall s <- p.snd.buf :: s.sn < p.snd.nxt)
    requires k <= |p.snd.queue| && buf == p.snd.buf + S.Numbered(p.snd, k, st) && Ascending(buf) && i < |buf|
    ensures var s := buf[i];
            var zeroed := exists x :: x in buf && x.sn == s.sn && (x.sn >= p.snd.nxt || T.Decide(x, c) == T.Fast);
            T.Touch(s, c).sn == s.sn && T.Touch(s, c).fastack == if zeroed then 0 else Skips(log, s.sn)
  {
    var s := buf[i];
    assert s in buf;
    assert forall x :: x in buf && x.sn == s.sn ==> x == s;
    if i >= |p.snd.buf| {
      assert s == S.Numbered(p.snd, k, st)[i - |p.snd.buf|];
    } else {
      assert s in p.snd.buf;
    }
    hide Skips;
  }

  lemma InputCounts(p: Pcb, data: seq<byte>, log: seq<Mark>)
    requires Valid(p) && Counted(p.snd.buf, log)
    ensures Counted(Input(p, data).pcb.snd.buf, log + Marks(p, DoInput(data)))
  {
    assert log + [] == log;
    if |data| >= OVERHEAD {
      var parsed := D.Parse(p.cfg.conv, data);
      var a := ProcessAll(Pass(p, NoAck), parsed.segs);
      ProcessAllProcessed(Pass(p, NoAck), parsed.segs);
      ProcessedValid(p, a.pcb);
      ChoiceMade(p, parsed.segs);
      hide Valid, R.Valid, ProcessAll, D.Parse, Congestion.Grow, Choice;
      assert Counted(a.pcb.snd.buf, log);
      if parsed.code == 0 && a.best != NoAck && S.Outstanding(a.pcb.snd, a.best.sn) {
        BumpCounts(a.pcb.snd.buf, a.best.sn, log);
      }
    }
  }

  lemma BumpCounts(buf: seq<Seg>, sn: nat, log: seq<Mark>)
    requires Ascending(buf) && Counted(buf, log)
    ensures Counted(S.Bump(buf, sn), log + [Batch(sn)])
  {
    S.BumpBelow(buf, sn);
    var b := S.Bump(buf, sn);
    forall s | s in b ensures s.fastack == Skips(log + [Batch(sn)], s.sn) {
      var i :| 0 <= i < |b| && b[i] == s;
      assert buf[i] in buf;
      SkipsAppend(log, Batch(sn), s.sn);
    }
  }

  lemma OtherCounts(p: Pcb, e: Event, log: seq<Mark>)
    requires Counted(p.snd.buf, log) && !e.DoFlush? && !e.DoInput?
    ensures Counted(Apply(p, e).snd.buf, log + Marks(p, e))
  {
    assert log + [] == log;
  }

  /** In every run, with any bytes received, each buffered segment's counter is the number of
      effective batches since its last reset whose chosen number is above its own. */
  lemma {:induction false} FastackCountsSkips(conv: nat, es: seq<Event>)
    ensures Counted(ApplyAll(Create(conv), es).snd.buf, LogOf(conv, es))
  {
    hide Counted, Apply, Marks;
    if es == [] {
      CreateCounted(conv);
    } else {
      var n := |es| - 1;
      var p, log := ApplyAll(Create(conv), es[..n]), LogOf(conv, es[..n]);
      FastackCountsSkips(conv, es[..n]);
      Runs.ReachableValid(conv, es[..n]);
      OneStepCounts(p, es[n], log);
    }
  }

  lemma CreateCounted(conv: nat)
    ensures Counted(Create(conv).snd.buf, [])
  {
  }

  lemma OneStepCounts(p: Pcb, e: Event, log: seq<Mark>)
    requires Valid(p) && Counted(p.snd.buf, log)
    ensures Counted(Apply(p, e).snd.buf, log + Marks(p, e))
  {
    if e.DoFlush? {
      FlushCounts(p, log);
    } else if e.DoInput? {
      InputCounts(p, e.data, log);
    } else {
      OtherCounts(p, e, log);
    }
    hide Counted, Valid, Marks, Flush, Input;
  }
}
