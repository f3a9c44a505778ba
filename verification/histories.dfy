/** Every transmission of every segment over a whole run: counts, backoff and the dead link. */
module Histories {
  import opened Bytes
  import opened Segments
  import opened Backoffs
  import opened Endpoints
  import opened Retransmission
  import Datagrams
  import R = Receivers
  import Runs
  import S = Senders
  import Windows

  /** The transmissions of each number, oldest first. */
  type Ledger = map<nat, seq<Shot>>

  function Of(led: Ledger, sn: nat): seq<Shot> {
    if sn in led then led[sn] else []
  }

  /** Writes down what the data loop of one flush transmits. */
  function Record(led: Ledger, buf: seq<Seg>, c: Context): Ledger {
    if buf == [] then led
    else
      var n := |buf| - 1;
      var before, s := Record(led, buf[..n], c), buf[n];
      if Decide(s, c) == Skip then before else before[s.sn := Of(before, s.sn) + [ShotOf(s, c)]]
  }

  /** A run of one endpoint together with its ledger. */
  datatype Traced = Traced(pcb: Pcb, led: Ledger)

  function Step(t: Traced, e: Event): Traced {
    Traced(Apply(t.pcb, e),
           if e.DoFlush? && t.pcb.updated != 0
           then Record(t.led, Admitted(t.pcb).buf, FlushContext(t.pcb)) else t.led)
  }

  function Trace(conv: nat, es: seq<Event>): Traced {
    if es == [] then Traced(Create(conv), map[])
    else Step(Trace(conv, es[..|es| - 1]), es[|es| - 1])
  }

  /** Every recorded number was numbered and was transmitted lawfully. */
  ghost predicate LedgerInv(led: Ledger, nxt: nat) {
    forall sn <- led :: sn < nxt && led[sn] != [] && Lawful(led[sn])
  }

  ghost predicate BufferInv(buf: seq<Seg>, led: Ledger) {
    forall s <- buf :: Remembers(s, Of(led, s.sn))
  }

  ghost predicate Exhausted(led: Ledger, deadLink: nat) {
    exists sn :: sn in led && |led[sn]| >= deadLink
  }

  ghost predicate Inv(t: Traced) {
    && Valid(t.pcb) && t.pcb.cfg.deadLink == DEADLINK
    && LedgerInv(t.led, t.pcb.snd.nxt)
    && BufferInv(t.pcb.snd.buf, t.led)
    && (t.pcb.state == -1 <==> Exhausted(t.led, DEADLINK))
  }

  // ----- One flush -----

  lemma {:induction false} RecordAbsent(led: Ledger, buf: seq<Seg>, c: Context, sn: nat)
    requires forall i :: 0 <= i < |buf| ==> buf[i].sn != sn
    ensures Of(Record(led, buf, c), sn) == Of(led, sn)
  {
    if buf != [] {
      RecordAbsent(led, buf[..|buf| - 1], c, sn);
      hide ShotOf, Decide;
    }
  }

  lemma {:induction false} RecordPresent(led: Ledger, buf: seq<Seg>, c: Context, i: nat)
    requires Ascending(buf) && i < |buf|
    ensures Of(Record(led, buf, c), buf[i].sn) == Extended(Of(led, buf[i].sn), buf[i], c)
  {
    var n := |buf| - 1;
    var before := buf[..n];
    if i == n {
      RecordAbsent(led, before, c, buf[n].sn);
    } else {
      RecordPresent(led, before, c, i);
      assert before[i] == buf[i];
    }
    hide ShotOf, Decide, Ascending;
  }

  /** With a sorted buffer each number is written at most once: its own shot, if it is transmitted. */
  lemma RecordAt(led: Ledger, buf: seq<Seg>, c: Context, sn: nat)
    requires Ascending(buf)
    ensures !Has(buf, sn) ==> Of(Record(led, buf, c), sn) == Of(led, sn)
    ensures forall s :: s in buf && s.sn == sn ==> Of(Record(led, buf, c), sn) == Extended(Of(led, sn), s, c)
  {
    hide Record, Extended, Of;
    if !Has(buf, sn) {
      RecordAbsent(led, buf, c, sn);
    }
    forall s | s in buf && s.sn == sn ensures Of(Record(led, buf, c), sn) == Extended(Of(led, sn), s, c) {
      var i :| 0 <= i < |buf| && buf[i] == s;
      RecordPresent(led, buf, c, i);
    }
  }

  lemma {:induction false} RecordKeys(led: Ledger, buf: seq<Seg>, c: Context, sn: nat)
    requires sn in Record(led, buf, c)
    ensures sn in led || Has(buf, sn)
    ensures (sn in led ==> led[sn] != []) ==> Record(led, buf, c)[sn] != []
  {
    if buf != [] {
      var n := |buf| - 1;
      hide ShotOf, Decide;
      if sn in Record(led, buf[..n], c) {
        RecordKeys(led, buf[..n], c, sn);
        if Has(buf[..n], sn) {
          var s :| s in buf[..n] && s.sn == sn;
          assert s in buf;
        }
      } else {
        assert buf[n] in buf && buf[n].sn == sn;
      }
    }
  }

  lemma BufferStep(led: Ledger, buf: seq<Seg>, c: Context)
    requires Ascending(buf) && BufferInv(buf, led)
    ensures BufferInv(TouchAll(buf, c), Record(led, buf, c))
  {
    var led' := Record(led, buf, c);
    forall t | t in TouchAll(buf, c) ensures Remembers(t, Of(led', t.sn)) {
      var i :| 0 <= i < |buf| && TouchAll(buf, c)[i] == t;
      var s := buf[i];
      assert s in buf;
      TouchKeeps(s, c);
      RecordAt(led, buf, c, s.sn);
      hide Remembers, Touch, Extended, Record, Of;
      RemembersStep(s, Of(led, s.sn), c);
    }
  }

  lemma LedgerStep(led: Ledger, buf: seq<Seg>, c: Context, nxt: nat)
    requires Ascending(buf) && BufferInv(buf, led)
    requires LedgerInv(led, nxt) && forall s <- buf :: s.sn < nxt
    ensures LedgerInv(Record(led, buf, c), nxt)
  {
    var led' := Record(led, buf, c);
    forall sn | sn in led' ensures sn < nxt && led'[sn] != [] && Lawful(led'[sn]) {
      RecordKeys(led, buf, c, sn);
      RecordAt(led, buf, c, sn);
      hide Record, Lawful, Touch, Extended, Decide, ShotOf;
      if Has(buf, sn) {
        var s :| s in buf && s.sn == sn;
        RemembersStep(s, Of(led, sn), c);
        RemembersLawful(Touch(s, c), Of(led', sn));
      }
    }
  }

  lemma RemembersLawful(s: Seg, h: seq<Shot>)
    requires Remembers(s, h)
    ensures Lawful(h) && s.xmit == |h|
  {
  }

  /** A flush transmits some segment for at least the `deadLink`-th time exactly when a history got
      that long by it. */
  lemma ExhaustedStep(led: Ledger, buf: seq<Seg>, c: Context, deadLink: nat)
    requires Ascending(buf) && BufferInv(buf, led) && deadLink > 0
    ensures Exhausted(Record(led, buf, c), deadLink) <==> Exhausted(led, deadLink) || Dead(Due(buf, c), deadLink)
  {
    var led' := Record(led, buf, c);
    DueMembers(buf, c);
    hide Record, Due;
    if Exhausted(led', deadLink) {
      var sn :| sn in led' && |led'[sn]| >= deadLink;
      RecordAt(led, buf, c, sn);
      if Of(led', sn) != Of(led, sn) {
        var s :| s in buf && s.sn == sn;
        ShotCounts(led, s, c);
        assert Touch(s, c) in Due(buf, c);
      } else {
        assert sn in led;
      }
    }
    if Exhausted(led, deadLink) {
      var sn :| sn in led && |led[sn]| >= deadLink;
      RecordAt(led, buf, c, sn);
      assert |Of(led', sn)| >= deadLink;
      assert sn in led';
    }
    if Dead(Due(buf, c), deadLink) {
      var x :| x in Due(buf, c) && x.xmit >= deadLink;
      var s :| s in buf && Decide(s, c) != Skip && x == Touch(s, c);
      RecordAt(led, buf, c, s.sn);
      ShotCounts(led, s, c);
      assert s.sn in led';
    }
  }

  lemma ShotCounts(led: Ledger, s: Seg, c: Context)
    requires Remembers(s, Of(led, s.sn))
    ensures Touch(s, c).xmit == |Extended(Of(led, s.sn), s, c)|
    ensures Decide(s, c) == Skip ==> Extended(Of(led, s.sn), s, c) == Of(led, s.sn)
    ensures Decide(s, c) != Skip ==> |Extended(Of(led, s.sn), s, c)| == |Of(led, s.sn)| + 1
  {
    RemembersStep(s, Of(led, s.sn), c);
    RemembersLawful(Touch(s, c), Extended(Of(led, s.sn), s, c));
  }

  /** Segments entering the window have no history yet. */
  lemma AdmittedFresh(t: Traced)
    requires Inv(t)
    ensures BufferInv(Admitted(t.pcb).buf, t.led)
    ensures LedgerInv(t.led, Admitted(t.pcb).nxt)
  {
    var p := t.pcb;
    var limit := p.snd.una + Window(p);
    S.AdmitPrefix(p.snd, limit, StampOf(p));
    var k := S.Room(p.snd, limit);
    hide S.Admit, Window, Valid, WndLeft, Exhausted;
    forall s | s in Admitted(p).buf ensures Remembers(s, Of(t.led, s.sn)) {
      if s !in p.snd.buf {
        var i := S.NumberedMember(p.snd, k, StampOf(p), s);
        assert Of(t.led, s.sn) == [];
      }
    }
  }

  lemma FlushKeepsInv(t: Traced)
    requires Inv(t)
    ensures Inv(Step(t, DoFlush))
  {
    if t.pcb.updated != 0 {
      var p, buf, c := t.pcb, Admitted(t.pcb).buf, FlushContext(t.pcb);
      AdmittedFresh(t);
      Runs.FlushKeeps(p);
      Runs.AdmittedKeeps(p);
      AdmittedSorted(p);
      BufferStep(t.led, buf, c);
      LedgerStep(t.led, buf, c, Admitted(p).nxt);
      ExhaustedStep(t.led, buf, c, DEADLINK);
      hide Valid, S.Valid, Admitted, Record, BufferInv, LedgerInv, Exhausted, TouchAll, Due, Dead, CountKind;
    }
  }

  lemma AdmittedSorted(p: Pcb)
    requires Valid(p)
    ensures Ascending(Admitted(p).buf) && forall s <- Admitted(p).buf :: s.sn < Admitted(p).nxt
  {
    Runs.AdmittedKeeps(p);
    hide Admitted;
  }

  // ----- Everything else -----

  /** Acknowledgements remove segments and count skips; what is left remembers the same history. */
  lemma InputKeepsInv(t: Traced, data: seq<byte>)
    requires Inv(t)
    ensures Inv(Step(t, DoInput(data)))
  {
    var p, q := t.pcb, Input(t.pcb, data).pcb;
    Runs.InputKeeps(p, data);
    Runs.InputFrame(p, data);
    InputBuffer(p, data);
    hide Valid, Input, Exhausted, LedgerInv;
    forall s | s in q.snd.buf ensures Remembers(s, Of(t.led, s.sn)) {
      var x :| x in p.snd.buf && s == x.(fastack := s.fastack);
      assert Remembers(x, Of(t.led, x.sn));
    }
  }

  lemma InputBuffer(p: Pcb, data: seq<byte>)
    requires Valid(p)
    ensures forall s :: s in Input(p, data).pcb.snd.buf ==> exists x :: x in p.snd.buf && s == x.(fastack := s.fastack)
  {
    if |data| >= OVERHEAD {
      var parsed := Datagrams.Parse(p.cfg.conv, data);
      var a := ProcessAll(Pass(p, NoAck), parsed.segs);
      ProcessAllProcessed(Pass(p, NoAck), parsed.segs);
      ProcessedValid(p, a.pcb);
      var q := Input(p, data).pcb;
      if a.best != NoAck {
        S.FastackStep(a.pcb.snd, a.best.sn);
      }
      hide S.Valid, R.Valid, ProcessAll, Datagrams.Parse, S.ParseFastack;
      forall s | s in q.snd.buf ensures exists x :: x in p.snd.buf && s == x.(fastack := s.fastack) {
        if s in a.pcb.snd.buf {
          assert s in p.snd.buf && s == s.(fastack := s.fastack);
        } else {
          var i :| 0 <= i < |q.snd.buf| && q.snd.buf[i] == s;
          assert a.pcb.snd.buf[i] in p.snd.buf;
        }
      }
    }
  }

  lemma StepKeepsInv(t: Traced, e: Event)
    requires Inv(t)
    ensures Inv(Step(t, e))
  {
    match e
    case DoFlush => FlushKeepsInv(t);
    case DoInput(data) => InputKeepsInv(t, data);
    case _ =>
      Runs.ApplyKeeps(t.pcb, e);
      hide Valid, Exhausted, LedgerInv, BufferInv;
  }

  lemma {:induction false} TraceInv(conv: nat, es: seq<Event>)
    ensures Inv(Trace(conv, es))
    ensures Trace(conv, es).pcb == ApplyAll(Create(conv), es)
  {
    hide Inv, Apply;
    if es == [] {
      CreateInv(conv);
    } else {
      var n := |es| - 1;
      TraceInv(conv, es[..n]);
      StepKeepsInv(Trace(conv, es[..n]), es[n]);
    }
  }

  lemma CreateInv(conv: nat)
    ensures Inv(Traced(Create(conv), map[]))
  {
    CreateValid(conv);
    hide Valid;
  }

  /** Over every run, in every mode and with any clock, whatever the network delivers: every number is transmitted
      lawfully, every buffered segment remembers how often, with which timeout and until when; and the link is
      declared dead exactly when some segment was transmitted `DEADLINK` times. */
  lemma HistoriesOverRuns(conv: nat, es: seq<Event>)
    ensures var t := Trace(conv, es);
            && (forall sn <- t.led :: Lawful(t.led[sn]))
            && (forall s <- t.pcb.snd.buf :: Remembers(s, Of(t.led, s.sn)))
            && (t.pcb.state == -1 <==> exists sn :: sn in t.led && |t.led[sn]| >= DEADLINK)
  {
    TraceInv(conv, es);
    hide Valid, Lawful, Remembers, Trace;
  }

  // ----- With a clock that does not go back -----

  /** The transmissions of every number are in the order of the clock, and none lies ahead. */
  ghost predicate Timely(led: Ledger, clock: nat) {
    forall sn <- led :: Past(led[sn], clock)
  }

  ghost predicate Past(h: seq<Shot>, clock: nat) {
    h != [] && Ordered(h) && h[|h| - 1].time <= clock
  }

  lemma OrderedAppend(h: seq<Shot>, x: Shot)
    requires Ordered(h) && (h != [] ==> h[|h| - 1].time <= x.time)
    ensures Ordered(h + [x])
  {
  }

  lemma TimelyStep(led: Ledger, buf: seq<Seg>, c: Context)
    requires Ascending(buf) && Timely(led, c.now)
    ensures Timely(Record(led, buf, c), c.now)
  {
    var led' := Record(led, buf, c);
    forall sn | sn in led'
      ensures Past(led'[sn], c.now)
    {
      RecordKeys(led, buf, c, sn);
      RecordAt(led, buf, c, sn);
      hide Record, Ordered, Decide, Touch;
      if Has(buf, sn) {
        var s :| s in buf && s.sn == sn;
        NoShots();
        OrderedAppend(Of(led, sn), ShotOf(s, c));
      }
    }
  }

  lemma NoShots()
    ensures Ordered([])
  {
  }

  lemma {:induction false} TraceTimely(conv: nat, es: seq<Event>)
    requires Runs.Forward(conv, es)
    ensures Timely(Trace(conv, es).led, Trace(conv, es).pcb.current)
  {
    hide Timely, Apply;
    if es == [] {
      EmptyTimely();
    } else {
      var n := |es| - 1;
      var t, e := Trace(conv, es[..n]), es[n];
      TraceTimely(conv, es[..n]);
      TraceInv(conv, es[..n]);
      Runs.ReachableValid(conv, es[..n]);
      ClockStep(t.pcb, e);
      if e.DoFlush? && t.pcb.updated != 0 {
        AdmittedSorted(t.pcb);
        TimelyStep(t.led, Admitted(t.pcb).buf, FlushContext(t.pcb));
      }
      LaterTimely(t.led, t.pcb.current, Apply(t.pcb, e).current);
    }
  }

  lemma EmptyTimely()
    ensures Timely(map[], 0)
  {
  }

  lemma LaterTimely(led: Ledger, clock: nat, later: nat)
    requires Timely(led, clock) && clock <= later
    ensures Timely(led, later)
  {
  }

  lemma ClockStep(p: Pcb, e: Event)
    requires Valid(p) && (e.DoClock? ==> e.now >= p.current)
    ensures Apply(p, e).current >= p.current && (!e.DoClock? ==> Apply(p, e).current == p.current)
  {
    hide Valid, Input, Admitted, DueSegs;
    if e.DoInput? {
      Runs.InputFrame(p, e.data);
    }
  }

  /** How the timeout of a number grew and how much time went by, by the mode its timeouts were met in. */
  ghost predicate Paced(h: seq<Shot>, lo: nat, hi: nat)
    requires h != []
  {
    var first, last, k := h[0], h[|h| - 1], Losses(h);
    && (InMode(h, 0) ==>
          && Times(2, k, first.rto) <= last.rto && (Estimated(h, lo, hi) ==> last.rto <= Times(2, k, hi))
          && last.time >= first.time + Times(2, k, first.rto) - first.rto)
    && (InMode(h, 1) && first.rto > 0 ==>
          && last.rto > 0
          && Times(3, k, first.rto - 1) <= Times(2, k, last.rto - 1) && Times(2, k, last.rto) <= Times(3, k, first.rto)
          && last.time >= first.time + 2 * (last.rto - first.rto))
    && (InMode(h, 2) && Estimated(h, lo, hi) ==>
          && first.rto + k * (lo / 2) <= last.rto <= first.rto + k * (hi / 2)
          && last.time >= first.time + k * first.rto + Triangle(k) * (lo / 2))
  }

  lemma LawfulPaced(h: seq<Shot>, lo: nat, hi: nat)
    requires h != [] && Lawful(h) && Ordered(h)
    ensures Paced(h, lo, hi)
  {
    hide Lawful, Ordered, InMode, Estimated, Losses, Times, Triangle;
    if InMode(h, 0) {
      Doubles(h, hi);
      if Estimated(h, lo, hi) {
        Widened(h, lo, hi);
      }
    }
    if InMode(h, 1) && h[0].rto > 0 {
      GrowsByHalf(h);
    }
    if InMode(h, 2) && Estimated(h, lo, hi) {
      GrowsByEstimate(h, lo, hi);
    }
  }

  lemma Widened(h: seq<Shot>, lo: nat, hi: nat)
    requires Estimated(h, lo, hi)
    ensures Estimated(h, 0, hi)
  {
  }

  /** Over every run with a clock that does not go back, whatever the network delivers and whatever settings are made:
      after k timeouts of a segment its timeout has doubled k times without `nodelay`, grown k times by half with
      `nodelay` 1 and by k halves of the estimate above that, and the time these timeouts take has gone by. */
  lemma BackoffOverRuns(conv: nat, es: seq<Event>, lo: nat, hi: nat)
    requires Runs.Forward(conv, es)
    ensures var led := Trace(conv, es).led; forall sn <- led :: led[sn] != [] && Paced(led[sn], lo, hi)
  {
    TraceInv(conv, es);
    TraceTimely(conv, es);
    hide Valid, Lawful, Trace, Paced, Ordered, BufferInv, Exhausted, Runs.Forward;
    var led := Trace(conv, es).led;
    forall sn | sn in led ensures led[sn] != [] && Paced(led[sn], lo, hi) {
      LawfulPaced(led[sn], lo, hi);
    }
  }

  // ----- Ledger and emission -----

  /** What makes a segment in flight go out at a flush: no transmission so far, a deadline after the last one that has
      passed, or enough skips and not too many transmissions. */
  predicate Called(p: Pcb, s: Seg, h: seq<Shot>) {
    || h == []
    || p.current >= Deadline(h[|h| - 1])
    || (s.fastack >= Windows.SkipLimit(p) && (|h| <= p.cfg.fastLimit || p.cfg.fastLimit <= 0))
  }

  /** In every run a flush transmits exactly the numbers that enter the window and those in flight that are called
      for by their history. */
  lemma TransmitsExactly(conv: nat, es: seq<Event>, sn: nat)
    ensures var p, led := ApplyAll(Create(conv), es), Trace(conv, es).led;
            p.updated != 0 ==>
              (Has(DueSegs(p), sn) <==>
                 || p.snd.nxt <= sn < Flush(p).pcb.snd.nxt
                 || exists s :: s in p.snd.buf && s.sn == sn && Called(p, s, Of(led, sn)))
  {
    TraceInv(conv, es);
    var t := Trace(conv, es);
    hide Trace, ApplyAll, Inv;
    if t.pcb.updated != 0 {
      TransmitsWhen(t, sn);
    }
  }

  lemma TransmitsWhen(t: Traced, sn: nat)
    requires Inv(t) && t.pcb.updated != 0
    ensures var p := t.pcb;
            Has(DueSegs(p), sn) <==>
              || p.snd.nxt <= sn < Flush(p).pcb.snd.nxt
              || exists s :: s in p.snd.buf && s.sn == sn && Called(p, s, Of(t.led, sn))
  {
    var p := t.pcb;
    AdmittedFresh(t);
    DueWhen(p, t.led, Admitted(p).buf, sn);
    EnteringUnsent(t, sn);
    hide Inv, Admitted, Flush, Called, FlushContext, BufferInv, LedgerInv;
  }

  lemma DueWhen(p: Pcb, led: Ledger, buf: seq<Seg>, sn: nat)
    requires BufferInv(buf, led)
    ensures Has(Due(buf, FlushContext(p)), sn) <==> exists s :: s in buf && s.sn == sn && Called(p, s, Of(led, sn))
  {
    var c := FlushContext(p);
    DueMembers(buf, c);
    forall s | s in buf
      ensures Touch(s, c).sn == s.sn && (Decide(s, c) != Skip <==> Called(p, s, Of(led, s.sn)))
    {
      TouchKeeps(s, c);
      GoesOutWhen(s, Of(led, s.sn), c);
    }
    hide Remembers, Touch, Decide, Called, Due, WndLeft;
    if s :| s in buf && s.sn == sn && Called(p, s, Of(led, sn)) {
      assert Touch(s, c) in Due(buf, c);
    }
  }

  lemma NotYetSent(t: Traced, sn: nat)
    requires Inv(t) && sn >= t.pcb.snd.nxt
    ensures Of(t.led, sn) == [] && forall s :: Called(t.pcb, s, Of(t.led, sn))
  {
  }

  /** The buffer after the window move: what was in flight, then the numbers that enter. */
  lemma EnteringBuffer(p: Pcb) returns (more: seq<Seg>)
    requires Valid(p) && p.updated != 0
    ensures Admitted(p).buf == p.snd.buf + more && p.snd.nxt + |more| == Flush(p).pcb.snd.nxt
    ensures forall i :: 0 <= i < |more| ==> more[i].sn == p.snd.nxt + i
    ensures forall s <- p.snd.buf :: s.sn < p.snd.nxt
  {
    var limit, st := p.snd.una + Window(p), StampOf(p);
    hide Window, WndLeft, Flush, S.Admit, Sliced;
    S.AdmitPrefix(p.snd, limit, st);
    Windows.FlushMoves(p);
    more := S.Numbered(p.snd, S.Room(p.snd, limit), st);
    assert S.Valid(p.snd);
  }

  /** What enters the window has no history. */
  lemma EnteringUnsent(t: Traced, sn: nat)
    requires Inv(t) && t.pcb.updated != 0
    ensures var p := t.pcb;
            (exists s :: s in Admitted(p).buf && s.sn == sn && Called(p, s, Of(t.led, sn))) <==>
              || p.snd.nxt <= sn < Flush(p).pcb.snd.nxt
              || exists s :: s in p.snd.buf && s.sn == sn && Called(p, s, Of(t.led, sn))
  {
    var p := t.pcb;
    var more := EnteringBuffer(p);
    if sn >= p.snd.nxt {
      NotYetSent(t, sn);
    }
    hide Inv, Flush, Admitted, Called, Of;
    if p.snd.nxt <= sn < p.snd.nxt + |more| {
      assert more[sn - p.snd.nxt] in p.snd.buf + more;
    }
    assert forall s :: s in p.snd.buf + more <==> s in p.snd.buf || s in more;
  }

  /** The ledger is what was emitted: a number's history grows in a flush exactly when the flush transmits a segment of
      that number, by one shot with the time of the flush, the settings and estimate in force, and the timeout the
      segment left with; otherwise it stays. */
  lemma LedgerIsEmission(t: Traced, sn: nat)
    requires Valid(t.pcb) && t.pcb.updated != 0
    ensures var p, h, h' := t.pcb, Of(t.led, sn), Of(Step(t, DoFlush).led, sn);
            && (!Has(DueSegs(p), sn) ==> h' == h)
            && (forall x :: x in DueSegs(p) && x.sn == sn ==>
                  && |h'| == |h| + 1 && h <= h' && x.ts == p.current
                  && h'[|h|] == Shot(p.current, h'[|h|].kind, x.rto, p.rtt.rto, p.cfg.nodelay))
  {
    hide Valid, Admitted, Record, FlushContext, Due;
    AdmittedSorted(t.pcb);
    ContextOf(t.pcb);
    RecordedAsDue(t.led, Admitted(t.pcb).buf, FlushContext(t.pcb), sn);
  }

  lemma ContextOf(p: Pcb)
    ensures var c := FlushContext(p); c.now == p.current && c.rxRto == p.rtt.rto && c.nodelay == p.cfg.nodelay
  {
  }

  lemma RecordedAsDue(led: Ledger, buf: seq<Seg>, c: Context, sn: nat)
    requires Ascending(buf)
    ensures var h, h' := Of(led, sn), Of(Record(led, buf, c), sn);
            && (!Has(Due(buf, c), sn) ==> h' == h)
            && (forall x :: x in Due(buf, c) && x.sn == sn ==>
                  && |h'| == |h| + 1 && h <= h' && x.ts == c.now
                  && h'[|h|] == Shot(c.now, h'[|h|].kind, x.rto, c.rxRto, c.nodelay))
  {
    RecordAt(led, buf, c, sn);
    DueMembers(buf, c);
    hide Record, Due, Decide, Touch, Of;
    forall s ensures TouchAt(s, c) {
      TouchKeeps(s, c);
      TouchTime(s, c);
    }
    if s :| s in buf && s.sn == sn {
      assert TouchAt(s, c);
      assert Decide(s, c) == Skip || Touch(s, c) in Due(buf, c);
    }
    forall x | x in Due(buf, c) && x.sn == sn
      ensures exists s :: s in buf && s.sn == sn && Decide(s, c) != Skip && x == Touch(s, c) && x.ts == c.now
    {
      var s :| s in buf && Decide(s, c) != Skip && x == Touch(s, c);
      assert TouchAt(s, c);
    }
  }

  lemma TouchTime(s: Seg, c: Context)
    ensures Decide(s, c) != Skip ==> Touch(s, c).ts == c.now
  {
  }

  ghost predicate TouchAt(s: Seg, c: Context) {
    Touch(s, c).sn == s.sn && (Decide(s, c) != Skip ==> Touch(s, c).ts == c.now)
  }
}
