/** The receive side: reordering buffer, receive queue and what they deliver (`Parse_Data`, kcp/parse.go). */
module Receivers {
  import opened Lists
  import opened Segments

  /** `Rcv_nxt`, `Rcv_wnd`, `Rcv_buf`, `Rcv_queue`. */
  datatype Receiver = Receiver(nxt: nat, wnd: nat, buf: seq<Seg>, queue: seq<Seg>)

  predicate InWindow(r: Receiver, sn: nat) {
    r.nxt <= sn < r.nxt + r.wnd
  }

  /** The state the protocol keeps: buffer sorted and inside the window, queue not over the window. */
  ghost predicate Valid(r: Receiver) {
    && Ascending(r.buf)
    && (forall s <- r.buf :: InWindow(r, s.sn))
    && |r.queue| <= r.wnd
  }

  /** Nothing more can move to the queue. */
  predicate Settled(r: Receiver) {
    r.buf == [] || r.buf[0].sn != r.nxt || |r.queue| >= r.wnd
  }

  predicate Duplicate(buf: seq<Seg>, sn: nat) {
    var p := Position(buf, sn);
    p < |buf| && buf[p].sn == sn
  }

  function Insert(buf: seq<Seg>, s: Seg): seq<Seg> {
    var p := Position(buf, s.sn);
    buf[..p] + [s] + buf[p..]
  }

  function TakeHead(r: Receiver): Receiver
    requires !Settled(r)
  {
    r.(nxt := r.nxt + 1, buf := r.buf[1..], queue := r.queue + [r.buf[0]])
  }

  /** Moves the head to the queue while it is the next expected number and the queue has room. */
  function Drain(r: Receiver): Receiver
    decreases |r.buf|
  {
    if Settled(r) then r else Drain(TakeHead(r))
  }

  function ParseData(r: Receiver, s: Seg): Receiver {
    if !InWindow(r, s.sn) || Duplicate(r.buf, s.sn) then r
    else Drain(r.(buf := Insert(r.buf, s)))
  }

  lemma DuplicateIffHas(buf: seq<Seg>, sn: nat)
    requires Ascending(buf)
    ensures Duplicate(buf, sn) <==> Has(buf, sn)
  {
    var p := Position(buf, sn);
    if Has(buf, sn) {
      var i :| 0 <= i < |buf| && buf[i].sn == sn;
      assert p <= i;
    }
  }

  lemma InsertSorted(buf: seq<Seg>, s: Seg)
    requires Ascending(buf) && !Has(buf, s.sn)
    ensures Ascending(Insert(buf, s))
    ensures forall x :: x in Insert(buf, s) <==> x in buf || x == s
  {
    DuplicateIffHas(buf, s.sn);
    var p := Position(buf, s.sn);
    assert buf == buf[..p] + buf[p..];
  }

  lemma TakeHeadValid(r: Receiver)
    requires Valid(r) && !Settled(r)
    ensures Valid(TakeHead(r))
  {
    var r1 := TakeHead(r);
    forall s | s in r1.buf ensures InWindow(r1, s.sn) {
      var i :| 1 <= i < |r.buf| && r.buf[i] == s;
      assert r.buf[0].sn < s.sn && s in r.buf;
    }
  }

  /** `r1` is `r` after moving the first `k` buffered segments, a run of consecutive numbers. */
  ghost predicate Moved(r: Receiver, k: nat, r1: Receiver) {
    && k <= |r.buf| && (forall i :: 0 <= i < k ==> r.buf[i].sn == r.nxt + i)
    && r1 == r.(nxt := r.nxt + k, buf := r.buf[k..], queue := r.queue + r.buf[..k])
  }

  lemma MovedStep(r: Receiver, k: nat, r1: Receiver)
    requires !Settled(r) && Moved(TakeHead(r), k, r1)
    ensures Moved(r, k + 1, r1)
  {
    var h := TakeHead(r);
    assert h.buf[k..] == r.buf[k + 1..];
    assert h.queue + h.buf[..k] == r.queue + r.buf[..k + 1];
    forall i | 0 <= i < k + 1 ensures r.buf[i].sn == r.nxt + i {
      if i > 0 {
        assert h.buf[i - 1] == r.buf[i];
      }
    }
  }

  /** Draining takes a run of consecutive numbers off the buffer and stops only when it must. */
  lemma {:induction false} DrainRun(r: Receiver) returns (k: nat)
    requires Valid(r)
    ensures Moved(r, k, Drain(r))
    ensures Valid(Drain(r)) && Settled(Drain(r))
    decreases |r.buf|
  {
    hide Valid, Moved;
    if Settled(r) {
      k := 0;
      NothingMoved(r);
    } else {
      TakeHeadValid(r);
      k := DrainRun(TakeHead(r));
      MovedStep(r, k, Drain(r));
      k := k + 1;
    }
  }

  lemma NothingMoved(r: Receiver)
    ensures Moved(r, 0, r)
  {
    assert r.buf[0..] == r.buf && r.queue + r.buf[..0] == r.queue;
  }

  lemma InsertValid(r: Receiver, s: Seg)
    requires Valid(r) && InWindow(r, s.sn) && !Duplicate(r.buf, s.sn)
    ensures Valid(r.(buf := Insert(r.buf, s)))
    ensures !Has(r.buf, s.sn) && s.sn >= r.nxt && forall x :: x in Insert(r.buf, s) <==> x in r.buf || x == s
  {
    DuplicateIffHas(r.buf, s.sn);
    InsertSorted(r.buf, s);
  }

  /** Whatever arrives, the receive side stays in shape and `Rcv_nxt` never goes back. */
  lemma ParseDataValid(r: Receiver, s: Seg)
    requires Valid(r)
    ensures Valid(ParseData(r, s)) && ParseData(r, s).nxt >= r.nxt && ParseData(r, s).wnd == r.wnd
  {
    if InWindow(r, s.sn) && !Duplicate(r.buf, s.sn) {
      InsertValid(r, s);
      var k := DrainRun(r.(buf := Insert(r.buf, s)));
    }
  }

  /** After a segment is processed nothing deliverable is left behind -- exactly when the segment
      was taken in, or nothing was left behind before. A repeated segment returns early
      (kcp/parse.go:93-95), so it does not drain what an emptied queue has made room for. */
  lemma SettledIff(r: Receiver, s: Seg)
    requires Valid(r)
    ensures Settled(ParseData(r, s))
       <==> (InWindow(r, s.sn) && !Duplicate(r.buf, s.sn)) || Settled(r)
  {
    if InWindow(r, s.sn) && !Duplicate(r.buf, s.sn) {
      InsertValid(r, s);
      var k := DrainRun(r.(buf := Insert(r.buf, s)));
    }
  }

  /** The exact effect of one segment: a run of consecutive numbers reaches the queue, and run and
      buffer together hold what was buffered plus the segment, if it was taken in. */
  lemma ParseDataEffect(r: Receiver, s: Seg) returns (run: seq<Seg>)
    requires Valid(r)
    ensures var r' := ParseData(r, s);
            && r'.queue == r.queue + run && r'.nxt == r.nxt + |run|
            && (forall i :: 0 <= i < |run| ==> run[i].sn == r.nxt + i)
            && forall x :: x in run || x in r'.buf
                      <==> x in r.buf || (x == s && InWindow(r, s.sn) && !Duplicate(r.buf, s.sn))
  {
    if InWindow(r, s.sn) && !Duplicate(r.buf, s.sn) {
      InsertValid(r, s);
      var r2 := r.(buf := Insert(r.buf, s));
      var k := DrainRun(r2);
      run := r2.buf[..k];
      hide Insert, Drain, Valid, Duplicate, InWindow;
      SplitMembers(r2.buf, k);
    } else {
      run := [];
      AppendNothing(r.queue);
    }
  }

  /** The receiver has the number: delivered or buffered. */
  ghost predicate Held(r: Receiver, sn: nat) {
    sn < r.nxt || Has(r.buf, sn)
  }

  /** What the receiver has it keeps, and what it takes in it has. */
  lemma HeldGrows(r: Receiver, s: Seg)
    requires Valid(r)
    ensures forall sn :: Held(r, sn) ==> Held(ParseData(r, s), sn)
    ensures s.sn < r.nxt + r.wnd ==> Held(ParseData(r, s), s.sn)
  {
    var r' := ParseData(r, s);
    var run := ParseDataEffect(r, s);
    DuplicateIffHas(r.buf, s.sn);
    hide ParseData, Valid, Duplicate;
    forall x | x in r.buf || (x == s && r.nxt <= s.sn < r.nxt + r.wnd && !Has(r.buf, s.sn)) ensures Held(r', x.sn) {
      if x in run {
        var i :| 0 <= i < |run| && run[i] == x;
      }
    }
  }

  // ----- Reordering and duplication -----

  function AcceptAll(r: Receiver, xs: seq<Seg>): Receiver {
    if xs == [] then r else ParseData(AcceptAll(r, xs[..|xs| - 1]), xs[|xs| - 1])
  }

  /** Copies of one number are copies of one segment. */
  ghost predicate Consistent(xs: seq<Seg>) {
    forall x, y :: x in xs && y in xs && x.sn == y.sn ==> x == y
  }

  /** A segment the receiver owns after `xs` arrived: buffered before, or new in `xs`. */
  ghost predicate Known(r: Receiver, xs: seq<Seg>, x: Seg) {
    x in r.buf || (x in xs && !Has(r.buf, x.sn))
  }

  /** What the arrivals must lead to, said without any order: the queue grows by the longest run of
      known segments from `Rcv_nxt` on that it has room for, and the buffer is the rest, sorted. */
  ghost predicate Outcome(r: Receiver, xs: seq<Seg>, r': Receiver) {
    && r'.wnd == r.wnd && r.queue <= r'.queue
    && Valid(r') && Settled(r')
    && (var run := r'.queue[|r.queue|..];
        && r'.nxt == r.nxt + |run|
        && (forall i :: 0 <= i < |run| ==> run[i].sn == r.nxt + i)
        && (forall x :: Known(r, xs, x) <==> x in run || x in r'.buf))
  }

  lemma OutcomeStart(r: Receiver)
    requires Valid(r) && Settled(r)
    ensures Outcome(r, [], r)
  {
    assert r.queue[|r.queue|..] == [];
  }

  lemma OldSegment(r: Receiver, xs: seq<Seg>, r1: Receiver, s: Seg)
    requires Valid(r) && Outcome(r, xs, r1) && Consistent(xs + [s])
    requires InWindow(r, s.sn) && (!InWindow(r1, s.sn) || Duplicate(r1.buf, s.sn))
    ensures Outcome(r, xs + [s], r1)
  {
    var run := r1.queue[|r.queue|..];
    var twin: Seg;
    if s.sn < r1.nxt {
      twin := run[s.sn - r.nxt];
    } else {
      twin := r1.buf[Position(r1.buf, s.sn)];
    }
    assert twin.sn == s.sn && Known(r, xs, twin);
    assert forall x :: x in xs + [s] <==> x in xs || x == s;
    assert Has(r.buf, s.sn) || twin == s;
    forall x ensures Known(r, xs + [s], x) <==> Known(r, xs, x) {
    }
  }

  /** A number the receiver neither has nor passed was not known before. */
  lemma NewNumber(r: Receiver, xs: seq<Seg>, r1: Receiver, sn: nat)
    requires Outcome(r, xs, r1) && sn >= r1.nxt && !Has(r1.buf, sn)
    ensures !Has(r.buf, sn)
  {
    var run := r1.queue[|r.queue|..];
    forall x | x in r.buf ensures x.sn != sn {
      assert Known(r, xs, x);
      if x in run {
        var i :| 0 <= i < |run| && run[i] == x;
        assert x.sn == r.nxt + i;
      }
    }
  }

  lemma NewSegment(r: Receiver, xs: seq<Seg>, r1: Receiver, s: Seg)
    requires Valid(r) && Outcome(r, xs, r1)
    requires InWindow(r1, s.sn) && !Duplicate(r1.buf, s.sn)
    ensures Outcome(r, xs + [s], ParseData(r1, s))
  {
    hide ParseData, Valid, Duplicate, InWindow, Settled, Known, Has, Insert;
    var r' := ParseData(r1, s);
    InsertValid(r1, s);
    NewNumber(r, xs, r1, s.sn);
    ParseDataValid(r1, s);
    SettledIff(r1, s);
    var more := ParseDataEffect(r1, s);
    var run := r1.queue[|r.queue|..];
    assert r'.queue[|r.queue|..] == run + more;
    assert forall x :: x in run + more <==> x in run || x in more;
    KnownGrows(r, xs, s);
  }

  lemma KnownGrows(r: Receiver, xs: seq<Seg>, s: Seg)
    requires !Has(r.buf, s.sn)
    ensures forall x :: Known(r, xs + [s], x) <==> Known(r, xs, x) || x == s
  {
    assert forall x :: x in xs + [s] <==> x in xs || x == s;
  }

  lemma {:induction false} AcceptAllOutcome(r: Receiver, xs: seq<Seg>)
    requires Valid(r) && Settled(r) && Consistent(xs)
    requires forall x <- xs :: InWindow(r, x.sn)
    ensures Outcome(r, xs, AcceptAll(r, xs))
  {
    if xs == [] {
      OutcomeStart(r);
    } else {
      var n := |xs| - 1;
      var before, s := xs[..n], xs[n];
      AcceptAllOutcome(r, before);
      var r1 := AcceptAll(r, before);
      assert before + [s] == xs;
      if !InWindow(r1, s.sn) || Duplicate(r1.buf, s.sn) {
        OldSegment(r, before, r1, s);
      } else {
        NewSegment(r, before, r1, s);
      }
    }
  }

  lemma KnownUnique(r: Receiver, xs: seq<Seg>, x: Seg, y: Seg)
    requires Valid(r) && Consistent(xs)
    requires Known(r, xs, x) && Known(r, xs, y) && x.sn == y.sn
    ensures x == y
  {
    if x in r.buf && y in r.buf {
      var i :| 0 <= i < |r.buf| && r.buf[i] == x;
      var j :| 0 <= j < |r.buf| && r.buf[j] == y;
      assert i == j;
    }
  }

  /** A known segment that is next in line is missing from the queue only for lack of room. */
  lemma NextIsQueued(r: Receiver, xs: seq<Seg>, r1: Receiver, x: Seg)
    requires Outcome(r, xs, r1) && Known(r, xs, x) && x.sn == r1.nxt
    ensures |r1.queue| >= r1.wnd
  {
    var run := r1.queue[|r.queue|..];
    assert x in run || x in r1.buf;
    assert forall i :: 0 <= i < |run| ==> run[i].sn < r1.nxt;
    var i :| 0 <= i < |r1.buf| && r1.buf[i] == x;
    assert r1.buf[0] in r1.buf;
    assert InWindow(r1, r1.buf[0].sn);
  }

  lemma RunNotLonger(r: Receiver, xs: seq<Seg>, r1: Receiver, r2: Receiver)
    requires Valid(r) && Consistent(xs) && Outcome(r, xs, r1) && Outcome(r, xs, r2)
    ensures |r2.queue| <= |r1.queue|
  {
    assert |r2.queue| <= r1.wnd;
    var run1, run2 := r1.queue[|r.queue|..], r2.queue[|r.queue|..];
    if |run1| < |run2| {
      var x := run2[|run1|];
      assert x in run2 && x.sn == r1.nxt;
      hide Settled, Valid;
      NextIsQueued(r, xs, r1, x);
    }
  }

  /** The outcome is one state. */
  lemma OutcomeUnique(r: Receiver, xs: seq<Seg>, r1: Receiver, r2: Receiver)
    requires Valid(r) && Consistent(xs) && Outcome(r, xs, r1) && Outcome(r, xs, r2)
    ensures r1 == r2
  {
    RunNotLonger(r, xs, r1, r2);
    RunNotLonger(r, xs, r2, r1);
    var run1, run2 := r1.queue[|r.queue|..], r2.queue[|r.queue|..];
    forall i | 0 <= i < |run1| ensures run1[i] == run2[i] {
      assert run1[i] in run1 && run2[i] in run2;
      KnownUnique(r, xs, run1[i], run2[i]);
    }
    assert r1.queue == r.queue + run1 && r2.queue == r.queue + run2;
    assert run1 == run2;
    assert forall s :: s in r1.buf || s in r2.buf ==> r1.nxt <= s.sn && Known(r, xs, s);
    assert forall s :: s in run1 ==> s.sn < r1.nxt;
    AscendingUnique(r1.buf, r2.buf);
  }

  /** Reordering is confluent: two arrival orders of the same segments, with any repetitions, end in
      the same queue, buffer and `Rcv_nxt`, and that end is the one `Outcome` describes. */
  lemma Confluent(r: Receiver, xs: seq<Seg>, ys: seq<Seg>)
    requires Valid(r) && Settled(r) && Consistent(xs)
    requires forall x <- xs :: InWindow(r, x.sn)
    requires forall s :: s in xs <==> s in ys
    ensures AcceptAll(r, xs) == AcceptAll(r, ys) && Outcome(r, xs, AcceptAll(r, xs))
  {
    AcceptAllOutcome(r, xs);
    AcceptAllOutcome(r, ys);
    forall x ensures Known(r, xs, x) <==> Known(r, ys, x) {
    }
    OutcomeUnique(r, xs, AcceptAll(r, xs), AcceptAll(r, ys));
  }
}
