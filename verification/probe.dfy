/** Zero-window probing: when to ask the peer for its window (kcp/kcp.go:293-316). */
module Probing {
  import opened Segments

  /** `Probe_wait` and `Ts_probe`. */
  datatype Prober = Prober(wait: nat, ts: nat)

  const IDLE := Prober(0, 0)

  function Backoff(wait: nat): nat {
    var base := if wait < PROBE_INIT then PROBE_INIT else wait;
    var next := base + base / 2;
    if next > PROBE_LIMIT then PROBE_LIMIT else next
  }

  /** The probe is due: the peer's window is closed, a wait is running and it has expired. */
  predicate Due(p: Prober, rmtWnd: nat, now: nat) {
    rmtWnd == 0 && p.wait != 0 && now >= p.ts
  }

  /** The timer part of one flush. */
  function Tick(p: Prober, rmtWnd: nat, now: nat): Prober {
    if rmtWnd != 0 then IDLE
    else if p.wait == 0 then Prober(PROBE_INIT, now + PROBE_INIT)
    else if now >= p.ts then Prober(Backoff(p.wait), now + Backoff(p.wait))
    else p
  }

  predicate WaitInRange(p: Prober) {
    p.wait == 0 || PROBE_INIT <= p.wait <= PROBE_LIMIT
  }

  /** The wait stays in its range, and while the window stays closed it only grows. */
  lemma TickWait(p: Prober, rmtWnd: nat, now: nat)
    requires WaitInRange(p)
    ensures WaitInRange(Tick(p, rmtWnd, now))
    ensures rmtWnd == 0 ==> Tick(p, rmtWnd, now).wait >= p.wait && Tick(p, rmtWnd, now).wait >= PROBE_INIT
    ensures rmtWnd == 0 && Due(p, rmtWnd, now) && p.wait < PROBE_LIMIT ==> Tick(p, rmtWnd, now).wait > p.wait
  {
  }

  // ----- Runs -----

  /** What the timer sees at one flush. */
  datatype Look = Look(now: nat, rmtWnd: nat)

  function Run(looks: seq<Look>): Prober {
    if looks == [] then IDLE
    else var l := looks[|looks| - 1]; Tick(Run(looks[..|looks| - 1]), l.rmtWnd, l.now)
  }

  lemma RunStep(looks: seq<Look>, l: Look)
    ensures Run(looks + [l]) == Tick(Run(looks), l.rmtWnd, l.now)
  {
    assert (looks + [l])[..|looks|] == looks;
  }

  /** The times at which a probe was requested, oldest first. */
  function Requests(looks: seq<Look>): seq<nat> {
    if looks == [] then []
    else
      var before, l := looks[..|looks| - 1], looks[|looks| - 1];
      Requests(before) + if Due(Run(before), l.rmtWnd, l.now) then [l.now] else []
  }

  lemma RequestsStep(looks: seq<Look>, l: Look)
    ensures Requests(looks + [l]) == Requests(looks) + if Due(Run(looks), l.rmtWnd, l.now) then [l.now] else []
  {
    assert (looks + [l])[..|looks|] == looks;
  }

  /** The waits that were running when those probes were requested. */
  function Waits(looks: seq<Look>): seq<nat> {
    if looks == [] then []
    else
      var before, l := looks[..|looks| - 1], looks[|looks| - 1];
      Waits(before) + if Due(Run(before), l.rmtWnd, l.now) then [Run(before).wait] else []
  }

  ghost predicate ClockMonotone(looks: seq<Look>) {
    forall i, j :: 0 <= i <= j < |looks| ==> looks[i].now <= looks[j].now
  }

  /** Each request comes at least its own wait after the previous request. */
  ghost predicate Spaced(requests: seq<nat>, waits: seq<nat>) {
    && |requests| == |waits|
    && forall i :: 0 < i < |requests| ==> requests[i] >= requests[i - 1] + waits[i] && waits[i] >= PROBE_INIT
  }

  /** In every run with a clock that does not go back, whatever the peer's window does in between,
      successive probe requests are at least the then current wait apart, hence never less than seven seconds. */
  lemma {:induction false} RequestsSpaced(looks: seq<Look>)
    requires ClockMonotone(looks)
    ensures Spaced(Requests(looks), Waits(looks)) && WaitInRange(Run(looks))
    ensures var p, rs := Run(looks), Requests(looks);
            rs != [] ==> looks != [] && rs[|rs| - 1] <= looks[|looks| - 1].now
                         && (p.wait != 0 ==> p.ts >= rs[|rs| - 1] + p.wait)
  {
    if looks != [] {
      RequestsSpaced(looks[..|looks| - 1]);
    }
  }

  function Expiries(n: nat): nat {
    if n == 0 then PROBE_INIT else Backoff(Expiries(n - 1))
  }

  /** While the window stays closed the wait is a function of the number of expiries, and it is at
      its limit of 120 seconds from the eighth on and not before. */
  lemma {:induction false} WaitAfterExpiries(looks: seq<Look>)
    requires forall l <- looks :: l.rmtWnd == 0
    requires looks != []
    ensures Run(looks).wait == Expiries(|Requests(looks)|)
    ensures Run(looks).wait == PROBE_LIMIT <==> |Requests(looks)| >= 8
  {
    var n := |looks| - 1;
    assert looks[n] in looks;
    if n > 0 {
      assert forall l <- looks[..n] :: l in looks;
      WaitAfterExpiries(looks[..n]);
    } else {
      assert looks[..n] == [];
    }
    LimitFromEight(|Requests(looks)|);
  }

  lemma {:induction false} LimitFromEight(n: nat)
    ensures Expiries(n) == PROBE_LIMIT <==> n >= 8
  {
    FirstEight();
    if n > 8 {
      LimitFromEight(n - 1);
    }
  }

  lemma FirstEight()
    ensures Expiries(0) == 7000 && Expiries(1) == 10500 && Expiries(2) == 15750 && Expiries(3) == 23625
    ensures Expiries(4) == 35437 && Expiries(5) == 53155 && Expiries(6) == 79732 && Expiries(7) == 119598
    ensures Expiries(8) == PROBE_LIMIT
  {
    assert Expiries(1) == 10500;
    assert Expiries(2) == 15750;
    assert Expiries(3) == 23625;
    assert Expiries(4) == 35437;
    assert Expiries(5) == 53155;
    assert Expiries(6) == 79732;
    assert Expiries(7) == 119598;
  }

  // ----- Exactly when a probe is asked for -----

  /** The wait before the next question, by the number of questions asked since the window closed. */
  function Wait(asked: nat): nat {
    if asked < 8 then [7000, 10500, 15750, 23625, 35437, 53155, 79732, 119598][asked] else 120000
  }

  /** The peer's window closed before the looks `closed` and stayed closed through them. */
  ghost predicate ClosedSince(before: seq<Look>, closed: seq<Look>) {
    && (before == [] || before[|before| - 1].rmtWnd != 0)
    && (forall l <- closed :: l.rmtWnd == 0)
  }

  /** Where the wait started that runs after the looks `closed`: at the last question among them, or at
      the first of them. */
  function Since(closed: seq<Look>): nat
    requires closed != []
  {
    var rs := Requests(closed);
    if rs == [] then closed[0].now else rs[|rs| - 1]
  }

  lemma ExpiriesTable(n: nat)
    ensures Expiries(n) == Wait(n) && Backoff(Wait(n)) == Wait(n + 1)
    ensures Wait(n) > 0 && Wait(0) == PROBE_INIT
  {
    FirstEight();
    LimitFromEight(n);
    LimitFromEight(n + 1);
    assert Expiries(n + 1) == Backoff(Expiries(n));
  }

  lemma NoLooks()
    ensures Run([]) == IDLE && Requests([]) == []
  {
  }

  /** With the window open no wait runs. */
  lemma OpenTimer(before: seq<Look>)
    requires before == [] || before[|before| - 1].rmtWnd != 0
    ensures Run(before) == IDLE
  {
    hide Backoff;
  }

  /** What happened before the window closed does not matter. */
  lemma {:induction false} FreshStretch(before: seq<Look>, closed: seq<Look>)
    requires ClosedSince(before, closed)
    ensures Run(before + closed) == Run(closed) && Requests(before + closed) == Requests(before) + Requests(closed)
  {
    hide Run, Requests, Tick, Due;
    if closed == [] {
      assert before + closed == before;
      assert Requests(before) + [] == Requests(before);
      OpenTimer(before);
      NoLooks();
    } else {
      var n := |closed| - 1;
      var part, l := closed[..n], closed[n];
      assert forall x <- part :: x in closed;
      FreshStretch(before, part);
      assert before + closed == (before + part) + [l] && closed == part + [l];
      RunStep(before + part, l);
      RequestsStep(before + part, l);
      RunStep(part, l);
      RequestsStep(part, l);
    }
  }

  /** The timer in a closed stretch: the wait is the one for the questions asked in it, counted from the
      last of them. */
  lemma {:induction false} ClosedTimer(closed: seq<Look>)
    requires closed != [] && forall l <- closed :: l.rmtWnd == 0
    ensures Run(closed) == Prober(Wait(|Requests(closed)|), Since(closed) + Wait(|Requests(closed)|))
  {
    hide Run, Requests, Backoff, Wait;
    var n := |closed| - 1;
    var part, l := closed[..n], closed[n];
    assert l in closed && forall x <- part :: x in closed;
    RunStep(part, l);
    RequestsStep(part, l);
    assert closed == part + [l];
    ExpiriesTable(|Requests(part)|);
    if part == [] {
      NoLooks();
    } else {
      ClosedTimer(part);
    }
  }

  /** A look asks for a probe exactly when it finds the peer's window closed, as the look before it did, and
      its time is at least the last question since the window closed, or the look that found it closed, plus
      7000 milliseconds, 10500 and so on up to 120000. No order of the clock is assumed. */
  lemma AsksExactlyWhen(before: seq<Look>, closed: seq<Look>, l: Look)
    requires ClosedSince(before, closed)
    ensures Requests(before + closed + [l]) == Requests(before + closed)
              + if l.rmtWnd == 0 && closed != [] && l.now >= Since(closed) + Wait(|Requests(closed)|) then [l.now] else []
  {
    FreshStretch(before, closed);
    RequestsStep(before + closed, l);
    ExpiriesTable(|Requests(closed)|);
    hide Run, Requests, Wait, Since;
    if closed == [] {
      NoLooks();
    } else {
      ClosedTimer(closed);
    }
  }

  /** Every history of looks ends in such a stretch, possibly an empty one. */
  lemma LastStretch(looks: seq<Look>) returns (k: nat)
    ensures k <= |looks| && ClosedSince(looks[..k], looks[k..])
  {
    k := |looks|;
    while k > 0 && looks[k - 1].rmtWnd == 0
      invariant k <= |looks| && forall l <- looks[k..] :: l.rmtWnd == 0
    {
      k := k - 1;
      assert looks[k..] == [looks[k]] + looks[k + 1..];
    }
  }
}
