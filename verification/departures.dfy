/** The places where the Go port does not do what its comments say. The rest of this project models
    the intended form; here and in `WrittenCuts`, `WrittenDeletions` and `WrittenHeaders` each written form is
    modelled as it stands, with an exact statement of when it does what is intended. `CopiedRuns`, `AckListRuns`
    and `LaggingRuns` follow three of them over whole runs, and `Scenarios` shows each at a state that an
    endpoint reaches. */
module Departures {
  import opened Bytes
  import opened Compare
  import opened Lists
  import opened Segments
  import opened Endpoints
  import D = Datagrams
  import Rtt = RttEstimator
  import S = Senders
  import T = Retransmission

  /** What a Go statement sequence leaves: a value, or a run-time panic. */
  datatype Go<+X> = Done(value: X) | Panic

  // ----- kcp/kcp.go:104-112: the remaining length is never refreshed -----

  /** The loop of a datagram of at least 24 bytes: its exit test never becomes true. */
  function WrittenParse(conv: nat, data: seq<byte>): Go<int>
    decreases |data|
  {
    if |data| < 4 then Panic
    else if FromU32(data[..4]) != conv then Done(-1)
    else if |data| < OVERHEAD then Panic
    else
      var len, body := LenField(data), data[OVERHEAD..];
      if |body| < len then Done(-2)
      else if !KnownCmd(data[4] as nat) then Done(-3)
      else WrittenParse(conv, body[len..])
  }

  /** The written loop ends with the intended code exactly when that code is an error: a well-formed
      datagram is never accepted. */
  lemma {:induction false} WrittenParseNeverAccepts(conv: nat, data: seq<byte>)
    ensures WrittenParse(conv, data) == Done(D.Parse(conv, data).code) <==> D.Parse(conv, data).code != 0
    ensures WrittenParse(conv, data) != Done(0)
    decreases |data|
  {
    if |data| >= OVERHEAD {
      var len, body := LenField(data), data[OVERHEAD..];
      if |body| >= len {
        WrittenParseNeverAccepts(conv, body[len..]);
      }
      hide LenField, FromU32, FromU16;
    }
  }

  // ----- kcp/kcp.go:179-181: all remaining bytes are stored -----

  /** The data the written form stores for the first segment of a datagram. */
  function WrittenData(d: seq<byte>): seq<byte>
    requires |d| >= OVERHEAD
  {
    if LenField(d) > 0 then d[OVERHEAD..] else []
  }

  /** It is the data that was sent exactly for the last segment of its datagram, or an empty one. */
  lemma WrittenDataIffLast(s: Seg, tail: seq<byte>)
    requires |s.data| < TWO_32
    ensures WrittenData(Wire(s) + tail) == s.data <==> tail == [] || s.data == []
  {
    D.WireHead(s, tail);
    hide Wire, LenField, FromHeader;
    var d := Wire(s) + tail;
    assert d[OVERHEAD..] == s.data + tail by {
      SplitMembers(d[OVERHEAD..], |s.data|);
    }
    AppendNothing(s.data);
  }

  // ----- kcp/kcp.go:319-334: the probe bits are compared for equality -----

  function WrittenProbes(probe: nat, t: Seg): seq<Seg> {
    if probe == 1 || probe == 2 then
      if probe == 1 then [t.(cmd := CMD_WASK)] else [t.(cmd := CMD_WINS)]
    else []
  }

  function Bits(ask: Ask): nat {
    (if ask.send then 1 else 0) + (if ask.tell then 2 else 0)
  }

  /** The written test sends what is asked for unless both bits are set; then it sends neither. */
  lemma WrittenProbesIffNotBoth(ask: Ask, t: Seg)
    ensures WrittenProbes(Bits(ask), t) == Probes(ask, t) <==> !(ask.send && ask.tell)
    ensures ask.send && ask.tell ==> WrittenProbes(Bits(ask), t) == []
  {
    if ask.send && ask.tell {
      assert |Probes(ask, t)| == 2;
    }
  }

  // ----- kcp/kcp.go:388 and kcp/parse.go:116: loops over copies -----

  /** The data loop as written: `segment` is a copy, so what is transmitted is updated and what is
      buffered is not. */
  method CopiedDataLoop(sndBuf: seq<Seg>, c: T.Context) returns (after: seq<Seg>, sent: seq<Seg>)
    ensures after == sndBuf && sent == T.Due(sndBuf, c)
  {
    after, sent := sndBuf, [];
    for i := 0 to |after|
      invariant after == sndBuf && sent == T.Due(sndBuf[..i], c)
    {
      var segment := after[i];
      var kind := T.Decide(segment, c);
      segment := T.Touch(segment, c);
      if kind != T.Skip {
        sent := sent + [segment];
      }
      assert sndBuf[..i + 1][..i] == sndBuf[..i];
    }
    assert sndBuf[..|sndBuf|] == sndBuf;
  }

  /** Transmitted before, not timed out, and not skipped often enough or retransmitted too often. */
  predicate Resting(s: Seg, c: T.Context) {
    s.xmit > 0 && c.now < s.resendTs && (s.fastack < c.resent || (0 < c.fastLimit < s.xmit))
  }

  /** Leaving the buffer as it was is right exactly when every buffered segment rests. */
  lemma CopiedDataLoopIff(buf: seq<Seg>, c: T.Context)
    ensures buf == T.TouchAll(buf, c) <==> forall s <- buf :: Resting(s, c)
  {
    forall s ensures T.Touch(s, c) == s <==> Resting(s, c) {
      TouchChanges(s, c);
    }
    hide T.Touch, Resting;
    if buf == T.TouchAll(buf, c) {
      forall s | s in buf ensures Resting(s, c) {
        var i :| 0 <= i < |buf| && buf[i] == s;
        assert T.TouchAll(buf, c)[i] == T.Touch(s, c);
      }
    } else {
      var i :| 0 <= i < |buf| && buf[i] != T.TouchAll(buf, c)[i];
      assert buf[i] in buf;
    }
  }

  lemma TouchChanges(s: Seg, c: T.Context)
    ensures T.Touch(s, c) == s <==> Resting(s, c)
  {
    assert T.Decide(s, c) != T.Skip ==> T.Touch(s, c).xmit == s.xmit + 1;
  }

  /** The written skip count leaves the buffer as it was. That is right exactly when the acknowledged
      number is not above the first buffered one. */
  lemma CopiedFastackIffNothingSkipped(buf: seq<Seg>, sn: nat)
    requires Ascending(buf)
    ensures buf == S.Bump(buf, sn) <==> buf == [] || sn <= buf[0].sn
  {
    S.BumpBelow(buf, sn);
    var b := S.Bump(buf, sn);
    hide S.Bump;
    if buf != [] && sn > buf[0].sn {
      assert b[0] != buf[0];
    } else {
      assert forall i :: 0 <= i < |buf| ==> b[i] == buf[i];
    }
  }

  // ----- kcp/kcp.go:523: the interval is taken from `nodelay` -----

  function Clamped(v: int): int {
    Min(Max(v, 10), 5000)
  }

  /** The written interval is the requested one exactly when both arguments are at or below the lower
      limit, both at or above the upper one, or equal. */
  lemma WrittenIntervalIff(nodelay: int, interval: int)
    ensures Clamped(nodelay) == Clamped(interval)
       <==> (nodelay <= 10 && interval <= 10) || (nodelay >= 5000 && interval >= 5000) || nodelay == interval
  {
  }

  // ----- kcp/parse.go:21-27: `Snd_una` is read from the wrong field -----

  /** The first unacknowledged number as written: the `una` the head was stamped with. */
  function WrittenFirst(s: S.Sender): nat {
    if s.buf == [] then s.nxt else s.buf[0].una
  }

  // ----- kcp/parse.go:36-40: the variation -----

  function WrittenUpdate(r: Rtt.Rtt, rtt: nat, interval: nat, minrto: nat): Rtt.Rtt {
    var delta := if rtt < r.srtt then 0 else rtt - r.srtt;
    var rttval := if r.srtt == 0 then rtt / 2 else (3 * r.srtt + delta) / 4;
    var srtt := if r.srtt == 0 then rtt else Max((7 * r.srtt + rtt) / 8, 1);
    Rtt.Rtt(srtt, rttval, Min(Max(minrto, srtt + Max(interval, 4 * rttval)), RTO_MAX))
  }

  function WrittenSteady(r: Rtt.Rtt, c: nat, n: nat, interval: nat, minrto: nat): Rtt.Rtt {
    if n == 0 then r else WrittenUpdate(WrittenSteady(r, c, n - 1, interval, minrto), c, interval, minrto)
  }

  /** Where the mean comes to rest under a constant sample `c`, written or intended. */
  function Rest(srtt: nat, c: nat): nat {
    if srtt > c then c else if srtt + 7 < c then c - 7 else srtt
  }

  lemma WrittenSteadyStep(r: Rtt.Rtt, c: nat, interval: nat, minrto: nat)
    requires r.srtt >= 1 && c >= 1
    ensures var t := WrittenUpdate(r, c, interval, minrto);
            && t.srtt >= 1 && Rest(t.srtt, c) == Rest(r.srtt, c)
            && (r.srtt == Rest(r.srtt, c) ==> t.srtt == r.srtt && t.rttval == (2 * r.srtt + c) / 4)
            && (r.srtt != Rest(r.srtt, c) ==> Rtt.Distance(t.srtt, Rest(r.srtt, c)) < Rtt.Distance(r.srtt, Rest(r.srtt, c)))
  {
  }

  /** Under a constant round-trip time `c` the written form brings every state with a mean to rest: the
      mean where the intended form would, the variation at a value made of mean and sample instead of at
      the rounding error. */
  lemma {:induction false} WrittenSteadyRests(r: Rtt.Rtt, c: nat, n: nat, interval: nat, minrto: nat)
    requires r.srtt >= 1 && c >= 1
    ensures var t, rest := WrittenSteady(r, c, n, interval, minrto), Rest(r.srtt, c);
            && t.srtt >= 1 && Rest(t.srtt, c) == rest
            && (t.srtt == rest || Rtt.Distance(t.srtt, rest) + n <= Rtt.Distance(r.srtt, rest))
            && (n > Rtt.Distance(r.srtt, rest) ==> t.srtt == rest && t.rttval == (2 * rest + c) / 4)
  {
    hide WrittenUpdate, Rest;
    if n > 0 {
      WrittenSteadyRests(r, c, n - 1, interval, minrto);
      WrittenSteadyStep(WrittenSteady(r, c, n - 1, interval, minrto), c, interval, minrto);
    }
  }

  /** From every state with a mean, the written variation settles within the rounding error, as the
      intended one always does (`RttEstimator.SteadySettles`), exactly when twice the resting mean and
      the sample together stay below 32 milliseconds. */
  lemma WrittenVariationSettlesIff(r: Rtt.Rtt, c: nat, n: nat, interval: nat, minrto: nat)
    requires r.srtt >= 1 && c >= 1 && n > Rtt.Distance(r.srtt, Rest(r.srtt, c))
    ensures var t := WrittenSteady(r, c, n, interval, minrto);
            c <= t.srtt + 7 && t.srtt <= c && (t.rttval <= 7 <==> 2 * Rest(r.srtt, c) + c < 32)
  {
    WrittenSteadyRests(r, c, n, interval, minrto);
  }

  /** A fresh endpoint that always sees 100 milliseconds: the written variation stays at 75 and the timeout
      at 400, where the intended ones end at most at 7 and at 200. */
  lemma WrittenVariationAtHundred(n: nat)
    requires n >= 60
    ensures var w, t := WrittenSteady(Rtt.FRESH, 100, n, INTERVAL, RTO_MIN), Rtt.Steady(Rtt.FRESH, 100, n, INTERVAL, RTO_MIN);
            w.rttval == 75 && w.rto == 400 && t.rttval <= 7 && t.rto <= 200
  {
    hide WrittenSteady, Rtt.Steady;
    WrittenSteadyFirst(Rtt.FRESH, 100, n - 1, INTERVAL, RTO_MIN);
    Rtt.SteadyFirst(Rtt.FRESH, 100, n - 1, INTERVAL, RTO_MIN);
    var r := Rtt.Update(Rtt.FRESH, 100, INTERVAL, RTO_MIN);
    assert r == WrittenUpdate(Rtt.FRESH, 100, INTERVAL, RTO_MIN) == Rtt.Rtt(100, 50, 300);
    WrittenSteadyRests(r, 100, n - 2, INTERVAL, RTO_MIN);
    WrittenSteadyRests(r, 100, n - 1, INTERVAL, RTO_MIN);
    Rtt.SteadySettles(r, 100, n - 1, INTERVAL, RTO_MIN);
    LastSample(r, 100, n - 1, INTERVAL, RTO_MIN);
  }

  lemma LastSample(r: Rtt.Rtt, c: nat, n: nat, interval: nat, minrto: nat)
    requires n > 0
    ensures var w := WrittenSteady(r, c, n, interval, minrto);
            w.rto == Min(Max(minrto, w.srtt + Max(interval, 4 * w.rttval)), RTO_MAX)
    ensures var t := Rtt.Steady(r, c, n, interval, minrto);
            t.rto == Min(Max(minrto, t.srtt + Max(interval, 4 * t.rttval)), RTO_MAX)
  {
    hide WrittenUpdate, Rtt.Update, Min, Max;
    WrittenTimeout(WrittenSteady(r, c, n - 1, interval, minrto), c, interval, minrto);
    Timeout(Rtt.Steady(r, c, n - 1, interval, minrto), c, interval, minrto);
  }

  lemma WrittenTimeout(r: Rtt.Rtt, c: nat, interval: nat, minrto: nat)
    ensures var w := WrittenUpdate(r, c, interval, minrto);
            w.rto == Min(Max(minrto, w.srtt + Max(interval, 4 * w.rttval)), RTO_MAX)
  {
    hide Min, Max;
  }

  lemma Timeout(r: Rtt.Rtt, c: nat, interval: nat, minrto: nat)
    ensures var t := Rtt.Update(r, c, interval, minrto);
            t.rto == Min(Max(minrto, t.srtt + Max(interval, 4 * t.rttval)), RTO_MAX)
  {
    hide Min, Max;
  }

  lemma {:induction false} WrittenSteadyFirst(r: Rtt.Rtt, c: nat, n: nat, interval: nat, minrto: nat)
    ensures WrittenSteady(r, c, n + 1, interval, minrto)
         == WrittenSteady(WrittenUpdate(r, c, interval, minrto), c, n, interval, minrto)
  {
    if n > 0 {
      WrittenSteadyFirst(r, c, n - 1, interval, minrto);
    }
  }

  // ----- kcp/parse.go:67-72: the acknowledgement list never grows -----

  function WrittenAckPush(list: seq<nat>, count: nat, sn: nat, ts: nat): Go<seq<nat>> {
    if 2 * count + 1 < |list| then Done(list[2 * count := sn][2 * count + 1 := ts]) else Panic
  }
}
