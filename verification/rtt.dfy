/** The retransmission timeout estimator (`Update_Ack`, kcp/parse.go; section 2 of RFC 6298). */
module RttEstimator {
  import opened Compare
  import opened Segments

  /** `Rx_srtt`, `Rx_rttval`, `Rx_rto`. */
  datatype Rtt = Rtt(srtt: nat, rttval: nat, rto: nat)

  const INT32_LIMIT := 0x8000_0000
  const FRESH := Rtt(0, 0, RTO_DEF)

  function Distance(a: nat, b: nat): nat {
    if a < b then b - a else a - b
  }

  /** One sample: smoothed mean and variation, then the timeout between `minrto` and one minute. */
  function Update(r: Rtt, rtt: nat, interval: nat, minrto: nat): Rtt {
    var rttval := if r.srtt == 0 then rtt / 2 else (3 * r.rttval + Distance(rtt, r.srtt)) / 4;
    var srtt := if r.srtt == 0 then rtt else Max((7 * r.srtt + rtt) / 8, 1);
    Rtt(srtt, rttval, Min(Max(minrto, srtt + Max(interval, 4 * rttval)), RTO_MAX))
  }

  /** The constants of section 2 of RFC 6298. */
  const ALPHA := 1.0 / 8.0
  const BETA := 1.0 / 4.0
  const K := 4

  /** `v` is `x` rounded down. */
  predicate RoundsDown(v: nat, x: real) {
    v as real <= x < v as real + 1.0
  }

  /** One sample does what section 2 of RFC 6298 says, rounded down to whole milliseconds, with the flush
      interval as clock granularity: rules 2.2 (first sample) and 2.3 (later ones), then the limits. */
  lemma FollowsRfc6298(r: Rtt, rtt: nat, interval: nat, minrto: nat)
    ensures var t := Update(r, rtt, interval, minrto);
            && (r.srtt == 0 ==> t.srtt == rtt && RoundsDown(t.rttval, rtt as real / 2.0))
            && (r.srtt > 0 ==>
                  && RoundsDown(t.rttval, (1.0 - BETA) * r.rttval as real + BETA * Distance(r.srtt, rtt) as real)
                  && (var mean := (1.0 - ALPHA) * r.srtt as real + ALPHA * rtt as real;
                      if mean >= 1.0 then RoundsDown(t.srtt, mean) else t.srtt == 1))
            && (var rto := t.srtt + Max(interval, K * t.rttval);
                t.rto == if rto > RTO_MAX || minrto > RTO_MAX then RTO_MAX else if rto < minrto then minrto else rto)
  {
    if r.srtt > 0 {
      Eighths(7 * r.srtt + rtt);
      Quarters(3 * r.rttval + Distance(rtt, r.srtt));
    }
  }

  lemma Eighths(v: nat)
    ensures RoundsDown(v / 8, v as real / 8.0)
  {
    assert 8 * (v / 8) <= v < 8 * (v / 8) + 8;
  }

  lemma Quarters(v: nat)
    ensures RoundsDown(v / 4, v as real / 4.0)
  {
    assert 4 * (v / 4) <= v < 4 * (v / 4) + 4;
  }

  /** Every intermediate value of `Update` fits the int32 the source computes it in. */
  predicate NoOverflow(r: Rtt, rtt: nat, interval: nat) {
    var next := Update(r, rtt, interval, 0);
    && 3 * r.rttval + Distance(rtt, r.srtt) < INT32_LIMIT
    && 7 * r.srtt + rtt < INT32_LIMIT
    && 4 * next.rttval < INT32_LIMIT
    && next.srtt + Max(interval, 4 * next.rttval) < INT32_LIMIT
  }

  /** A measured round-trip time, with the settings it was measured under. */
  datatype Sample = Sample(rtt: nat, interval: nat, minrto: nat)

  /** The settings `SetNodelay` can make. */
  predicate Configured(s: Sample) {
    s.interval <= 5000 && RTO_NDL <= s.minrto <= RTO_MAX
  }

  function Estimate(samples: seq<Sample>): Rtt {
    if samples == [] then FRESH
    else
      var s := samples[|samples| - 1];
      Update(Estimate(samples[..|samples| - 1]), s.rtt, s.interval, s.minrto)
  }

  /** A state some samples between `lo` and `hi` may have led to. */
  predicate Between(r: Rtt, lo: nat, hi: nat) {
    r == FRESH || (lo <= r.srtt <= hi && r.rttval <= hi)
  }

  lemma UpdateBetween(r: Rtt, s: Sample, lo: nat, hi: nat)
    requires 1 <= lo <= s.rtt <= hi && Between(r, lo, hi)
    ensures var t := Update(r, s.rtt, s.interval, s.minrto); lo <= t.srtt <= hi && t.rttval <= hi
  {
    assert lo <= (7 * r.srtt + s.rtt) / 8 <= hi || r.srtt == 0;
    assert (3 * r.rttval + Distance(s.rtt, r.srtt)) / 4 <= hi || r.srtt == 0;
  }

  lemma SafeUpdate(r: Rtt, s: nat, lo: nat, hi: nat, interval: nat)
    requires 1 <= lo <= s <= hi < 0x1000_0000 && interval <= 5000 && Between(r, lo, hi)
    ensures NoOverflow(r, s, interval)
  {
    assert (7 * r.srtt + s) / 8 <= hi;
    assert (3 * r.rttval + Distance(s, r.srtt)) / 4 <= hi;
  }

  /** Whatever the samples, the timeout stays between the floor then in force and one minute. */
  lemma EstimateTimeout(samples: seq<Sample>)
    requires forall s <- samples :: Configured(s)
    ensures RTO_NDL <= Estimate(samples).rto <= RTO_MAX
    ensures samples != [] ==> samples[|samples| - 1].minrto <= Estimate(samples).rto
  {
    if samples != [] {
      assert samples[|samples| - 1] in samples;
    }
  }

  lemma {:induction false} EstimateBetween(samples: seq<Sample>, lo: nat, hi: nat)
    requires 1 <= lo && forall s <- samples :: lo <= s.rtt <= hi
    ensures Between(Estimate(samples), lo, hi)
    ensures samples != [] ==> lo <= Estimate(samples).srtt <= hi
  {
    hide Update;
    if samples != [] {
      var n := |samples| - 1;
      assert samples[n] in samples && forall s <- samples[..n] :: s in samples;
      EstimateBetween(samples[..n], lo, hi);
      UpdateBetween(Estimate(samples[..n]), samples[n], lo, hi);
    }
  }

  /** For every history of samples between `lo` and `hi`, under settings that may change in between, the mean
      stays between them, the variation below `hi`, the timeout within its limits, and the next update
      overflows nothing. */
  lemma EstimateBounds(samples: seq<Sample>, lo: nat, hi: nat, next: Sample)
    requires 1 <= lo <= next.rtt <= hi < 0x1000_0000 && Configured(next)
    requires forall s <- samples :: lo <= s.rtt <= hi && Configured(s)
    ensures var r := Estimate(samples);
            && (samples != [] ==> lo <= r.srtt <= hi && samples[|samples| - 1].minrto <= r.rto)
            && RTO_NDL <= r.rto <= RTO_MAX && r.rttval <= hi && NoOverflow(r, next.rtt, next.interval)
  {
    EstimateBetween(samples, lo, hi);
    EstimateTimeout(samples);
    SafeUpdate(Estimate(samples), next.rtt, lo, hi, next.interval);
    hide Update, NoOverflow, Estimate;
  }

  // ----- Constant round-trip time -----

  function Steady(r: Rtt, c: nat, n: nat, interval: nat, minrto: nat): Rtt {
    if n == 0 then r else Update(Steady(r, c, n - 1, interval, minrto), c, interval, minrto)
  }

  lemma {:induction false} SteadyFirst(r: Rtt, c: nat, n: nat, interval: nat, minrto: nat)
    ensures Steady(r, c, n + 1, interval, minrto) == Steady(Update(r, c, interval, minrto), c, n, interval, minrto)
  {
    if n > 0 {
      SteadyFirst(r, c, n - 1, interval, minrto);
    }
  }

  /** Within the rounding error of the two integer divisions. */
  predicate Settled(r: Rtt, c: nat) {
    r.srtt <= c <= r.srtt + 7
  }

  lemma SteadyStep(r: Rtt, c: nat, interval: nat, minrto: nat)
    requires r.srtt >= 1 && c >= 1
    ensures var t := Update(r, c, interval, minrto);
            && t.srtt >= 1
            && (Settled(r, c) ==> t.srtt == r.srtt)
            && (!Settled(r, c) ==> Distance(c, t.srtt) < Distance(c, r.srtt))
            && t.rttval <= Max(r.rttval, Distance(c, r.srtt))
            && (Settled(r, c) && r.rttval > 7 ==> t.rttval < r.rttval)
            && (Settled(r, c) && r.rttval <= 7 ==> t.rttval <= 7)
  {
  }

  lemma {:induction false} SteadyApproach(r: Rtt, c: nat, n: nat, interval: nat, minrto: nat)
    requires r.srtt >= 1 && c >= 1
    ensures var t := Steady(r, c, n, interval, minrto);
            var d, m := Distance(c, r.srtt), Max(r.rttval, Distance(c, r.srtt));
            && t.srtt >= 1 && Distance(c, t.srtt) <= d && t.rttval <= m
            && (Settled(t, c) || Distance(c, t.srtt) + n <= d)
            && (n >= d ==> Settled(t, c) && (t.rttval <= 7 || t.rttval + n - d <= m))
  {
    if n > 0 {
      SteadyApproach(r, c, n - 1, interval, minrto);
      SteadyStep(Steady(r, c, n - 1, interval, minrto), c, interval, minrto);
    }
  }

  /** Under a constant round-trip time `c` every state with a mean settles for good: after
      `2 * |srtt - c| + rttval` samples the mean is at most 7 below `c` and never above, the variation at most 7. */
  lemma SteadySettles(r: Rtt, c: nat, n: nat, interval: nat, minrto: nat)
    requires r.srtt >= 1 && c >= 1
    requires n >= 2 * Distance(c, r.srtt) + r.rttval
    ensures var t := Steady(r, c, n, interval, minrto); c <= t.srtt + 7 && t.srtt <= c && t.rttval <= 7
  {
    SteadyApproach(r, c, n, interval, minrto);
  }
}
