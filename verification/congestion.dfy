/** The congestion window and its byte counter (kcp/kcp.go:202-226, 456-482). */
module Congestion {
  import opened Arithmetic
  import opened Compare
  import opened Segments

  /** `Cwnd`, `Incr`, `Ssthresh`. */
  datatype Cong = Cong(cwnd: nat, incr: nat, ssthresh: nat)

  /** The window is the byte counter in segments, rounded either way. */
  predicate Tracks(c: Cong, mss: nat) {
    (c.cwnd - 1) * mss < c.incr < (c.cwnd + 1) * mss && c.ssthresh >= THRESH_MIN
  }

  /** What congestion avoidance adds to a byte counter of at least one segment. */
  function Gain(base: nat, mss: nat): nat
    requires base > 0
  {
    mss * mss / base + mss / 16
  }

  /** One step of congestion avoidance on the byte counter. */
  function Advance(incr: nat, mss: nat): nat
    requires mss > 0
  {
    var base := if incr < mss then mss else incr;
    base + Gain(base, mss)
  }

  /** Slow start below the threshold, avoidance above it. */
  function Growth(c: Cong, mss: nat): Cong
    requires mss > 0
  {
    if c.cwnd < c.ssthresh then c.(cwnd := c.cwnd + 1, incr := c.incr + mss)
    else
      var incr := Advance(c.incr, mss);
      if (c.cwnd + 1) * mss <= incr
      then c.(cwnd := (incr + mss - 1) / mss, incr := incr)
      else c.(incr := incr)
  }

  /** Growth when new data was acknowledged, never past what the peer can take. */
  function Grow(c: Cong, mss: nat, rmtWnd: nat): Cong
    requires mss > 0
  {
    if c.cwnd >= rmtWnd then c
    else
      var g := Growth(c, mss);
      if g.cwnd > rmtWnd then g.(cwnd := rmtWnd, incr := rmtWnd * mss) else g
  }

  /** Reaction of one flush: to fast retransmits first, then to timeouts, then the floor of 1. */
  function React(c: Cong, mss: nat, inflight: nat, cwnd: nat, resent: nat, fast: bool, lost: bool): Cong {
    var c1 :=
      if fast then
        var thresh := Max(inflight / 2, THRESH_MIN);
        Cong(thresh + resent, (thresh + resent) * mss, thresh)
      else c;
    var c2 := if lost then Cong(1, mss, Max(cwnd / 2, THRESH_MIN)) else c1;
    if c2.cwnd < 1 then c2.(cwnd := 1, incr := mss) else c2
  }

  /** Rounding up: the counter in segments. */
  lemma CeilingTracks(incr: nat, mss: nat)
    requires mss > 0
    ensures var k := (incr + mss - 1) / mss; (k - 1) * mss < incr <= k * mss
  {
    var k := (incr + mss - 1) / mss;
    assert k * mss + (incr + mss - 1) % mss == incr + mss - 1;
    assert (k - 1) * mss == k * mss - mss;
  }

  /** The multiplicative part of avoidance, above one and above two segments. */
  lemma GainBound(incr: nat, mss: nat)
    requires 0 < mss <= incr
    ensures mss * mss / incr <= mss
    ensures incr >= 2 * mss ==> mss * mss / incr <= mss / 2 + 1
  {
    ProductBound(mss, incr, mss);
    QuotientBound(mss * mss, mss, incr);
    if incr >= 2 * mss {
      var h := mss / 2 + 1;
      ProductBound(mss, 2 * h, mss);
      ProductBound(2 * mss, incr, h);
      assert (2 * h) * mss == (2 * mss) * h;
      QuotientBound(mss * mss, h, incr);
    }
  }

  /** With a window of `k` whole segments one round of congestion avoidance adds the k-th part of a
      segment and a sixteenth of one: `k` rounds open the window by about one segment. */
  lemma GainPerWindow(k: nat, mss: nat)
    requires k > 0 && mss > 0
    ensures k * mss > 0 && Gain(k * mss, mss) == mss / k + mss / 16
  {
    var q, r := mss / k, mss % k;
    ProductBound(1, k, mss);
    ProductBound(r + 1, k, mss);
    Distribute(r, 1, mss);
    ProductBound(0, r, mss);
    WholeSquare(k, q, r, mss);
    DivisionUnique(mss * mss, k * mss, q, r * mss);
  }

  lemma WholeSquare(k: nat, q: nat, r: nat, mss: nat)
    requires mss == q * k + r
    ensures mss * mss == q * (k * mss) + r * mss
  {
    Distribute(q * k, r, mss);
    assert q * k * mss == q * (k * mss);
  }

  /** Avoidance adds less than what two more segments hold, counted from the current window. */
  lemma AdvanceBound(cwnd: nat, incr: nat, mss: nat)
    requires mss > 0 && cwnd >= 2 && (cwnd - 1) * mss < incr < (cwnd + 1) * mss
    ensures incr <= Advance(incr, mss) <= (cwnd + 2) * mss
  {
    Distribute(cwnd, -1, mss);
    Distribute(cwnd, 1, mss);
    Distribute(cwnd, 2, mss);
    ProductBound(2, cwnd, mss);
    hide Advance;
    AdvanceWhole(incr, mss, cwnd * mss);
  }

  lemma AdvanceWhole(incr: nat, mss: nat, whole: nat)
    requires mss > 0 && whole - mss < incr < whole + mss && 2 * mss <= whole
    ensures incr <= Advance(incr, mss) <= whole + 2 * mss
  {
    GainBound(incr, mss);
    AdvanceSum(incr, mss, mss * mss / incr, whole);
  }

  lemma AdvanceSum(incr: nat, mss: nat, gain: nat, whole: nat)
    requires mss > 0 && whole - mss < incr < whole + mss && 2 * mss <= whole
    requires gain <= mss && (incr >= 2 * mss ==> gain <= mss / 2 + 1)
    ensures incr + gain + mss / 16 <= whole + 2 * mss
  {
  }

  /** A counter that reached the next segment but not two more rounds up to one or two more. */
  lemma CeilingStep(cwnd: nat, incr: nat, mss: nat)
    requires mss > 0 && (cwnd + 1) * mss <= incr <= (cwnd + 2) * mss
    ensures cwnd < (incr + mss - 1) / mss <= cwnd + 2
  {
    CeilingTracks(incr, mss);
    var k := (incr + mss - 1) / mss;
    Distribute(cwnd, 1, mss);
    if k > cwnd + 2 {
      ProductBound(cwnd + 2, k - 1, mss);
    } else if k <= cwnd {
      ProductBound(k, cwnd, mss);
    }
  }

  lemma CapTracks(wnd: nat, mss: nat, thresh: nat)
    requires mss > 0 && thresh >= THRESH_MIN
    ensures Tracks(Cong(wnd, wnd * mss, thresh), mss)
  {
    Distribute(wnd, -1, mss);
    Distribute(wnd, 1, mss);
  }

  lemma GrowthTracks(c: Cong, mss: nat) returns (g: Cong)
    requires mss > 0 && Tracks(c, mss)
    ensures g == Growth(c, mss)
    ensures Tracks(g, mss) && c.cwnd <= g.cwnd <= c.cwnd + 2 && g.ssthresh == c.ssthresh
  {
    g := Growth(c, mss);
    if c.cwnd < c.ssthresh {
      Distribute(c.cwnd - 1, 1, mss);
      Distribute(c.cwnd + 1, 1, mss);
    } else {
      AdvanceBound(c.cwnd, c.incr, mss);
      var incr := Advance(c.incr, mss);
      hide Advance;
      if (c.cwnd + 1) * mss <= incr {
        CeilingStep(c.cwnd, incr, mss);
        CeilingTracks(incr, mss);
        Distribute(g.cwnd, 1, mss);
      }
    }
  }

  /** One acknowledgement round keeps window and counter together, opens the window by at most two
      segments, never closes it, and never opens it past the peer's window. */
  lemma GrowTracks(c: Cong, mss: nat, rmtWnd: nat)
    requires mss > 0 && Tracks(c, mss)
    ensures var g := Grow(c, mss, rmtWnd);
            && Tracks(g, mss) && c.cwnd <= g.cwnd <= c.cwnd + 2
            && (g.cwnd > c.cwnd ==> g.cwnd <= rmtWnd) && g.ssthresh == c.ssthresh
  {
    hide Growth, Tracks;
    assert c.ssthresh >= THRESH_MIN by {
      Threshold(c, mss);
    }
    var g := GrowthTracks(c, mss);
    CapTracks(rmtWnd, mss, c.ssthresh);
  }

  lemma Threshold(c: Cong, mss: nat)
    requires Tracks(c, mss)
    ensures c.ssthresh >= THRESH_MIN
  {
  }

  /** After the losses of a flush window and counter still agree and the window is open; a timeout
      closes it to exactly one segment. */
  lemma ReactTracks(c: Cong, mss: nat, inflight: nat, cwnd: nat, resent: nat, fast: bool, lost: bool)
    requires mss > 0 && Tracks(c, mss)
    ensures var g := React(c, mss, inflight, cwnd, resent, fast, lost);
            && Tracks(g, mss) && g.cwnd >= 1 && (lost ==> g.cwnd == 1 && g.incr == mss)
            && (lost ==> 2 * g.ssthresh + 1 >= cwnd)
            && (fast && !lost ==> g.cwnd == g.ssthresh + resent && 2 * g.ssthresh + 1 >= inflight)
            && (!fast && !lost && c.cwnd >= 1 ==> g == c)
  {
    Threshold(c, mss);
    var k := Max(inflight / 2, THRESH_MIN);
    CapTracks(k + resent, mss, k);
    CapTracks(1, mss, Max(cwnd / 2, THRESH_MIN));
    CapTracks(1, mss, c.ssthresh);
    assert 1 * mss == mss;
    hide Tracks;
  }

  // ----- Both sides of growth and of the loss reaction -----

  /** One step of congestion avoidance: a counter of k segments, one at least, gains the k-th part of a segment,
      rounded down, and a sixteenth. */
  predicate Advanced(before: nat, mss: nat, after: nat) {
    var base := Max(before, mss);
    var part := after - base - mss / 16;
    part >= 0 && part * base <= mss * mss < (part + 1) * base
  }

  /** The window follows a counter that reached `incr`: it stays below the next whole segment; from there on it is
      the number of segments that hold the counter, cut to what the peer can take. */
  predicate Followed(c: Cong, g: Cong, mss: nat, rmtWnd: nat, incr: nat) {
    && g.ssthresh == c.ssthresh
    && (incr < (c.cwnd + 1) * mss ==> g.cwnd == c.cwnd && g.incr == incr)
    && (incr >= (c.cwnd + 1) * mss ==>
          || (g.cwnd <= rmtWnd && (g.cwnd - 1) * mss < incr <= g.cwnd * mss && g.incr == incr)
          || (g.cwnd == rmtWnd && rmtWnd * mss < incr && g.incr == rmtWnd * mss))
  }

  lemma AdvanceExact(incr: nat, mss: nat)
    requires mss > 0
    ensures Advanced(incr, mss, Advance(incr, mss))
  {
    var base := Max(incr, mss);
    var square := mss * mss;
    QuotientFloor(square, base);
    Distribute(square / base, 1, base);
    assert Advance(incr, mss) == base + square / base + mss / 16;
  }

  /** What one acknowledgement round does: nothing at the peer's window; below the threshold one segment more;
      at or above it one step of avoidance, which the window follows. */
  lemma GrowExact(c: Cong, mss: nat, rmtWnd: nat) returns (incr: nat)
    requires mss > 0 && Tracks(c, mss)
    ensures var g := Grow(c, mss, rmtWnd);
            && (c.cwnd >= rmtWnd ==> g == c)
            && (c.cwnd < rmtWnd && c.cwnd < c.ssthresh ==> g == Cong(c.cwnd + 1, c.incr + mss, c.ssthresh))
            && (c.cwnd < rmtWnd && c.cwnd >= c.ssthresh ==>
                  Advanced(c.incr, mss, incr) && Followed(c, g, mss, rmtWnd, incr))
  {
    incr := Advance(c.incr, mss);
    AdvanceExact(c.incr, mss);
    hide Advance, Advanced, Tracks;
    CeilingTracks(incr, mss);
    var k := (incr + mss - 1) / mss;
    if k > rmtWnd {
      ProductBound(rmtWnd, k - 1, mss);
    }
  }

  /** What a loss halves: rounded down, and never below the least threshold. */
  predicate Halved(thresh: nat, whole: int) {
    thresh >= THRESH_MIN && whole <= 2 * thresh + 1 && (2 * thresh <= whole || thresh == THRESH_MIN)
  }

  /** A timeout halves the window in force and starts over with one segment; fast retransmission alone halves what
      is in flight and goes on from there; without a loss only a closed window is opened. */
  lemma ReactExact(c: Cong, mss: nat, inflight: nat, cwnd: nat, resent: nat, fast: bool, lost: bool)
    ensures var g := React(c, mss, inflight, cwnd, resent, fast, lost);
            && (lost ==> g.cwnd == 1 && g.incr == mss && Halved(g.ssthresh, cwnd))
            && (fast && !lost ==>
                  g.cwnd == g.ssthresh + resent && g.incr == g.cwnd * mss && Halved(g.ssthresh, inflight))
            && (!fast && !lost ==> g == if c.cwnd >= 1 then c else Cong(1, mss, c.ssthresh))
  {
  }
}
