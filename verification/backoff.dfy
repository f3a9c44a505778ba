/** What lawful histories of transmissions are worth: exponential, geometric and linear backoff
    (kcp/kcp.go:402-414). */
module Backoffs {
  import opened Arithmetic
  import opened Retransmission

  /** The clock did not go back between transmissions. */
  ghost predicate Ordered(h: seq<Shot>) {
    forall i :: 0 < i < |h| ==> h[i - 1].time <= h[i].time
  }

  /** The timeouts among transmissions. */
  function Losses(h: seq<Shot>): nat {
    if h == [] then 0
    else Losses(h[..|h| - 1]) + if h[|h| - 1].kind == Timeout then 1 else 0
  }

  /** `x` times `b` to the `k`. */
  function Times(b: nat, k: nat, x: nat): nat {
    if k == 0 then x else b * Times(b, k - 1, x)
  }

  /** 0 + 1 + ... + (k - 1). */
  function Triangle(k: nat): nat {
    if k == 0 then 0 else Triangle(k - 1) + k - 1
  }

  /** Every timeout was met in this mode: 0, 1, or 2 for everything above. */
  ghost predicate InMode(h: seq<Shot>, mode: nat) {
    forall x <- h :: x.kind == Timeout ==> mode == if x.nodelay < 2 then x.nodelay else 2
  }

  /** The estimated timeout was in [lo, hi] at every transmission. */
  ghost predicate Estimated(h: seq<Shot>, lo: nat, hi: nat) {
    forall x <- h :: lo <= x.rxRto <= hi
  }

  /** A history without its last transmission, and that one. */
  lemma LastShot(h: seq<Shot>, mode: nat) returns (b: seq<Shot>, y: Shot)
    requires h != [] && Lawful(h) && Ordered(h) && InMode(h, mode)
    ensures h == b + [y] && Lawful(b) && Ordered(b) && InMode(b, mode)
    ensures Losses(h) == Losses(b) + if y.kind == Timeout then 1 else 0
    ensures b == [] ==> y == h[0] && y.kind == First && y.rto == y.rxRto && Losses(h) == 0
    ensures b != [] ==> b[0] == h[0] && Follows(b[|b| - 1], y) && b[|b| - 1].time <= y.time
    ensures y.kind == Timeout ==> mode == if y.nodelay < 2 then y.nodelay else 2
  {
    hide Follows;
    b, y := h[..|h| - 1], h[|h| - 1];
    assert y in h;
  }

  lemma LastEstimate(b: seq<Shot>, y: Shot, lo: nat, hi: nat)
    requires Estimated(b + [y], lo, hi)
    ensures Estimated(b, lo, hi) && lo <= y.rxRto <= hi
  {
    assert y in b + [y];
    assert forall x <- b :: x in b + [y];
  }

  /** Halves and doubles stay so, whatever power of two they are multiplied by. */
  lemma {:induction false} TimesMonotone(k: nat, p: nat, u: nat, q: nat, v: nat)
    requires p * u <= q * v
    ensures p * Times(2, k, u) <= q * Times(2, k, v)
  {
    if k > 0 {
      TimesMonotone(k - 1, p, u, q, v);
      Twice(p, Times(2, k - 1, u));
      Twice(q, Times(2, k - 1, v));
    }
  }

  lemma Twice(p: nat, x: nat)
    ensures p * (2 * x) == 2 * (p * x)
  {
  }

  lemma {:induction false} TimesGrow(k: nat, x: nat)
    ensures Times(2, k, x) >= x
  {
    if k > 0 {
      TimesGrow(k - 1, x);
    }
  }

  lemma TimesStep(b: nat, k: nat, x: nat)
    ensures Times(b, k + 1, x) == b * Times(b, k, x) && Times(b, 0, x) == x
  {
  }

  /** What one timeout does in each mode. */
  lemma OneTimeout(x: Shot, y: Shot)
    requires Follows(x, y)
    ensures y.kind == Fast ==> y.rto == x.rto
    ensures y.kind == Timeout || y.kind == Fast
    ensures y.kind == Timeout ==> y.time >= x.time + x.rto
    ensures y.kind == Timeout && y.nodelay == 0 ==> 2 * x.rto <= y.rto && (y.rto <= 2 * x.rto || y.rto <= x.rto + y.rxRto)
    ensures y.kind == Timeout && y.nodelay == 1 ==> 2 * y.rto <= 3 * x.rto <= 2 * y.rto + 1
  {
  }

  /** Without `nodelay`: after k timeouts, whatever fast retransmissions lie between, the timeout is at least 2^k
      first timeouts and at most 2^k of the largest estimate, and 2^k - 1 first timeouts at least have gone by. */
  lemma {:induction false} Doubles(h: seq<Shot>, hi: nat)
    requires h != [] && Lawful(h) && Ordered(h) && InMode(h, 0)
    ensures var x, k, r0 := h[|h| - 1], Losses(h), h[0].rto;
            && Times(2, k, r0) <= x.rto && (Estimated(h, 0, hi) ==> x.rto <= Times(2, k, hi))
            && x.time >= h[0].time + Times(2, k, r0) - r0
    decreases |h|
  {
    hide Lawful, Ordered, Losses, InMode, Estimated, Times, Follows;
    var b, y := LastShot(h, 0);
    TimesStep(2, Losses(b), h[0].rto);
    TimesStep(2, Losses(b), hi);
    if Estimated(h, 0, hi) {
      LastEstimate(b, y, 0, hi);
    }
    if b != [] {
      Doubles(b, hi);
      TimesGrow(Losses(b), hi);
      OneTimeout(b[|b| - 1], y);
    }
  }

  /** One more half, on both sides. */
  lemma HalfStep(k: nat, u: nat, v: nat, r0: nat)
    requires u > 0 && r0 > 0 && 2 * v <= 3 * u <= 2 * v + 1
    requires Times(3, k, r0 - 1) <= Times(2, k, u - 1) && Times(2, k, u) <= Times(3, k, r0)
    ensures v > 0 && Times(3, k + 1, r0 - 1) <= Times(2, k + 1, v - 1) && Times(2, k + 1, v) <= Times(3, k + 1, r0)
  {
    TimesStep(2, k, v);
    TimesStep(2, k, v - 1);
    TimesStep(3, k, r0);
    TimesStep(3, k, r0 - 1);
    TimesMonotone(k, 3, u - 1, 2, v - 1);
    TimesMonotone(k, 2, v, 3, u);
    hide Times;
  }

  /** With `nodelay` 1: after k timeouts the timeout is (3/2)^k first timeouts, short of that by rounding only, and at
      least twice what it has grown by has gone by. */
  lemma {:induction false} GrowsByHalf(h: seq<Shot>)
    requires h != [] && Lawful(h) && Ordered(h) && InMode(h, 1) && h[0].rto > 0
    ensures var x, k, r0 := h[|h| - 1], Losses(h), h[0].rto;
            && x.rto > 0 && Times(3, k, r0 - 1) <= Times(2, k, x.rto - 1) && Times(2, k, x.rto) <= Times(3, k, r0)
            && x.time >= h[0].time + 2 * (x.rto - r0)
    decreases |h|
  {
    hide Lawful, Ordered, Losses, InMode, Times, Follows;
    var b, y := LastShot(h, 1);
    if b != [] {
      GrowsByHalf(b);
      OneTimeout(b[|b| - 1], y);
      if y.kind == Timeout {
        HalfStep(Losses(b), b[|b| - 1].rto, y.rto, h[0].rto);
      }
    } else {
      TimesStep(2, 0, y.rto);
      TimesStep(2, 0, y.rto - 1);
      TimesStep(3, 0, y.rto);
      TimesStep(3, 0, y.rto - 1);
    }
  }

  lemma HalfMore(x: Shot, y: Shot, lo: nat, hi: nat)
    requires Follows(x, y) && y.kind == Timeout && y.nodelay >= 2 && lo <= y.rxRto <= hi
    ensures x.rto + lo / 2 <= y.rto <= x.rto + hi / 2 && y.time >= x.time + x.rto
  {
  }

  lemma NoTerms(r0: nat, half: nat)
    ensures Triangle(0) * half == 0 && 0 * r0 == 0
  {
  }

  /** One more term of each sum. */
  lemma OneMore(k: nat, r0: nat, half: nat)
    ensures (k + 1) * half == k * half + half && (k + 1) * r0 == k * r0 + r0
    ensures Triangle(k + 1) * half == Triangle(k) * half + k * half
  {
    Distribute(k, 1, half);
    Distribute(k, 1, r0);
    Distribute(Triangle(k), k, half);
  }

  /** With `nodelay` 2 or more: every timeout adds half of the estimate of its time, so after k timeouts the timeout
      has grown by k halves of an estimate in [lo, hi], and what has gone by grows with the square of k. */
  lemma {:induction false} GrowsByEstimate(h: seq<Shot>, lo: nat, hi: nat)
    requires h != [] && Lawful(h) && Ordered(h) && InMode(h, 2) && Estimated(h, lo, hi)
    ensures var x, k, r0 := h[|h| - 1], Losses(h), h[0].rto;
            && r0 + k * (lo / 2) <= x.rto <= r0 + k * (hi / 2)
            && x.time >= h[0].time + k * r0 + Triangle(k) * (lo / 2)
    decreases |h|
  {
    hide Lawful, Ordered, Losses, InMode, Estimated, Triangle, Follows;
    var b, y := LastShot(h, 2);
    NoTerms(h[0].rto, lo / 2);
    LastEstimate(b, y, lo, hi);
    if b != [] {
      GrowsByEstimate(b, lo, hi);
      OneTimeout(b[|b| - 1], y);
      if y.kind == Timeout {
        HalfMore(b[|b| - 1], y, lo, hi);
        OneMore(Losses(b), h[0].rto, lo / 2);
        OneMore(Losses(b), h[0].rto, hi / 2);
      }
    }
  }
}
