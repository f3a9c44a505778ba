/** Which segments of the send buffer a flush transmits, and when they are next due
    (kcp/kcp.go:372-449). */
module Retransmission {
  import opened Compare
  import opened Segments

  datatype Kind = Skip | First | Timeout | Fast

  /** What the data loop of one flush reads and does not change. */
  datatype Context = Context(now: nat, rxRto: nat, nodelay: nat, resent: nat, fastLimit: int, wnd: nat, una: nat)

  function Decide(s: Seg, c: Context): Kind {
    if s.xmit == 0 then First
    else if c.now >= s.resendTs then Timeout
    else if s.fastack >= c.resent && (s.xmit <= c.fastLimit || c.fastLimit <= 0) then Fast
    else Skip
  }

  /** The timeout after one more loss: doubled, or one and a half times with `nodelay`. */
  function NextRto(rto: nat, rxRto: nat, nodelay: nat): nat {
    if nodelay == 0 then rto + Max(rto, rxRto)
    else if nodelay < 2 then rto + rto / 2
    else rto + rxRto / 2
  }

  function Touch(s: Seg, c: Context): Seg {
    match Decide(s, c)
    case Skip => s
    case First =>
      var rtomin := if c.nodelay == 0 then c.rxRto / 8 else 0;
      s.(xmit := s.xmit + 1, rto := c.rxRto, resendTs := c.now + c.rxRto + rtomin,
         ts := c.now, wnd := c.wnd, una := c.una)
    case Timeout =>
      var rto := NextRto(s.rto, c.rxRto, c.nodelay);
      s.(xmit := s.xmit + 1, rto := rto, resendTs := c.now + rto, ts := c.now, wnd := c.wnd, una := c.una)
    case Fast =>
      s.(xmit := s.xmit + 1, fastack := 0, resendTs := c.now + s.rto, ts := c.now, wnd := c.wnd, una := c.una)
  }

  function TouchAll(buf: seq<Seg>, c: Context): (r: seq<Seg>)
    ensures |r| == |buf|
  {
    seq(|buf|, i requires 0 <= i < |buf| => Touch(buf[i], c))
  }

  /** The segments transmitted, as transmitted, in buffer order. */
  function Due(buf: seq<Seg>, c: Context): seq<Seg> {
    if buf == [] then []
    else
      var n := |buf| - 1;
      Due(buf[..n], c) + if Decide(buf[n], c) == Skip then [] else [Touch(buf[n], c)]
  }

  function CountKind(buf: seq<Seg>, c: Context, k: Kind): nat {
    if buf == [] then 0
    else
      var n := |buf| - 1;
      CountKind(buf[..n], c, k) + if Decide(buf[n], c) == k then 1 else 0
  }

  lemma {:induction false} DueMembers(buf: seq<Seg>, c: Context)
    ensures forall x :: x in Due(buf, c) <==> exists s :: s in buf && Decide(s, c) != Skip && x == Touch(s, c)
  {
    if buf != [] {
      var n := |buf| - 1;
      DueMembers(buf[..n], c);
      assert buf == buf[..n] + [buf[n]];
      forall x
        ensures x in Due(buf, c) <==> exists s :: s in buf && Decide(s, c) != Skip && x == Touch(s, c)
      {
        if x in Due(buf, c) && x !in Due(buf[..n], c) {
          assert buf[n] in buf && x == Touch(buf[n], c);
        }
      }
    }
  }

  /** A transmission changes bookkeeping only: number, fragment and bytes are what they were. */
  lemma TouchKeeps(s: Seg, c: Context)
    ensures var t := Touch(s, c);
            t.sn == s.sn && t.frg == s.frg && t.data == s.data && t.conv == s.conv && t.cmd == s.cmd
  {
  }

  // ----- History of one segment -----

  /** One transmission: its time, its reason, the timeout set by it, and the estimated timeout and the mode it was
      made under. */
  datatype Shot = Shot(time: nat, kind: Kind, rto: nat, rxRto: nat, nodelay: nat)

  /** When the segment is due after this transmission; the first one without `nodelay` is given an eighth more. */
  function Deadline(x: Shot): nat {
    x.time + x.rto + if x.kind == First && x.nodelay == 0 then x.rxRto / 8 else 0
  }

  /** How a timeout makes the timeout `rto` grow: without `nodelay` by itself or by the estimate, whichever is more;
      with `nodelay` 1 by half of itself; above that by half of the estimate. Halves are rounded down. */
  predicate Grown(rto: nat, y: Shot) {
    if y.nodelay == 0 then y.rto >= 2 * rto && y.rto >= rto + y.rxRto && (y.rto == 2 * rto || y.rto == rto + y.rxRto)
    else if y.nodelay == 1 then 2 * y.rto <= 3 * rto <= 2 * y.rto + 1
    else 2 * (y.rto - rto) <= y.rxRto <= 2 * (y.rto - rto) + 1
  }

  /** What may follow a transmission: a timeout from its deadline on, or before that a fast retransmission, which
      leaves the timeout as it is. */
  predicate Follows(x: Shot, y: Shot) {
    || (y.kind == Timeout && y.time >= Deadline(x) && Grown(x.rto, y))
    || (y.kind == Fast && y.time < Deadline(x) && y.rto == x.rto)
  }

  /** A first transmission with the estimated timeout, and then what may follow. */
  ghost predicate Lawful(h: seq<Shot>) {
    && (h != [] ==> h[0].kind == First && h[0].rto == h[0].rxRto)
    && forall i :: 0 < i < |h| ==> Follows(h[i - 1], h[i])
  }

  /** What a buffered segment remembers of its history. */
  ghost predicate Remembers(s: Seg, h: seq<Shot>) {
    && s.xmit == |h| && Lawful(h)
    && (h != [] ==> s.rto == h[|h| - 1].rto && s.resendTs == Deadline(h[|h| - 1]))
  }

  function ShotOf(s: Seg, c: Context): Shot {
    Shot(c.now, Decide(s, c), Touch(s, c).rto, c.rxRto, c.nodelay)
  }

  function Extended(h: seq<Shot>, s: Seg, c: Context): seq<Shot> {
    if Decide(s, c) == Skip then h else h + [ShotOf(s, c)]
  }

  lemma LawfulAppend(h: seq<Shot>, x: Shot)
    requires Lawful(h)
    requires if h == [] then x.kind == First && x.rto == x.rxRto else Follows(h[|h| - 1], x)
    ensures Lawful(h + [x])
  {
    hide Follows;
  }

  /** One look at a segment, in any mode and at any time, keeps count, timeout and deadline what the history says. */
  lemma RemembersStep(s: Seg, h: seq<Shot>, c: Context)
    requires Remembers(s, h)
    ensures Remembers(Touch(s, c), Extended(h, s, c))
  {
    if Decide(s, c) != Skip {
      hide Lawful;
      LawfulAppend(h, ShotOf(s, c));
    }
  }

  /** Which segments go out, by their histories: a new one, one whose deadline has passed, and one that was skipped
      often enough and not sent too often. */
  lemma GoesOutWhen(s: Seg, h: seq<Shot>, c: Context)
    requires Remembers(s, h)
    ensures Decide(s, c) != Skip <==>
              h == [] || c.now >= Deadline(h[|h| - 1])
              || (s.fastack >= c.resent && (|h| <= c.fastLimit || c.fastLimit <= 0))
  {
  }
}
