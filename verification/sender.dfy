/** The send side: segments in flight, waiting segments, acknowledgements (`Parse_Una`, `Shrink_Buf`,
    `Parse_Ack`, `Parse_Faskack` of kcp/parse.go, the window move of `Flush`). */
module Senders {
  import opened Lists
  import opened Segments

  /** `Snd_una`, `Snd_nxt`, `Snd_buf`, `Snd_queue`. */
  datatype Sender = Sender(una: nat, nxt: nat, buf: seq<Seg>, queue: seq<Seg>)

  /** In flight: sorted, numbered inside [`una`, `nxt`), starting at `una`. */
  ghost predicate Valid(s: Sender) {
    && Ascending(s.buf)
    && (forall x <- s.buf :: s.una <= x.sn < s.nxt)
    && s.una == FirstUnacked(s)
  }

  function FirstUnacked(s: Sender): nat {
    if s.buf == [] then s.nxt else s.buf[0].sn
  }

  // ----- Acknowledgements -----

  /** The segments numbered from `una` on. */
  function DropBelow(buf: seq<Seg>, una: nat): seq<Seg> {
    if buf == [] then []
    else
      var n := |buf| - 1;
      DropBelow(buf[..n], una) + if una > buf[n].sn then [] else [buf[n]]
  }

  function ParseUna(s: Sender, una: nat): Sender {
    s.(buf := DropBelow(s.buf, una))
  }

  function ShrinkBuf(s: Sender): Sender {
    s.(una := FirstUnacked(s))
  }

  /** Scans up to the first segment not below `sn` and deletes it if it is `sn`. */
  function RemoveSn(buf: seq<Seg>, sn: nat): seq<Seg> {
    var p := Position(buf, sn);
    if p < |buf| && buf[p].sn == sn then buf[..p] + buf[p + 1..] else buf
  }

  predicate Outstanding(s: Sender, sn: nat) {
    s.una <= sn < s.nxt
  }

  function ParseAck(s: Sender, sn: nat): Sender {
    if !Outstanding(s, sn) then s else s.(buf := RemoveSn(s.buf, sn))
  }

  /** Every segment scanned before the first one above `sn` was skipped by the ack of `sn`. */
  function Bump(buf: seq<Seg>, sn: nat): (r: seq<Seg>)
    ensures |r| == |buf|
  {
    seq(|buf|, i requires 0 <= i < |buf| =>
      if i < Position(buf, sn + 1) && buf[i].sn != sn
      then buf[i].(fastack := buf[i].fastack + 1) else buf[i])
  }

  function ParseFastack(s: Sender, sn: nat): Sender {
    if !Outstanding(s, sn) then s else s.(buf := Bump(s.buf, sn))
  }

  lemma {:induction false} DropBelowMembers(buf: seq<Seg>, una: nat)
    ensures forall x :: x in DropBelow(buf, una) <==> x in buf && x.sn >= una
  {
    if buf != [] {
      var n := |buf| - 1;
      DropBelowMembers(buf[..n], una);
      SplitLast(buf);
      var keep := if una > buf[n].sn then [] else [buf[n]];
      assert DropBelow(buf, una) == DropBelow(buf[..n], una) + keep;
      hide DropBelow;
      assert forall x :: x in buf <==> x in buf[..n] || x == buf[n];
    }
  }

  lemma {:induction false} DropBelowSorted(buf: seq<Seg>, una: nat)
    requires Ascending(buf)
    ensures Ascending(DropBelow(buf, una))
  {
    if buf != [] {
      var n := |buf| - 1;
      DropBelowSorted(buf[..n], una);
      DropBelowMembers(buf[..n], una);
      var r := DropBelow(buf[..n], una);
      forall i | 0 <= i < |r| ensures r[i].sn < buf[n].sn {
        assert r[i] in buf[..n];
      }
    }
  }

  lemma RemoveSnMembers(buf: seq<Seg>, sn: nat)
    requires Ascending(buf)
    ensures forall x :: x in RemoveSn(buf, sn) <==> x in buf && x.sn != sn
    ensures Ascending(RemoveSn(buf, sn))
  {
    var p := Position(buf, sn);
    assert forall i :: 0 <= i < p ==> buf[i].sn < sn;
    assert forall i :: p < i < |buf| ==> buf[i].sn > buf[p].sn >= sn;
    if p < |buf| && buf[p].sn == sn {
      assert Ascending(RemoveSn(buf, sn));
      hide Position, Ascending;
      assert RemoveSn(buf, sn) == buf[..p] + buf[p + 1..];
      forall x ensures x in buf[..p] + buf[p + 1..] <==> x in buf && x.sn != sn {
        if x in buf && x.sn != sn {
          var i :| 0 <= i < |buf| && buf[i] == x;
          assert i < p || buf[p + 1..][i - p - 1] == x;
        }
      }
    }
  }

  /** With a sorted buffer the scan reaches exactly the segments below `sn`. */
  lemma BumpBelow(buf: seq<Seg>, sn: nat)
    requires Ascending(buf)
    ensures forall i :: 0 <= i < |buf| ==>
              Bump(buf, sn)[i] == if buf[i].sn < sn then buf[i].(fastack := buf[i].fastack + 1) else buf[i]
    ensures Ascending(Bump(buf, sn))
  {
  }

  /** One `una` field processed (kcp/kcp.go:146-149): the segments below it are gone, no others,
      and `Snd_una` moves to the first that is left. */
  lemma UnaStep(s: Sender, una: nat)
    requires Valid(s)
    ensures var t := ShrinkBuf(ParseUna(s, una));
            && Valid(t) && t.una >= s.una && t.nxt == s.nxt && t.queue == s.queue
            && forall x :: x in t.buf <==> x in s.buf && x.sn >= una
  {
    DropBelowMembers(s.buf, una);
    DropBelowSorted(s.buf, una);
    var t := ParseUna(s, una);
    if t.buf != [] {
      assert t.buf[0] in t.buf;
    }
    assert s.una <= s.nxt by {
      if s.buf != [] {
        assert s.buf[0] in s.buf;
      }
    }
  }

  /** One ACK processed (kcp/kcp.go:158-159): exactly that number leaves the buffer. */
  lemma AckStep(s: Sender, sn: nat)
    requires Valid(s)
    ensures var t := ShrinkBuf(ParseAck(s, sn));
            && Valid(t) && t.una >= s.una && t.nxt == s.nxt && t.queue == s.queue
            && forall x :: x in t.buf <==> x in s.buf && x.sn != sn
  {
    RemoveSnMembers(s.buf, sn);
    var t := ParseAck(s, sn);
    if t.buf != [] {
      assert t.buf[0] in t.buf;
    }
    assert s.una <= s.nxt by {
      if s.buf != [] {
        assert s.buf[0] in s.buf;
      }
    }
  }

  lemma FastackStep(s: Sender, sn: nat)
    requires Valid(s)
    ensures Valid(ParseFastack(s, sn))
    ensures |ParseFastack(s, sn).buf| == |s.buf|
    ensures forall i :: 0 <= i < |s.buf| ==>
              ParseFastack(s, sn).buf[i] == s.buf[i].(fastack := ParseFastack(s, sn).buf[i].fastack)
  {
    hide Bump, Position, Valid;
    if Outstanding(s, sn) {
      ValidSorted(s);
      BumpBelow(s.buf, sn);
      BumpedValid(s, Bump(s.buf, sn));
    }
  }

  lemma ValidSorted(s: Sender)
    requires Valid(s)
    ensures Ascending(s.buf)
  {
  }

  /** New counters change nothing that keeps the send side in shape. */
  lemma BumpedValid(s: Sender, buf: seq<Seg>)
    requires Valid(s) && |buf| == |s.buf| && forall i :: 0 <= i < |buf| ==> buf[i] == s.buf[i].(fastack := buf[i].fastack)
    ensures Valid(s.(buf := buf))
  {
    forall x | x in buf ensures s.una <= x.sn < s.nxt {
      var i :| 0 <= i < |buf| && buf[i] == x;
      assert s.buf[i] in s.buf;
    }
  }

  // ----- Moving waiting segments into the window -----

  /** What a segment is stamped with when it enters the window. */
  datatype Stamp = Stamp(conv: nat, wnd: nat, now: nat, una: nat, rto: nat)

  function Stamped(st: Stamp, s: Seg, sn: nat): Seg {
    Seg(st.conv, CMD_PUSH, s.frg, st.wnd, st.now, sn, st.una, st.now, st.rto, 0, 0, s.data)
  }

  /** The loop of kcp/kcp.go:346-370. */
  function Admit(s: Sender, limit: nat, st: Stamp): Sender
    decreases |s.queue|
  {
    if s.nxt < limit && s.queue != []
    then Admit(s.(nxt := s.nxt + 1, buf := s.buf + [Stamped(st, s.queue[0], s.nxt)], queue := s.queue[1..]), limit, st)
    else s
  }

  /** How many waiting segments fit below `limit`. */
  function Room(s: Sender, limit: nat): nat {
    var free := if s.nxt < limit then limit - s.nxt else 0;
    if |s.queue| < free then |s.queue| else free
  }

  /** The first `k` waiting segments, numbered from `nxt` on. */
  function Numbered(s: Sender, k: nat, st: Stamp): (r: seq<Seg>)
    requires k <= |s.queue|
    ensures |r| == k
  {
    seq(k, i requires 0 <= i < k => Stamped(st, s.queue[i], s.nxt + i))
  }

  lemma NumberedMember(s: Sender, k: nat, st: Stamp, x: Seg) returns (i: nat)
    requires k <= |s.queue| && x in Numbered(s, k, st)
    ensures i < k && x == Stamped(st, s.queue[i], s.nxt + i) && s.queue[i] in s.queue
  {
    i :| 0 <= i < k && Numbered(s, k, st)[i] == x;
  }

  /** The window move is first-in first-out and takes the longest prefix that fits. */
  lemma {:induction false} AdmitPrefix(s: Sender, limit: nat, st: Stamp)
    ensures var k := Room(s, limit);
            Admit(s, limit, st) == s.(nxt := s.nxt + k, buf := s.buf + Numbered(s, k, st), queue := s.queue[k..])
    decreases |s.queue|
  {
    var k := Room(s, limit);
    if s.nxt < limit && s.queue != [] {
      var s1 := s.(nxt := s.nxt + 1, buf := s.buf + [Stamped(st, s.queue[0], s.nxt)], queue := s.queue[1..]);
      AdmitPrefix(s1, limit, st);
      assert Room(s1, limit) == k - 1;
      assert Numbered(s, k, st) == [Stamped(st, s.queue[0], s.nxt)] + Numbered(s1, k - 1, st);
      assert s.queue[1..][k - 1..] == s.queue[k..];
    } else {
      assert s.queue[0..] == s.queue && s.buf + Numbered(s, 0, st) == s.buf;
    }
  }

  /** The window move keeps the send side in shape and never fills more than the window: what is in
      flight afterwards is at most what was, or `cwnd`. */
  lemma AdmitStep(s: Sender, cwnd: nat, st: Stamp)
    requires Valid(s)
    ensures var t := Admit(s, s.una + cwnd, st);
            && Valid(t) && t.una == s.una && t.nxt >= s.nxt
            && (t.nxt - t.una <= s.nxt - s.una || t.nxt - t.una <= cwnd)
            && (t.queue == [] || t.nxt - t.una >= cwnd)
  {
    var limit := s.una + cwnd;
    AdmitPrefix(s, limit, st);
    AppendedValid(s, Room(s, limit), st);
    hide Admit, Valid, Numbered;
  }

  lemma AppendedValid(s: Sender, k: nat, st: Stamp)
    requires Valid(s) && k <= |s.queue|
    ensures Valid(s.(nxt := s.nxt + k, buf := s.buf + Numbered(s, k, st), queue := s.queue[k..]))
    ensures s.una <= s.nxt
  {
    var more := Numbered(s, k, st);
    if s.buf != [] {
      assert s.buf[0] in s.buf;
    }
    assert forall x :: x in more ==> s.nxt <= x.sn < s.nxt + k;
    assert forall i :: 0 <= i < k ==> more[i].sn == s.nxt + i;
    hide Numbered;
    assert forall x :: x in s.buf + more <==> x in s.buf || x in more;
    forall i, j | 0 <= i < j < |s.buf + more| ensures (s.buf + more)[i].sn < (s.buf + more)[j].sn {
      if i < |s.buf| <= j {
        assert s.buf[i] in s.buf;
      }
    }
  }
}
