/** Lists edited while they are ranged over, as written: `Parse_Una` and `Parse_Data` (kcp/parse.go). */
module WrittenDeletions {
  import opened Departures
  import opened Lists
  import opened Segments
  import R = Receivers
  import S = Senders

  // ----- kcp/parse.go:9-18: deleting while ranging -----

  /** `append(x[:i], x[i+1:]...)` on a slice of length `cur` over the array `arr`: later elements move down, and
      the place of the last one keeps what it held. */
  function Shifted(arr: seq<Seg>, cur: nat, i: nat): (r: seq<Seg>)
    requires i < cur <= |arr|
    ensures |r| == |arr|
  {
    arr[..i] + arr[i + 1..cur] + arr[cur - 1..]
  }

  /** The range loop from index `i` on. It reads the elements of the old slice header, `arr`, while each
      deletion shifts the shared backing array and shortens the current slice, now `cur` long. */
  function WrittenUna(arr: seq<Seg>, cur: nat, i: nat, una: nat): Go<seq<Seg>>
    requires cur <= |arr| && i <= |arr|
    decreases |arr| - i
  {
    if i == |arr| then Done(arr[..cur])
    else if una <= arr[i].sn then WrittenUna(arr, cur, i + 1, una)
    else if i + 1 > cur then Panic
    else WrittenUna(Shifted(arr, cur, i), cur - 1, i + 1, una)
  }

  lemma {:induction false} NothingMoreBelow(arr: seq<Seg>, cur: nat, i: nat, una: nat)
    requires cur <= |arr| && i <= |arr| && forall j :: i <= j < |arr| ==> arr[j].sn >= una
    ensures WrittenUna(arr, cur, i, una) == Done(arr[..cur])
    decreases |arr| - i
  {
    if i < |arr| {
      NothingMoreBelow(arr, cur, i + 1, una);
    }
  }

  lemma {:induction false} FirstStays(arr: seq<Seg>, cur: nat, i: nat, una: nat)
    requires 1 <= cur <= |arr| && 1 <= i <= |arr|
    ensures var r := WrittenUna(arr, cur, i, una); r == Panic || (r.value != [] && r.value[0] == arr[0])
    decreases |arr| - i
  {
    if i < |arr| {
      if una <= arr[i].sn {
        FirstStays(arr, cur, i + 1, una);
      } else if i + 1 <= cur {
        FirstStays(Shifted(arr, cur, i), cur - 1, i + 1, una);
      }
    }
  }

  lemma {:induction false} DropNone(buf: seq<Seg>, una: nat)
    requires forall i :: 0 <= i < |buf| ==> buf[i].sn >= una
    ensures S.DropBelow(buf, una) == buf
  {
    if buf != [] {
      DropNone(buf[..|buf| - 1], una);
      SplitLast(buf);
    }
  }

  lemma {:induction false} DropAll(buf: seq<Seg>, una: nat)
    requires forall i :: 0 <= i < |buf| ==> buf[i].sn < una
    ensures S.DropBelow(buf, una) == []
  {
    if buf != [] {
      DropAll(buf[..|buf| - 1], una);
    }
  }

  /** The written loop removes exactly the acknowledged segments when at most one is acknowledged, and
      in no other case: with two or more it skips the second, or panics. */
  lemma WrittenUnaIffOne(buf: seq<Seg>, una: nat)
    requires Ascending(buf)
    ensures WrittenUna(buf, |buf|, 0, una) == Done(S.DropBelow(buf, una)) <==> |buf| < 2 || una <= buf[1].sn
  {
    hide WrittenUna, S.DropBelow, Ascending, Shifted;
    var n := |buf|;
    if buf == [] || una <= buf[0].sn {
      NoneBelow(buf, una);
    } else {
      DeleteStep(buf, n, 0, una);
      ShiftedFirst(buf);
      var arr := buf[1..] + [buf[n - 1]];
      if n < 2 || una <= buf[1].sn {
        DropFirst(buf, una);
        assert arr[..n - 1] == buf[1..];
        NothingMoreBelow(arr, n - 1, 1, una);
      } else {
        FirstStays(arr, n - 1, 1, una);
        S.DropBelowMembers(buf, una);
        assert buf[1] !in S.DropBelow(buf, una);
      }
    }
  }

  lemma NoneBelow(buf: seq<Seg>, una: nat)
    requires Ascending(buf) && (buf == [] || una <= buf[0].sn)
    ensures WrittenUna(buf, |buf|, 0, una) == Done(S.DropBelow(buf, una)) && (|buf| < 2 || una <= buf[1].sn)
  {
    NothingMoreBelow(buf, |buf|, 0, una);
    DropNone(buf, una);
    assert buf[..|buf|] == buf;
    hide WrittenUna, S.DropBelow;
  }

  /** One deletion of the loop. */
  lemma DeleteStep(arr: seq<Seg>, cur: nat, i: nat, una: nat)
    requires i < cur <= |arr| && una > arr[i].sn
    ensures WrittenUna(arr, cur, i, una) == WrittenUna(Shifted(arr, cur, i), cur - 1, i + 1, una)
  {
    hide Shifted;
  }

  lemma ShiftedFirst(buf: seq<Seg>)
    requires buf != []
    ensures Shifted(buf, |buf|, 0) == buf[1..] + [buf[|buf| - 1]]
  {
  }

  /** With one segment below `una` the filter drops just that one. */
  lemma DropFirst(buf: seq<Seg>, una: nat)
    requires Ascending(buf) && buf != [] && una > buf[0].sn && (|buf| < 2 || una <= buf[1].sn)
    ensures S.DropBelow(buf, una) == buf[1..] && forall j :: 1 <= j < |buf| ==> buf[j].sn >= una
  {
    hide S.DropBelow, Ascending;
    RestAbove(buf, una);
    S.DropBelowMembers(buf, una);
    S.DropBelowSorted(buf, una);
    AscendingUnique(buf[1..], S.DropBelow(buf, una));
  }

  lemma RestAbove(buf: seq<Seg>, una: nat)
    requires Ascending(buf) && buf != [] && una > buf[0].sn && (|buf| < 2 || una <= buf[1].sn)
    ensures Ascending(buf[1..]) && (forall j :: 1 <= j < |buf| ==> buf[j].sn >= una)
    ensures forall x :: x in buf[1..] <==> x in buf && x.sn >= una
  {
    TailMembers(buf);
    assert forall x :: x in buf[1..] ==> x.sn >= una;
  }

  // ----- kcp/parse.go:98-108: draining while ranging -----

  /** The range loop from index `i` on, with the queue and `Rcv_nxt` carried in `r`. */
  function WrittenDrain(arr: seq<Seg>, cur: nat, i: nat, r: R.Receiver): Go<R.Receiver>
    requires cur <= |arr| && i <= |arr|
    decreases |arr| - i
  {
    if i == |arr| || arr[i].sn != r.nxt || |r.queue| >= r.wnd then Done(r.(buf := arr[..cur]))
    else if i + 1 > cur then Panic
    else WrittenDrain(Shifted(arr, cur, i), cur - 1, i + 1,
                      r.(nxt := r.nxt + 1, queue := r.queue + [arr[i]]))
  }

  lemma DrainMoves(r: R.Receiver)
    requires R.Valid(r)
    ensures R.Drain(r) == r <==> R.Settled(r)
  {
    var k := R.DrainRun(r);
    if !R.Settled(r) {
      R.TakeHeadValid(r);
      var j := R.DrainRun(R.TakeHead(r));
      assert R.Drain(r).nxt > r.nxt;
    }
  }

  /** The written loop delivers what is available exactly when at most one segment is: with two it
      leaves the second behind, or panics. */
  lemma WrittenDrainIffOne(r: R.Receiver)
    requires R.Valid(r)
    ensures WrittenDrain(r.buf, |r.buf|, 0, r) == Done(R.Drain(r)) <==> R.Settled(r) || R.Settled(R.TakeHead(r))
  {
    if R.Settled(r) {
      assert r.buf[..|r.buf|] == r.buf;
    } else {
      R.TakeHeadValid(r);
      DrainMoves(R.TakeHead(r));
      WrittenDrainSecond(r);
    }
  }

  /** After the first segment the loop stops, or panics on a second one at the end of the array. */
  lemma WrittenDrainSecond(r: R.Receiver)
    requires R.Valid(r) && !R.Settled(r)
    ensures var d := WrittenDrain(r.buf, |r.buf|, 0, r);
            d == Done(R.TakeHead(r)) || (d == Panic && !R.Settled(R.TakeHead(r)))
  {
    hide R.Valid, R.Drain, WrittenDrain;
    var n := |r.buf|;
    var arr, h := r.buf[1..] + [r.buf[n - 1]], R.TakeHead(r);
    var r1 := h.(buf := r.buf);
    DrainOnce(r);
    SortedNumbers(r);
    assert arr[..n - 1] == h.buf && r1.(buf := h.buf) == h;
    if n >= 3 {
      assert arr[1] == r.buf[2] && r.buf[2].sn > r.buf[1].sn > r.buf[0].sn == r.nxt;
    } else if n == 2 {
      assert arr[1] == h.buf[0];
    }
    DrainStops(arr, n - 1, r1);
  }

  lemma SortedNumbers(r: R.Receiver)
    requires R.Valid(r)
    ensures forall i, j :: 0 <= i < j < |r.buf| ==> r.buf[i].sn < r.buf[j].sn
  {
  }

  lemma DrainOnce(r: R.Receiver)
    requires !R.Settled(r)
    ensures WrittenDrain(r.buf, |r.buf|, 0, r)
         == WrittenDrain(r.buf[1..] + [r.buf[|r.buf| - 1]], |r.buf| - 1, 1, R.TakeHead(r).(buf := r.buf))
  {
    hide Shifted;
    ShiftedFirst(r.buf);
  }

  lemma DrainStops(arr: seq<Seg>, cur: nat, r: R.Receiver)
    requires cur <= |arr| == cur + 1 && (cur > 1 ==> arr[1].sn != r.nxt)
    ensures WrittenDrain(arr, cur, 1, r)
         == if cur == 1 && arr[1].sn == r.nxt && |r.queue| < r.wnd then Panic else Done(r.(buf := arr[..cur]))
  {
  }

  // ----- kcp/parse.go:80-95: duplicate scan and insertion -----

  predicate WrittenScan(buf: seq<Seg>, sn: nat) {
    buf != [] && (buf[0].sn == sn || (sn < buf[0].sn && WrittenScan(buf[1..], sn)))
  }

  function WrittenStore(buf: seq<Seg>, s: Seg): seq<Seg> {
    if WrittenScan(buf, s.sn) then buf else buf + [s]
  }

  function Store(buf: seq<Seg>, s: Seg): seq<Seg> {
    if R.Duplicate(buf, s.sn) then buf else R.Insert(buf, s)
  }

  lemma {:induction false} ScanSeesOnlyHead(buf: seq<Seg>, sn: nat)
    requires Ascending(buf)
    ensures WrittenScan(buf, sn) <==> buf != [] && buf[0].sn == sn
  {
    if buf != [] && sn < buf[0].sn {
      ScanSeesOnlyHead(buf[1..], sn);
    }
  }

  /** The written form keeps the buffer sorted and free of duplicates exactly for a segment that
      repeats the head or goes to the end. */
  lemma WrittenStoreIffHeadOrEnd(buf: seq<Seg>, s: Seg)
    requires Ascending(buf)
    ensures WrittenStore(buf, s) == Store(buf, s) <==> buf == [] || s.sn == buf[0].sn || s.sn > buf[|buf| - 1].sn
  {
    ScanSeesOnlyHead(buf, s.sn);
    var p := Position(buf, s.sn);
    if buf == [] || s.sn > buf[|buf| - 1].sn {
      assert p == |buf| && buf[..p] + [s] + buf[p..] == buf + [s];
    } else if s.sn != buf[0].sn {
      assert p < |buf| && (buf + [s])[p] == buf[p];
      assert R.Insert(buf, s)[p] == s;
      assert |buf + [s]| != |buf|;
    } else {
      assert p == 0;
    }
  }
}
