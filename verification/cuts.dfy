/** `Send` as written: the number of pieces is rounded down (kcp/kcp.go:55-86). */
module WrittenCuts {
  import opened Bytes
  import opened Compare
  import opened Segments
  import opened Endpoints
  import Arithmetic
  import M = Messages

  function WrittenCount(n: nat, mss: nat): nat
    requires mss > 0
  {
    if n > mss then n / mss else 1
  }

  function WrittenPieces(buf: seq<byte>, mss: nat, count: nat): (r: seq<seq<byte>>)
    ensures |r| == count
  {
    if count == 0 then []
    else [buf[..Min(|buf|, mss)]] + WrittenPieces(buf[Min(|buf|, mss)..], mss, count - 1)
  }

  lemma PiecesStep(buf: seq<byte>, mss: nat, count: nat)
    ensures M.Concat(WrittenPieces(buf, mss, 0)) == []
    ensures count > 0 ==>
              var k := Min(|buf|, mss);
              WrittenPieces(buf, mss, count) == [buf[..k]] + WrittenPieces(buf[k..], mss, count - 1)
  {
  }

  lemma {:induction false} WrittenPiecesCover(buf: seq<byte>, mss: nat, count: nat)
    ensures M.Concat(WrittenPieces(buf, mss, count)) == buf[..Min(|buf|, count * mss)]
    decreases count
  {
    hide M.Concat, WrittenPieces;
    PiecesStep(buf, mss, count);
    if count > 0 {
      var k := Min(|buf|, mss);
      var rest := Min(|buf| - k, (count - 1) * mss);
      WrittenPiecesCover(buf[k..], mss, count - 1);
      M.ConcatFront(buf[..k], WrittenPieces(buf[k..], mss, count - 1));
      Arithmetic.Distribute(count - 1, 1, mss);
      Cut(buf, k, rest);
    }
  }

  lemma Cut(buf: seq<byte>, k: nat, n: nat)
    requires k + n <= |buf|
    ensures buf[..k] + buf[k..][..n] == buf[..k + n]
  {
  }

  /** The written cut keeps the whole message exactly when it fits one segment or divides evenly. */
  lemma WrittenCutLosesTail(buf: seq<byte>, mss: nat)
    requires mss > 0
    ensures M.Concat(WrittenPieces(buf, mss, WrittenCount(|buf|, mss))) == buf
       <==> |buf| <= mss || |buf| % mss == 0
  {
    var n := |buf|;
    hide M.Concat, WrittenPieces;
    var k := WrittenCount(n, mss);
    WrittenPiecesCover(buf, mss, k);
    Arithmetic.DividesIff(n, mss);
    Arithmetic.QuotientFloor(n, mss);
    assert k * mss >= n || k == n / mss;
    assert buf[..Min(n, k * mss)] == buf <==> n <= k * mss;
  }

  /** The cut with its countdown. */
  function WrittenFragment(buf: seq<byte>, mss: nat): seq<Payload>
    requires mss > 0
  {
    var k := WrittenCount(|buf|, mss);
    var ps := WrittenPieces(buf, mss, k);
    seq(k, i requires 0 <= i < k => Payload(k - i - 1, ps[i]))
  }

  /** `Send` as written, with its refusals. */
  function WrittenSend(p: Pcb, buf: seq<byte>): Outcome {
    if |buf| == 0 || p.cfg.mss == 0 then Outcome(p, -1)
    else if WrittenCount(|buf|, p.cfg.mss) > M.MAX_FRAGMENTS then Outcome(p, -2)
    else Outcome(p.(snd := p.snd.(queue := p.snd.queue + WaitingAll(WrittenFragment(buf, p.cfg.mss)))), 0)
  }

  /** Both divisions, against the limit and against each other. */
  lemma Counts(n: nat, mss: nat)
    requires 0 < mss < n
    ensures M.PieceCount(n, mss) == n / mss + if n % mss == 0 then 0 else 1
    ensures WrittenCount(n, mss) > M.MAX_FRAGMENTS <==> n >= 256 * mss
  {
    var q, r := n / mss, n % mss;
    assert n == q * mss + r;
    if r == 0 {
      Arithmetic.DivisionUnique(n + mss - 1, mss, q, mss - 1);
    } else {
      Arithmetic.Distribute(q, 1, mss);
      Arithmetic.DivisionUnique(n + mss - 1, mss, q + 1, r - 1);
    }
    Arithmetic.QuotientFloor(n, mss);
    if q >= 256 {
      Arithmetic.ProductBound(256, q, mss);
    } else {
      Arithmetic.ProductBound(q + 1, 256, mss);
      Arithmetic.Distribute(q, 1, mss);
    }
  }

  lemma {:induction false} EvenPieces(buf: seq<byte>, mss: nat, k: nat)
    requires mss > 0 && k > 0 && |buf| == k * mss
    ensures WrittenPieces(buf, mss, k) == M.Pieces(buf, mss)
    decreases k
  {
    Arithmetic.Distribute(k - 1, 1, mss);
    if k > 1 {
      Arithmetic.ProductBound(1, k - 1, mss);
      EvenPieces(buf[mss..], mss, k - 1);
    } else {
      assert WrittenPieces(buf[mss..], mss, 0) == [];
      assert buf[..mss] == buf;
    }
  }

  lemma OnePiece(buf: seq<byte>, mss: nat)
    requires mss > 0 && |buf| <= mss
    ensures WrittenPieces(buf, mss, 1) == M.Pieces(buf, mss)
  {
    assert WrittenPieces(buf[|buf|..], mss, 0) == [];
    assert buf[..|buf|] == buf;
  }

  /** The written fragments are the intended ones exactly when nothing is left over. */
  lemma WrittenFragmentIff(buf: seq<byte>, mss: nat)
    requires mss > 0 && buf != []
    ensures WrittenFragment(buf, mss) == M.Fragment(buf, mss) <==> |buf| <= mss || |buf| % mss == 0
    ensures |M.Fragment(buf, mss)| == M.PieceCount(|buf|, mss)
  {
    hide M.Pieces, WrittenPieces;
    M.PiecesCover(buf, mss);
    if |buf| <= mss {
      OnePiece(buf, mss);
    } else {
      Counts(|buf|, mss);
      Arithmetic.DividesIff(|buf|, mss);
      if |buf| % mss == 0 {
        EvenPieces(buf, mss, |buf| / mss);
      }
    }
  }

  lemma AppendedEqual(queue: seq<Seg>, xs: seq<Payload>, ys: seq<Payload>)
    ensures queue + WaitingAll(xs) == queue + WaitingAll(ys) <==> xs == ys
  {
    if queue + WaitingAll(xs) == queue + WaitingAll(ys) {
      assert |xs| == |ys|;
      forall i | 0 <= i < |xs| ensures xs[i] == ys[i] {
        assert (queue + WaitingAll(xs))[|queue| + i] == Waiting(xs[i]);
        assert (queue + WaitingAll(ys))[|queue| + i] == Waiting(ys[i]);
      }
    }
  }

  /** The written `Send` does what is intended, fragment by fragment and code by code, exactly for a message
      that fits one segment, divides evenly, or is refused for having 256 whole pieces. */
  lemma WrittenSendIff(p: Pcb, buf: seq<byte>)
    requires p.cfg.mss > 0
    ensures WrittenSend(p, buf) == Endpoints.Send(p, buf)
       <==> |buf| <= p.cfg.mss || |buf| % p.cfg.mss == 0 || |buf| >= 256 * p.cfg.mss
  {
    hide WaitingAll, M.Fragment, WrittenFragment, M.PieceCount, WrittenCount;
    var n, mss := |buf|, p.cfg.mss;
    if buf != [] {
      WrittenFragmentIff(buf, mss);
      AppendedEqual(p.snd.queue, WrittenFragment(buf, mss), M.Fragment(buf, mss));
      SmallCounts(n, mss);
      if n > mss {
        Counts(n, mss);
      }
    }
  }

  lemma SmallCounts(n: nat, mss: nat)
    requires mss > 0
    ensures n <= mss ==> WrittenCount(n, mss) == 1 && M.PieceCount(n, mss) == 1
    ensures n > mss ==> WrittenCount(n, mss) == n / mss
  {
  }

  /** One byte more than a segment: accepted, and the byte is lost. */
  lemma WrittenSendLosesOneByte(conv: nat, buf: seq<byte>)
    requires |buf| == MTU_DEF - OVERHEAD + 1
    ensures var w, t := WrittenSend(Create(conv), buf), Endpoints.Send(Create(conv), buf);
            && w.code == 0 && w.pcb.snd.queue == [Waiting(Payload(0, buf[..|buf| - 1]))]
            && t.code == 0 && |t.pcb.snd.queue| == 2
  {
    var mss := MTU_DEF - OVERHEAD;
    assert WrittenPieces(buf[mss..], mss, 0) == [];
    M.PiecesCover(buf, mss);
  }
}
