/** Cutting messages into fragments and putting them together again (`Send`, kcp/kcp.go; the
    meaning of `frg`, kcp/README_CN.md). */
module Messages {
  import opened Arithmetic
  import opened Bytes
  import opened Lists
  import opened Segments

  const MAX_FRAGMENTS := 255

  /** Pieces of `mss` bytes, the last one possibly shorter. */
  function Pieces(buf: seq<byte>, mss: nat): (r: seq<seq<byte>>)
    requires mss > 0
    ensures |r| >= 1
  {
    if |buf| <= mss then [buf] else [buf[..mss]] + Pieces(buf[mss..], mss)
  }

  /** How many pieces `Send` cuts, by one division rounding up. */
  function PieceCount(n: nat, mss: nat): nat
    requires mss > 0
  {
    if n <= mss then 1 else (n + mss - 1) / mss
  }

  /** The pieces with their countdown: `frg` says how many more belong to the message. */
  function Fragment(buf: seq<byte>, mss: nat): seq<Payload>
    requires mss > 0
  {
    var ps := Pieces(buf, mss);
    seq(|ps|, i requires 0 <= i < |ps| => Payload(|ps| - 1 - i, ps[i]))
  }

  function FragmentAll(msgs: seq<seq<byte>>, mss: nat): seq<Payload>
    requires mss > 0
  {
    if msgs == [] then []
    else FragmentAll(msgs[..|msgs| - 1], mss) + Fragment(msgs[|msgs| - 1], mss)
  }

  /** Complete messages, and the bytes of the one still being put together. */
  datatype Grouped = Grouped(done: seq<seq<byte>>, open: seq<byte>)

  /** The reader's view of a received queue: a message ends at `frg` 0. */
  function Regroup(ps: seq<Payload>): Grouped {
    if ps == [] then Grouped([], [])
    else
      var g, p := Regroup(ps[..|ps| - 1]), ps[|ps| - 1];
      if p.frg == 0 then Grouped(g.done + [g.open + p.data], []) else g.(open := g.open + p.data)
  }

  function Concat(ps: seq<seq<byte>>): seq<byte> {
    if ps == [] then [] else Concat(ps[..|ps| - 1]) + ps[|ps| - 1]
  }

  lemma {:induction false} ConcatFront(p: seq<byte>, ps: seq<seq<byte>>)
    ensures Concat([p] + ps) == p + Concat(ps)
  {
    if ps == [] {
      assert ([p] + ps)[..0] == [];
    } else {
      var n := |ps| - 1;
      assert ([p] + ps)[..n + 1] == [p] + ps[..n];
      ConcatFront(p, ps[..n]);
    }
  }

  lemma CountStep(n: nat, mss: nat)
    requires n > mss > 0
    ensures PieceCount(n, mss) == 1 + PieceCount(n - mss, mss)
  {
    var m := n - mss;
    if m <= mss {
      DivisionUnique(n + mss - 1, mss, 2, m - 1);
    } else {
      var q, r := (m + mss - 1) / mss, (m + mss - 1) % mss;
      assert m + mss - 1 == q * mss + r;
      assert (q + 1) * mss == q * mss + mss;
      DivisionUnique(n + mss - 1, mss, q + 1, r);
    }
  }

  /** The pieces are as many as the division says, none is empty or longer than `mss`, and together
      they are the message. */
  lemma {:induction false} PiecesCover(buf: seq<byte>, mss: nat)
    requires mss > 0 && buf != []
    ensures |Pieces(buf, mss)| == PieceCount(|buf|, mss)
    ensures forall p <- Pieces(buf, mss) :: 1 <= |p| <= mss
    ensures Concat(Pieces(buf, mss)) == buf
    decreases |buf|
  {
    if |buf| <= mss {
      ConcatFront(buf, []);
      assert [buf] + [] == [buf];
    } else {
      var head, rest := buf[..mss], buf[mss..];
      SplitMembers(buf, mss);
      CountStep(|buf|, mss);
      PiecesCover(rest, mss);
      PiecesStep(buf, mss);
      hide PieceCount, Concat, Pieces;
      ConcatFront(head, Pieces(rest, mss));
    }
  }

  lemma PiecesStep(buf: seq<byte>, mss: nat)
    requires |buf| > mss > 0
    ensures Pieces(buf, mss) == [buf[..mss]] + Pieces(buf[mss..], mss)
  {
  }

  /** Reading more never changes the messages already read. */
  lemma {:induction false} RegroupMonotone(ps: seq<Payload>, qs: seq<Payload>)
    requires ps <= qs
    ensures Regroup(ps).done <= Regroup(qs).done
  {
    if ps != qs {
      RegroupMonotone(ps, qs[..|qs| - 1]);
    } else {
      assert ps[..] == qs[..];
    }
  }

  lemma {:induction false} RegroupInside(before: seq<Payload>, buf: seq<byte>, mss: nat, k: nat)
    requires mss > 0 && k < |Pieces(buf, mss)|
    requires Regroup(before).open == []
    ensures Regroup(before + Fragment(buf, mss)[..k])
         == Grouped(Regroup(before).done, Concat(Pieces(buf, mss)[..k]))
  {
    hide Regroup, Concat, Pieces;
    var f, ps := Fragment(buf, mss), Pieces(buf, mss);
    if k == 0 {
      assert before + f[..0] == before;
      NoPieces();
    } else {
      RegroupInside(before, buf, mss, k - 1);
      assert before + f[..k] == (before + f[..k - 1]) + [f[k - 1]];
      RegroupStep(before + f[..k - 1], f[k - 1]);
      assert ps[..k][..k - 1] == ps[..k - 1];
      ConcatLast(ps[..k]);
    }
  }

  lemma NoPieces()
    ensures Concat([]) == []
  {
  }

  lemma RegroupMessage(before: seq<Payload>, buf: seq<byte>, mss: nat)
    requires mss > 0 && buf != [] && Regroup(before).open == []
    ensures Regroup(before + Fragment(buf, mss)) == Grouped(Regroup(before).done + [buf], [])
  {
    hide Regroup, Concat, Fragment, Pieces;
    var f, ps := Fragment(buf, mss), Pieces(buf, mss);
    FragmentSize(buf, mss);
    var k := |ps| - 1;
    RegroupInside(before, buf, mss, k);
    PiecesCover(buf, mss);
    AppendSplit(before, f);
    RegroupStep(before + f[..k], f[k]);
    ConcatLast(ps);
    LastFragment(buf, mss);
  }

  lemma LastFragment(buf: seq<byte>, mss: nat)
    requires mss > 0
    ensures var ps := Pieces(buf, mss); |Fragment(buf, mss)| == |ps| && Fragment(buf, mss)[|ps| - 1] == Payload(0, ps[|ps| - 1])
  {
  }

  lemma ConcatLast(ps: seq<seq<byte>>)
    requires ps != []
    ensures Concat(ps) == Concat(ps[..|ps| - 1]) + ps[|ps| - 1]
  {
  }

  lemma RegroupStep(ps: seq<Payload>, p: Payload)
    ensures Regroup(ps + [p]) == var g := Regroup(ps);
              if p.frg == 0 then Grouped(g.done + [g.open + p.data], []) else g.(open := g.open + p.data)
  {
    assert (ps + [p])[..|ps|] == ps;
  }

  /** Fragmenting then regrouping is the identity on every list of messages. */
  lemma {:induction false} RegroupFragments(msgs: seq<seq<byte>>, mss: nat)
    requires mss > 0 && forall m <- msgs :: m != []
    ensures Regroup(FragmentAll(msgs, mss)) == Grouped(msgs, [])
    decreases |msgs|
  {
    if msgs == [] {
      assert Regroup([]) == Grouped([], []);
    } else {
      var before, m := msgs[..|msgs| - 1], msgs[|msgs| - 1];
      assert msgs == before + [m];
      assert m in msgs && forall x <- before :: x in msgs;
      RegroupLast(before, m, mss);
    }
  }

  lemma {:induction false} RegroupLast(msgs: seq<seq<byte>>, m: seq<byte>, mss: nat)
    requires mss > 0 && m != [] && forall m <- msgs :: m != []
    ensures Regroup(FragmentAll(msgs + [m], mss)) == Grouped(msgs + [m], [])
    decreases |msgs| + 1, 0
  {
    hide Regroup, Fragment;
    RegroupFragments(msgs, mss);
    assert (msgs + [m])[..|msgs|] == msgs;
    RegroupMessage(FragmentAll(msgs, mss), m, mss);
  }

  /** Any prefix of the fragments, however it was cut, reads as a prefix of the messages. */
  lemma PrefixOfMessages(msgs: seq<seq<byte>>, mss: nat, ps: seq<Payload>)
    requires mss > 0 && forall m <- msgs :: m != []
    requires ps <= FragmentAll(msgs, mss)
    ensures Regroup(ps).done <= msgs
  {
    RegroupMonotone(ps, FragmentAll(msgs, mss));
    RegroupFragments(msgs, mss);
  }

  lemma {:induction false} FragmentAllPrefix(msgs: seq<seq<byte>>, mss: nat, k: nat)
    requires mss > 0 && k <= |msgs|
    ensures FragmentAll(msgs[..k], mss) <= FragmentAll(msgs, mss)
  {
    if k == |msgs| {
      assert msgs[..k] == msgs;
    } else {
      var n := |msgs| - 1;
      FragmentAllPrefix(msgs[..n], mss, k);
      assert msgs[..n][..k] == msgs[..k];
    }
  }

  /** Without its last fragment a message is not read. */
  lemma LastFragmentMissing(msgs: seq<seq<byte>>, mss: nat)
    requires mss > 0 && msgs != [] && forall m <- msgs :: m != []
    ensures var f := FragmentAll(msgs, mss); f != [] && |Regroup(f[..|f| - 1]).done| == |msgs| - 1
  {
    hide Regroup, FragmentAll, Fragment, Pieces;
    var n := |msgs| - 1;
    assert msgs[n] in msgs && forall m <- msgs[..n] :: m in msgs;
    RegroupFragments(msgs[..n], mss);
    FragmentAllStep(msgs, mss);
    FragmentSize(msgs[n], mss);
    var before, f := FragmentAll(msgs[..n], mss), Fragment(msgs[n], mss);
    RegroupInside(before, msgs[n], mss, |f| - 1);
    AppendSplit(before, f);
    assert (before + f)[..|before + f| - 1] == before + f[..|f| - 1];
  }

  lemma FragmentAllStep(msgs: seq<seq<byte>>, mss: nat)
    requires mss > 0 && msgs != []
    ensures FragmentAll(msgs, mss) == FragmentAll(msgs[..|msgs| - 1], mss) + Fragment(msgs[|msgs| - 1], mss)
  {
  }

  lemma FragmentSize(buf: seq<byte>, mss: nat)
    requires mss > 0
    ensures |Fragment(buf, mss)| == |Pieces(buf, mss)| >= 1
  {
  }

  /** A message is read exactly when its fragments, and all before them, have arrived. */
  lemma ReadExactlyWhenComplete(msgs: seq<seq<byte>>, mss: nat, ps: seq<Payload>, k: nat)
    requires mss > 0 && forall m <- msgs :: m != []
    requires ps <= FragmentAll(msgs, mss) && k <= |msgs|
    ensures k <= |Regroup(ps).done| <==> FragmentAll(msgs[..k], mss) <= ps
  {
    FragmentAllPrefix(msgs, mss, k);
    assert forall m <- msgs[..k] :: m in msgs;
    if k == 0 {
      NoFragments(mss);
      assert msgs[..k] == [];
    } else {
      ReadExactly(msgs[..k], mss, ps, FragmentAll(msgs, mss));
    }
  }

  /** All of `msgs` is read from a prefix `ps` of some longer history exactly when `ps` has all its fragments. */
  lemma ReadExactly(msgs: seq<seq<byte>>, mss: nat, ps: seq<Payload>, all: seq<Payload>)
    requires mss > 0 && msgs != [] && forall m <- msgs :: m != []
    requires ps <= all && FragmentAll(msgs, mss) <= all
    ensures |msgs| <= |Regroup(ps).done| <==> FragmentAll(msgs, mss) <= ps
  {
    var f := FragmentAll(msgs, mss);
    hide Regroup, FragmentAll;
    if |f| <= |ps| {
      assert f <= ps;
      RegroupMonotone(f, ps);
      RegroupFragments(msgs, mss);
    } else {
      LastFragmentMissing(msgs, mss);
      assert ps <= f[..|f| - 1];
      RegroupMonotone(ps, f[..|f| - 1]);
    }
  }

  lemma NoFragments(mss: nat)
    requires mss > 0
    ensures FragmentAll([], mss) == []
  {
  }
}
