/** The timeout estimator over the runs of an endpoint, with settings that change in between. */
module RttRuns {
  import opened Bytes
  import opened Lists
  import opened Segments
  import opened Endpoints
  import Congestion
  import D = Datagrams
  import R = Receivers
  import Rtt = RttEstimator
  import Runs
  import S = Senders
  import T = Retransmission

  /** The samples one datagram brings: one for each acknowledgement whose time does not lie ahead. */
  function SamplesIn(p: Pcb, segs: seq<Seg>): seq<Rtt.Sample> {
    if segs == [] then []
    else
      var n := |segs| - 1;
      SamplesIn(p, segs[..n])
      + if segs[n].cmd == CMD_ACK && p.current >= segs[n].ts
        then [Rtt.Sample(p.current - segs[n].ts, p.cfg.interval, p.cfg.minrto)] else []
  }

  /** All samples of a run, each with the settings then in force. */
  function SamplesOf(conv: nat, es: seq<Event>): seq<Rtt.Sample> {
    if es == [] then []
    else
      var n := |es| - 1;
      var p := ApplyAll(Create(conv), es[..n]);
      SamplesOf(conv, es[..n])
      + if es[n].DoInput? && |es[n].data| >= OVERHEAD
        then SamplesIn(p, D.Parse(p.cfg.conv, es[n].data).segs) else []
  }

  lemma EstimateAppend(xs: seq<Rtt.Sample>, s: Rtt.Sample)
    ensures Rtt.Estimate(xs + [s]) == Rtt.Update(Rtt.Estimate(xs), s.rtt, s.interval, s.minrto)
  {
    assert (xs + [s])[..|xs|] == xs;
    hide Rtt.Update;
  }

  lemma SegSample(a: Pass, s: Seg)
    ensures var p, q := a.pcb, ProcessSeg(a, s).pcb;
            && q.cfg == p.cfg && q.current == p.current
            && q.rtt == if s.cmd == CMD_ACK && p.current >= s.ts
                        then Rtt.Update(p.rtt, p.current - s.ts, p.cfg.interval, p.cfg.minrto) else p.rtt
  {
    hide S.ShrinkBuf, S.ParseUna, S.ParseAck, R.ParseData, Rtt.Update;
  }

  lemma {:induction false} SegsEstimate(a: Pass, segs: seq<Seg>, before: seq<Rtt.Sample>)
    requires a.pcb.rtt == Rtt.Estimate(before)
    ensures var q := ProcessAll(a, segs).pcb;
            q.rtt == Rtt.Estimate(before + SamplesIn(a.pcb, segs)) && q.cfg == a.pcb.cfg && q.current == a.pcb.current
  {
    hide ProcessSeg, Rtt.Estimate, Rtt.Update;
    AppendNothing(before);
    if segs != [] {
      var n := |segs| - 1;
      var xs := SamplesIn(a.pcb, segs[..n]);
      SegsEstimate(a, segs[..n], before);
      SegSample(ProcessAll(a, segs[..n]), segs[n]);
      AppendNothing(xs);
      if segs[n].cmd == CMD_ACK && a.pcb.current >= segs[n].ts {
        var s := Rtt.Sample(a.pcb.current - segs[n].ts, a.pcb.cfg.interval, a.pcb.cfg.minrto);
        EstimateAppend(before + xs, s);
        assert before + (xs + [s]) == (before + xs) + [s];
      }
    }
  }

  lemma {:induction false} SamplesConfigured(p: Pcb, segs: seq<Seg>)
    requires Settings(p)
    ensures forall s <- SamplesIn(p, segs) :: Rtt.Configured(s)
  {
    if segs != [] {
      SamplesConfigured(p, segs[..|segs| - 1]);
    }
  }

  predicate Settings(p: Pcb) {
    p.cfg.interval <= 5000 && RTO_NDL <= p.cfg.minrto <= RTO_MAX
  }

  /** The estimator of one step: the samples of the step go into it, and the settings stay in range. */
  lemma StepEstimate(p: Pcb, e: Event, before: seq<Rtt.Sample>)
    requires Valid(p) && Settings(p) && p.rtt == Rtt.Estimate(before)
    ensures var more := if e.DoInput? && |e.data| >= OVERHEAD then SamplesIn(p, D.Parse(p.cfg.conv, e.data).segs) else [];
            && Apply(p, e).rtt == Rtt.Estimate(before + more) && Settings(Apply(p, e))
            && forall s <- more :: Rtt.Configured(s)
  {
    AppendNothing(before);
    if e.DoInput? {
      InputEstimate(p, e.data, before);
    } else {
      OtherEstimate(p, e);
    }
    hide Apply, Rtt.Estimate, SamplesIn, D.Parse, Valid;
  }

  lemma InputEstimate(p: Pcb, data: seq<byte>, before: seq<Rtt.Sample>)
    requires Valid(p) && Settings(p) && p.rtt == Rtt.Estimate(before)
    ensures var more := if |data| >= OVERHEAD then SamplesIn(p, D.Parse(p.cfg.conv, data).segs) else [];
            && Apply(p, DoInput(data)).rtt == Rtt.Estimate(before + more) && Settings(Apply(p, DoInput(data)))
            && forall s <- more :: Rtt.Configured(s)
  {
    hide Valid, ProcessAll, D.Parse, Rtt.Estimate, SamplesIn, Congestion.Grow, S.ParseFastack;
    AppendNothing(before);
    if |data| >= OVERHEAD {
      var segs := D.Parse(p.cfg.conv, data).segs;
      SegsEstimate(Pass(p, NoAck), segs, before);
      SamplesConfigured(p, segs);
    }
  }

  lemma OtherEstimate(p: Pcb, e: Event)
    requires Settings(p) && !e.DoInput?
    ensures Apply(p, e).rtt == p.rtt && Settings(Apply(p, e))
  {
    hide Admitted, DueSegs, FlushSegs, Congestion.React, T.TouchAll;
  }

  /** In every run of an endpoint, with any settings in between, the estimator is the one `RttEstimator`
      describes, fed with the samples of the run. */
  lemma {:induction false} RttOverRuns(conv: nat, es: seq<Event>)
    ensures var p := ApplyAll(Create(conv), es);
            p.rtt == Rtt.Estimate(SamplesOf(conv, es)) && Settings(p)
    ensures forall s <- SamplesOf(conv, es) :: Rtt.Configured(s)
  {
    hide Apply, Rtt.Estimate, SamplesIn, D.Parse, Valid;
    if es == [] {
      FreshEstimate(conv);
    } else {
      var n := |es| - 1;
      var p := ApplyAll(Create(conv), es[..n]);
      RttOverRuns(conv, es[..n]);
      Runs.ReachableValid(conv, es[..n]);
      StepEstimate(p, es[n], SamplesOf(conv, es[..n]));
    }
  }

  lemma FreshEstimate(conv: nat)
    ensures Create(conv).rtt == Rtt.Estimate([]) && Settings(Create(conv))
  {
  }

  /** In every run the timeout is between 30 milliseconds and one minute; and if all samples lay in [lo, hi],
      so does the mean, the variation is at most `hi`, and the next such sample overflows no int32. */
  lemma RttBoundsOverRuns(conv: nat, es: seq<Event>, lo: nat, hi: nat, next: nat)
    requires 1 <= lo <= next <= hi < 0x1000_0000
    ensures var p := ApplyAll(Create(conv), es);
            && RTO_NDL <= p.rtt.rto <= RTO_MAX
            && ((forall s <- SamplesOf(conv, es) :: lo <= s.rtt <= hi) ==>
                  && p.rtt.rttval <= hi && (SamplesOf(conv, es) != [] ==> lo <= p.rtt.srtt <= hi)
                  && Rtt.NoOverflow(p.rtt, next, p.cfg.interval))
  {
    hide ApplyAll, Rtt.Estimate, SamplesOf, Rtt.NoOverflow;
    var p, samples := ApplyAll(Create(conv), es), SamplesOf(conv, es);
    RttOverRuns(conv, es);
    Rtt.EstimateTimeout(samples);
    if forall s <- samples :: lo <= s.rtt <= hi {
      Rtt.EstimateBounds(samples, lo, hi, Rtt.Sample(next, p.cfg.interval, p.cfg.minrto));
    }
  }

  /** In every run the floor of the timeout is 30 milliseconds with `nodelay` and 100 without, the clock granularity
      in [10, 5000]. */
  lemma {:induction false} FloorByMode(conv: nat, es: seq<Event>)
    ensures var p := ApplyAll(Create(conv), es);
            && p.cfg.minrto == (if p.cfg.nodelay > 0 then 30 else 100)
            && 10 <= p.cfg.interval <= 5000
  {
    hide Input, Flush;
    if es != [] {
      var n := |es| - 1;
      FloorByMode(conv, es[..n]);
      Runs.ReachableValid(conv, es[..n]);
      var p := ApplyAll(Create(conv), es[..n]);
      if es[n].DoInput? {
        Runs.InputFrame(p, es[n].data);
      } else if es[n].DoFlush? {
        Runs.FlushKeeps(p);
      }
    }
    hide Valid;
  }

  /** Settings are taken exactly when none is negative, as they are, but for the interval, which is brought into
      [10, 5000] by the shortest way, and the floor, which follows the mode; nothing but the settings changes. */
  lemma SettingsTaken(p: Pcb, nodelay: int, interval: int, resend: int, nc: int)
    ensures var o := SetNodelay(p, nodelay, interval, resend, nc);
            var c := o.pcb.cfg;
            && (o.code == 0 <==> nodelay >= 0 && interval >= 0 && resend >= 0 && nc >= 0)
            && (o.code != 0 ==> o.pcb == p && o.code == -1)
            && o.pcb == p.(cfg := c)
            && (o.code == 0 ==>
                  && c.nodelay == nodelay && c.fastResend == resend && c.nocwnd == nc
                  && c.minrto == (if nodelay > 0 then 30 else 100) && 10 <= c.interval <= 5000
                  && forall i: nat :: 10 <= i <= 5000 ==> Rtt.Distance(c.interval, interval) <= Rtt.Distance(i, interval))
            && c == p.cfg.(nodelay := c.nodelay, minrto := c.minrto, interval := c.interval,
                           fastResend := c.fastResend, nocwnd := c.nocwnd)
  {
  }
}
