# A verified model of golang_tools: KCP engine, log retention, framed TCP pipeline

The project models three parts of the repository and proves what they are for.

**The KCP engine (`kcp/`).** An ARQ protocol over datagrams that may be lost, duplicated, delayed and
reordered. `Send` cuts messages into numbered-down fragments, `Flush` numbers, transmits and retransmits
them under a sliding window, `Input` takes datagrams apart, handles acknowledgements, reorders data and
opens the congestion window.

- `segment.dfy`, `datagram.dfy`, `bytes.dfy`: the 24-byte header, the parse loop, the packing of datagrams.
- `receiver.dfy`, `sender.dfy`, `rtt.dfy`, `congestion.dfy`, `probe.dfy`, `messages.dfy`, `retransmit.dfy`:
  one concern each, as values and functions with their laws.
- `endpoint.dfy`: one endpoint as a value, and what every call does to it.
- `ikcpcb.dfy`: the control block as the class the source has, field by field. Every method, with its loops,
  is proved to do to the value of the object (`View`) what `endpoint.dfy` says; the theorems about values are
  therefore theorems about the object.
- `runs.dfy`, `emission.dfy`, `echo.dfy`, `windows.dfy`, `histories.dfy`, `schedule.dfy`, `fastack.dfy`, `rttruns.dfy`:
  one endpoint over all its runs, with any calls, clock values, settings and bytes received. `backoff.dfy` says what the
  histories of transmissions in them are worth.
- `network.dfy`: two endpoints and the datagrams in flight as a transition system. The main result is
  `Network.Reliability`; `progress.dfy` adds what one exchange of datagrams achieves, and `rounds.dfy` that repeated
  exchanges get everything read.
- `departures.dfy`, `cuts.dfy`, `deletions.dfy`, `headers.dfy`, `copied.dfy`, `acklist.dfy`, `lagging.dfy`, `scenario.dfy`: see below.

**Log retention (`zlog/lumberjack.go`).** `retention.dfy` has the passes of `millRunOnce` as loops and what the
plan is worth; `lognames.dfy` has the names of backups, the scan of a directory and a whole retention run as a
step on the directory. The main results are `Retention.PlanCorrect`, `Retention.NewestSurvive` and
`LogNames.SecondRunChangesNothing`.

**Framed pipeline (`net/clientConn/client_conn.go`).** `framing.dfy` has frames on a byte stream, with the reading
side as a class; `pipeline.dfy` has reader, handler, writer and outside senders joined by unbuffered channels as a
transition system. The main results are `Framing.ReadingIsExact`, `Framing.TruncatedStream`,
`Pipeline.PipelineSafety` and `Pipeline.NothingLost`.

`compare.dfy` is `lib/compare.go`; `arithmetic.dfy` and `lists.dfy` hold facts without a counterpart in the source.

## Intended and written form

In several places the code does not do what its own comments say. The intent is stated at kcp/kcp.go:228-252,
kcp/README_CN.md:11-32 and kcp/define.go:38-106 for the engine, and at zlog/lumberjack.go:81-87 for the names of
backups. The model above takes the intended form; each written form is modelled on its own in `departures.dfy`,
`cuts.dfy`, `deletions.dfy` and `headers.dfy` (for the names of backups in `lognames.dfy`). For each there is a lemma that says exactly when it does what is intended, as
a condition on its input, and one at a concrete state that an endpoint reaches and in which it does not (for the
prefix: exactly which names have it, and that no backup whose time is printed in the same layout does). Three of
them are followed over whole runs in which everything else is as intended.

| written form | intended form | exactly when right | a reachable failure | over all runs |
|---|---|---|---|---|
| kcp/kcp.go:63 divides rounding down | rounding up | `WrittenCuts.WrittenSendIff` | `WrittenCuts.WrittenSendLosesOneByte` | |
| kcp/kcp.go:112 tests a length that never changes | the remaining length | `Departures.WrittenParseNeverAccepts` | `Scenarios.WrittenParseOfOne`, and `Scenarios.WrittenParsePanicsOnEmitted` for every emitted datagram | |
| kcp/kcp.go:180 stores all remaining bytes | the first `Len` bytes | `Departures.WrittenDataIffLast` | `Scenarios.WrittenDataOfTwo` | |
| kcp/kcp.go:319 compares the probe bits for equality | each bit on its own | `Departures.WrittenProbesIffNotBoth` | `Scenarios.WrittenProbesOfBoth` | |
| kcp/kcp.go:388 updates copies of segments | the buffered segments | `Departures.CopiedDataLoopIff` | `Scenarios.CopiedLoopForgets` | `CopiedRuns.EveryFlushSendsAll` |
| kcp/parse.go:116 counts on copies | the buffered segments | `Departures.CopiedFastackIffNothingSkipped` | `Scenarios.CopiedFastackForgets` | |
| kcp/kcp.go:523 takes the interval from `nodelay` | from `interval` | `Departures.WrittenIntervalIff` | `Scenarios.WrittenIntervalOfFastMode` | |
| kcp/parse.go:10 deletes while ranging | a filter | `WrittenDeletions.WrittenUnaIffOne` | `Scenarios.WrittenUnaOfTwo` | |
| kcp/parse.go:98 deletes while ranging | draining the head | `WrittenDeletions.WrittenDrainIffOne` | `Scenarios.WrittenDrainOfTwo` | |
| kcp/parse.go:23 reads the head's `Una` | the head's `Sn` | `LaggingRuns.WrittenFirstOverRuns` | `Scenarios.SndUnaGoesBack` | `LaggingRuns.WrittenFirstOverRuns` |
| kcp/parse.go:38 zeroes the difference, kcp/parse.go:40 averages the mean | absolute difference, averaged variation | `Departures.WrittenVariationSettlesIff` | `Departures.WrittenVariationAtHundred` | |
| kcp/parse.go:69 indexes a list that never grows | appending | `AckListRuns.RunPanicsIff` | `Scenarios.FirstDataPanics` | `AckListRuns.RunPanicsIff` |
| kcp/parse.go:85 stops the duplicate scan early, kcp/parse.go:91 appends | full scan, ordered insertion | `WrittenDeletions.WrittenStoreIffHeadOrEnd` | `Scenarios.WrittenStoreOfTwo` | |
| kcp/seg.go:7 makes a buffer of length 0 | length 24 | `WrittenHeaders.WrittenEncodeIff` | `WrittenHeaders.WrittenEncodePanics`, for every segment | |
| zlog/lumberjack.go:490 takes the prefix from an already dated name | from the undated name | `LogNames.WrittenPrefixIff` | `LogNames.WrittenPrefixFindsNothing`, for every backup | |

Taking the undated name has a price: the file being written has a dated name too (zlog/lumberjack.go:323), so the scan
takes it for a backup. `LogNames.ActiveSpared` says exactly when a run spares it, `LogNames.ActiveIsRemoved` is a
directory in which it is removed and `LogNames.ActiveIsCompressed` one in which it is replaced by a compressed copy.

One property is false of the intended form too and the code is kept as it is: a repeated segment makes
`Parse_Data` return before it drains (kcp/parse.go:93-95), so "nothing deliverable is left behind" can fail after
the application has emptied a full queue. `Receivers.SettledIff` says exactly when it holds and
`Scenarios.RepeatedSegmentDoesNotDrain` is a run of an endpoint in which it fails. `Rounds.EverythingIsRead` therefore
starts from a peer that left nothing behind, and `Rounds.StuckForGood` shows that this is needed.

## Model

| member | source | states |
|---|---|---|
| Network.Reliability | kcp/kcp.go:228-252 | in every state two endpoints can reach over a network that loses, duplicates and reorders, with any calls, clocks and settings: both directions deliver exactly the peer's fragments 0..`Rcv_nxt`-1, each once, in order, unchanged; a number no longer in `Snd_buf` is held by the peer; messages read are a prefix of messages sent, and a message is read if and only if all its fragments were delivered |
| Network.NextKeeps | kcp/kcp.go:97-196 | every single step of the two-endpoint system keeps the invariant that ties both send sides, both receive sides and all datagrams in flight together |
| Network.SegKeepsSnd | kcp/kcp.go:145-159 | a segment that tells the truth about its sender makes the other side discard only numbers that sender holds |
| Network.DataKeepsRcv | kcp/parse.go:74-109 | delivered fragments stay exactly the sender's history when one more segment of that history arrives |
| Network.EmittedTruthful | kcp/kcp.go:265-291 | every segment readable from a flushed datagram is true of its sender: `una` at most its `Rcv_nxt`, an ACK only for a held number, data as first numbered |
| Network.ConcludeKeeps | kcp/kcp.go:198-226 | fast-ack counting and window growth leave the tie between send side and peer intact |
| Rounds.EverythingIsRead | kcp/kcp.go:228-252 | from every reachable state of the two endpoints whose receiver has read what it could: after rounds without loss, each late enough for retransmissions and probe timer and at least two more than segments wait, `Snd_queue` and `Snd_buf` are empty and every accepted message has been read in order |
| Rounds.StuckForGood | kcp/parse.go:93-108 | once a sender is idle and its peer has emptied its queue, then after any number of rounds everything is read if and only if the peer left nothing deliverable in `Rcv_buf` |
| Rounds.RoundClears | kcp/kcp.go:387-449 | one round at a late time leaves nothing in flight and nothing deliverable behind |
| Rounds.RoundShrinks | kcp/kcp.go:293-370 | every round at a late time shrinks what is waiting or brings the window nearer to open, through acknowledgements, `Cwnd` at least 1 and the probe answered |
| Progress.RoundOverNetwork | kcp/kcp.go:265-291 | in every reachable state of the two endpoints: if all datagrams of a flush arrive, in any order and among others, while the peer's window covers what may be in flight, the application takes what it likes, and all of the peer's next flush arrives, every segment the flush transmitted has left `Snd_buf` |
| Progress.RoundTrip | kcp/kcp.go:145-184 | the same for any two valid endpoints of one conversation and every transmitted number inside the receiver's window, as long as the end of that window fits 32 bits |
| Progress.WindowCovers | kcp/kcp.go:175 | a peer with room that left nothing behind has a window that starts no earlier than what is unacknowledged |
| Runs.ReachableValid | kcp/define.go:57-106 | in every run of an endpoint fed with any bytes: `Snd_buf` strictly ascending inside [`Snd_una`,`Snd_nxt`) with `Snd_una` its head, `Rcv_buf` strictly ascending inside the window, queue within the window, byte counter within one segment of `Cwnd`, advertised window exact |
| Runs.NumbersNeverGoBack | kcp/define.go:61-62 | along every run `Snd_una`, `Snd_nxt` and `Rcv_nxt` never decrease |
| Runs.InputKeeps | kcp/kcp.go:97-254 | any datagram of any bytes keeps the invariant, moves `Snd_una` and `Rcv_nxt` only forward, opens `Cwnd` by at most 2 and not past `Rmt_wnd`, and only if something was acknowledged |
| Runs.InputByParts | kcp/kcp.go:104-226 | for every string of bytes: shorter than a header it is refused with nothing changed; otherwise the whole segments at its front are processed, and what stands behind them decides the code and, if it is bad, keeps skips and window from being reckoned |
| Runs.FlushKeeps | kcp/kcp.go:258-484 | a full flush keeps the invariant, leaves `Cwnd` at least 1 and no owed acknowledgement, and leaves in flight at most what was or the window in force |
| Runs.WindowBound | kcp/kcp.go:337-370 | after the window move what is in flight is at most what was, or the minimum of the three windows |
| Runs.AdvertisedWindow | kcp/kcp.go:269 | the unsigned subtraction for the advertised window never wraps |
| Receivers.ParseDataValid | kcp/parse.go:74-109 | any segment leaves the reordering buffer sorted and in the window and `Rcv_nxt` not lower |
| Receivers.ParseDataEffect | kcp/parse.go:90-108 | one segment moves a run of consecutive numbers to the queue; run and buffer together are what was buffered plus the segment, if it was new and in the window |
| Receivers.SettledIff | kcp/parse.go:93-108 | nothing deliverable is left behind after a segment if and only if the segment was taken in or nothing was left behind before |
| Scenarios.RepeatedSegmentDoesNotDrain | kcp/parse.go:93-95 | a run of a fresh endpoint, window 128: segments 0 to 128 arrive, the queue is emptied, 128 is repeated and stays behind although it is next and there is room |
| Receivers.HeldGrows | kcp/kcp.go:175-183 | what the receiver holds it keeps, and every segment it acknowledges it holds |
| Receivers.AcceptAllOutcome | kcp/parse.go:74-109 | segments in any order with repetitions lead to the order-free outcome: longest run that fits queued, sorted rest buffered |
| Receivers.OutcomeUnique | kcp/kcp.go:239-245 | that outcome is a single state |
| Receivers.Confluent | kcp/kcp.go:239-245 | two arrival orders of the same segments, with any repetitions, end in identical queue, buffer and `Rcv_nxt` |
| Senders.UnaStep | kcp/kcp.go:145-149 | a cumulative acknowledgement removes exactly the segments below it and `Snd_una` moves to the first one left |
| Senders.AckStep | kcp/kcp.go:158-159 | a selective acknowledgement removes exactly that number and keeps the send side in shape |
| Senders.BumpBelow | kcp/parse.go:111-123 | the scan counts a skip for exactly the buffered numbers below the acknowledged one |
| Senders.AdmitPrefix | kcp/kcp.go:346-370 | the window move takes the longest prefix of `Snd_queue` that fits and numbers it consecutively from `Snd_nxt` |
| Senders.AdmitStep | kcp/kcp.go:344-370 | the move keeps the send side in shape, stays within the window or what was in flight, and stops short only when nothing waits |
| Messages.PiecesCover | kcp/kcp.go:60-84 | a buffer of n bytes is cut into ceil(n / `Mss`) pieces of 1 to `Mss` bytes that concatenate to it |
| Runs.SendAccepts | kcp/kcp.go:55-86 | a message is refused, with nothing changed, if and only if it is empty (-1) or longer than 255 segments (-2); otherwise its bytes are appended in order, in segments that are all full but the last and numbered down to 0 |
| Messages.RegroupFragments | kcp/README_CN.md:26 | regrouping at `frg` 0 inverts fragmenting for every list of messages |
| Messages.PrefixOfMessages | kcp/define.go:41 | any prefix of the fragments, wherever it is cut, reads as a prefix of the messages |
| Messages.ReadExactlyWhenComplete | kcp/define.go:41 | the first k messages are read if and only if all their fragments are there |
| Datagrams.ParseWires | kcp/kcp.go:110-196 | the parse loop inverts printing for every list of segments an endpoint may emit |
| Datagrams.ParseIsExact | kcp/kcp.go:110-196 | for every string of bytes the segments read stand at its front byte for byte; what is left is shorter than a header and the code is 0, or it is a header refused with -1, -2 or -3, in that order |
| Datagrams.PackParse | kcp/kcp.go:432-454 | packed datagrams are non-empty, at most `Mtu` long, split no segment, and parse back to exactly the segments in order |
| Datagrams.PackedTight | kcp/kcp.go:434-437 | no datagram is emitted early: the first segment of the next one would not have fitted |
| Datagrams.PackedOnly | kcp/kcp.go:432-454 | nothing but a segment that was packed can be read out of an emitted datagram |
| Segments.HeaderRoundTrip | kcp/seg.go:6-17 | reading a printed header gives every field cut to its width, whatever follows it |
| Segments.HeaderOnto | kcp/kcp.go:116-127 | printing back a header that was read gives its 24 bytes, for every 24 bytes |
| Segments.LosslessIffFits | kcp/seg.go:8-15 | the header loses nothing if and only if every field fits its width |
| Segments.Encode | kcp/seg.go:6-17 | filling the buffer field by field at fixed offsets yields the header |
| Emissions.FlushIsReadBack | kcp/kcp.go:273-454 | the datagrams of one flush, parsed in order by the peer, give the acknowledgements in arrival order, then probes, then due data, each datagram whole, within the MTU, and not closed while the next segment would have fitted |
| Emissions.PeerAcceptsFlush | kcp/kcp.go:106-140 | a peer of the same conversation refuses no datagram a flush emits |
| Echoes.EveryTakenIsAcked | kcp/kcp.go:175-178 | in every run the acknowledgements a reader finds in the datagrams of all flushes, followed by those still owed, are the data segments inside the window at their arrival: each once, in order, with its own number and time, repeated ones included |
| Echoes.HeadersTell | kcp/kcp.go:265-271 | in every run every segment read from a flush carries `Rcv_nxt` and the free room of the receive queue, and a data segment the time of the flush |
| Emissions.ProbesAnswered | kcp/kcp.go:318-335 | a flush asks if and only if a probe is due or pending, answers if and only if it was asked, and leaves nothing pending |
| Emissions.QuestionIsPending | kcp/kcp.go:185-187 | an answer is pending after a datagram if and only if it was before or the datagram holds a WASK |
| Emissions.AskTimesAreRequests | kcp/kcp.go:293-322 | in every run the times at which a WASK goes out are exactly the requests of the probe timer |
| Emissions.AsksInRunsExactlyWhen | kcp/kcp.go:293-322 | the same for the WASK in the datagrams of every flush of every run |
| Emissions.QuestionIsAnswered | kcp/kcp.go:185-187 | a WASK accepted anywhere in a run puts a WINS into the next flush, whatever happens in between |
| Emissions.ProberOverRuns | kcp/kcp.go:293-316 | in every run the probe timer is the one whose spacing and growth are proved in `Probing` |
| Probing.TickWait | kcp/kcp.go:293-316 | `Probe_wait` is 0 or in [7000, 120000], does not shrink while the peer's window is closed, and grows at each expiry below the limit |
| Probing.RequestsSpaced | kcp/kcp.go:295-312 | successive probe requests are at least the then current wait apart, over every run |
| Probing.WaitAfterExpiries | kcp/kcp.go:302-309 | while the window stays closed the wait reaches 120000 at the eighth expiry and not before |
| Probing.AsksExactlyWhen | kcp/kcp.go:295-316 | for any looks at the window: one asks if and only if it finds the window closed, as the look before it did, and its time is at least the last question since the window closed, or the look that found it closed, plus 7000, 10500, 15750 and so on up to 120000 |
| RttEstimator.EstimateBounds | kcp/parse.go:30-48 | for every history of samples in [lo, hi], each under settings of its own, the mean stays in [lo, hi], the variation below hi, the timeout within its limits, and the next update overflows no int32 |
| RttRuns.RttOverRuns | kcp/kcp.go:153-157 | in every run, with settings changing in between, the estimator is the one fed with the samples of the acknowledgements received |
| RttRuns.RttBoundsOverRuns | kcp/parse.go:46-47 | in every run `Rx_rto` is in [30, 60000]; with all samples of the run in [lo, hi], so is `Rx_srtt`, `Rx_rttval` is at most hi, and the next update overflows no int32 |
| RttRuns.FloorByMode | kcp/kcp.go:516-520 | in every run `Rx_minrto` is 30 with `Nodelay` and 100 without, and `Interval` in [10, 5000] |
| RttRuns.SettingsTaken | kcp/kcp.go:509-527 | settings are refused with -1 and no change if and only if one is negative; otherwise they are taken as they are, `Interval` being brought into [10, 5000] by the shortest way |
| RttEstimator.FollowsRfc6298 | kcp/parse.go:30-48 | one sample does what rules 2.2 and 2.3 of section 2 of RFC 6298 say over the reals, rounded down, the mean at least 1; the timeout is the nearest value in [`Rx_minrto`, 60000] |
| RttEstimator.SteadySettles | kcp/parse.go:36-44 | under a constant sample c any state with a mean settles, within a stated number of samples, to a mean in [c-7, c] and a variation of at most 7 |
| Congestion.GrowTracks | kcp/kcp.go:202-226 | growth keeps (`Cwnd`-1)·`Mss` < `Incr` < (`Cwnd`+1)·`Mss`, never closes the window, opens it by at most 2 and never past `Rmt_wnd` |
| Congestion.GainPerWindow | kcp/kcp.go:209-212 | at a window of k segments one avoidance round adds the k-th part of a segment and a sixteenth |
| Congestion.ReactTracks | kcp/kcp.go:456-482 | the loss reaction keeps that relation and leaves `Cwnd` at least 1 |
| Congestion.GrowExact | kcp/kcp.go:202-226 | at `Rmt_wnd` nothing changes; below the threshold `Cwnd` rises by 1 and `Incr` by `Mss`; from it on `Incr` gains the k-th part of a segment and a sixteenth, k being the segments it holds, and `Cwnd` stays while `Incr` is below the next whole segment and is then the segments that hold it, cut to `Rmt_wnd` |
| Congestion.ReactExact | kcp/kcp.go:456-482 | a timeout sets the threshold to half the window in force, fast retransmission alone to half of what is in flight, rounded down and at least 2, both bounds; without a loss only a closed window changes |
| Windows.AcknowledgementGrows | kcp/kcp.go:202-226 | the same growth for `Input`: a datagram accepted to its end that raises `Snd_una`, with the `Rmt_wnd` it left |
| Windows.OnlyAcknowledgements | kcp/kcp.go:202 | any other datagram leaves window, counter and threshold alone |
| Windows.WholeSegments | kcp/kcp.go:212 | from a counter of k whole segments the step is exactly `Mss`/k and `Mss`/16 |
| Windows.LastWindow | kcp/kcp.go:143 | after a datagram `Rmt_wnd` is the window in the last segment read |
| Windows.SlowStartOverRuns | kcp/kcp.go:198-226 | from any state of any run on, while no flush finds a loss: after k datagrams that acknowledge something new `Cwnd` is at least min(`Ssthresh`, `Rmt_wnd`, start + k), and up to that limit exactly start + k with `Incr` risen by k·`Mss` |
| Windows.ReactionOverRuns | kcp/kcp.go:337-370 | in every run every flush, read off the state before it: a segment past its deadline halves the window in force into the threshold and leaves one segment; none such, but one skipped over, halves what is in flight and goes on from there; otherwise nothing changes; and what is in flight fills the least of the three limits as far as segments wait |
| Windows.InFlightBound | kcp/kcp.go:338-346 | in every run at most 32 segments are in flight |
| Windows.TimeoutsCounted | kcp/kcp.go:397-401 | `Xmit` of the endpoint grows by the number of segments in flight past their deadline |
| Retransmission.RemembersStep | kcp/kcp.go:387-426 | one look at a buffered segment, in any mode and at any time, keeps transmission count, timeout and deadline what its history says, and the history lawful: a timeout only from the deadline on and a fast retransmission only before it; each timeout doubles the timeout or adds the estimate (`Nodelay` 0), adds half of it (1), or half of the estimate (2 and more), as bounds on both sides |
| Backoffs.Doubles | kcp/kcp.go:402-404 | `Nodelay` 0: after k timeouts the timeout is between 2^k first timeouts and 2^k of the largest estimate, and at least 2^k - 1 first timeouts have gone by |
| Backoffs.GrowsByHalf | kcp/kcp.go:405-411 | `Nodelay` 1: after k timeouts the timeout is (3/2)^k first timeouts, short of that by rounding only, and twice its growth has gone by |
| Backoffs.GrowsByEstimate | kcp/kcp.go:405-411 | `Nodelay` 2 and more: k timeouts add k halves of the estimate, and the time gone by grows with the square of k |
| Retransmission.DueMembers | kcp/kcp.go:388-449 | what a flush transmits is exactly the updated form of the segments it decided to send |
| Histories.BackoffOverRuns | kcp/kcp.go:387-449 | over every run with a clock that does not go back and any settings: the timeout of every segment after k timeouts and the time they took, by the mode these timeouts were met in, as in the three laws above |
| Histories.HistoriesOverRuns | kcp/kcp.go:387-449 | over every run with any clock and settings: every number is transmitted lawfully, every buffered segment has the count, timeout and deadline of its history, and `State` is -1 if and only if some segment was transmitted `Dead_link` times |
| Histories.TransmitsExactly | kcp/kcp.go:388-426 | in every run a flush transmits a number if and only if it enters the window, or is in flight and was never sent, or its deadline has passed, or it was skipped often enough and not resent too often |
| Histories.LedgerIsEmission | kcp/kcp.go:427-448 | a history grows in a flush if and only if the flush transmits the number, by one entry with the time of the flush, the settings and estimate in force and the timeout the segment left with |
| Histories.ExhaustedStep | kcp/kcp.go:445-447 | some transmission reaches the dead-link limit if and only if some history becomes that long |
| Schedules.NothingIsAbandoned | kcp/kcp.go:387-449 | in every mode and run, after a flush every unacknowledged segment has been transmitted and is due again within nine eighths of its timeout, and what was due went out |
| Schedules.FlushSchedules | kcp/kcp.go:388-426 | one flush leaves every buffered segment a deadline that is ahead and near, and keeps the timeout at its floor |
| FastAcks.ChoiceIsUnbeaten | kcp/kcp.go:160-171 | the acknowledgement an input pass settles on arrived in it and none that arrived is later in both number and time |
| FastAcks.ChoiceRises | kcp/kcp.go:160-171 | reading on changes the choice only to one above it in both number and time; it starts with the first acknowledgement |
| FastAcks.ChoiceIsLastPick | kcp/kcp.go:160-171 | the choice is determined by the segments read: from the first acknowledgement on, always the first later one above it in both number and time, until there is none |
| FastAcks.FastackCountsSkips | kcp/parse.go:111-123 | in every run each buffered segment's `FastACK` is the number of batches since its last reset whose choice, by the rule of the row above, is a higher number in flight |
| ControlBlock.Ikcpcb.constructor | kcp/kcp.go:20-41 | the fields of a new control block are the specified initial endpoint |
| ControlBlock.Ikcpcb.Send | kcp/kcp.go:55-86 | the slicing loop appends exactly the fragments of the message, or returns -1 or -2 and changes nothing |
| ControlBlock.Ikcpcb.ParseUna | kcp/parse.go:9-18 | the loop removes the segments below `una` and keeps the counter the real length |
| ControlBlock.Ikcpcb.ShrinkBuf | kcp/parse.go:21-27 | `Snd_una` becomes the number of the first buffered segment, or `Snd_nxt` |
| ControlBlock.Ikcpcb.UpdateAck | kcp/parse.go:30-48 | the fields become the specified estimator step |
| ControlBlock.Ikcpcb.ParseAck | kcp/parse.go:50-65 | the scan deletes the acknowledged number, if outstanding and buffered |
| ControlBlock.Ikcpcb.AckPush | kcp/parse.go:67-72 | the pair is owed last |
| ControlBlock.Ikcpcb.ParseData | kcp/parse.go:74-109 | scan, insertion and drain loops do the specified receive step, counters included |
| ControlBlock.Ikcpcb.ParseFastack | kcp/parse.go:111-123 | the scan increments the counters in place as specified |
| ControlBlock.Ikcpcb.ProcessSegment | kcp/kcp.go:142-192 | one segment does the specified step and choice of acknowledgement |
| ControlBlock.Ikcpcb.ParseLoop | kcp/kcp.go:110-196 | the loop processes exactly the segments the parser reads and returns its code |
| ControlBlock.Ikcpcb.GrowWindow | kcp/kcp.go:203-225 | the fields become the specified congestion growth |
| ControlBlock.Ikcpcb.Input | kcp/kcp.go:97-254 | the object becomes, and the code is, what the specification says, error codes included |
| ControlBlock.Ikcpcb.FlushAcks | kcp/kcp.go:273-291 | owed acknowledgements are packed in arrival order and the list emptied |
| ControlBlock.Ikcpcb.TickProbe | kcp/kcp.go:293-316 | the probe timer fields and the request bit change as specified |
| ControlBlock.Ikcpcb.FlushProbes | kcp/kcp.go:318-335 | each set bit sends its probe and both bits are cleared |
| ControlBlock.Ikcpcb.MoveWindow | kcp/kcp.go:346-370 | the loop does the specified window move |
| ControlBlock.Ikcpcb.FlushData | kcp/kcp.go:387-449 | the loop updates every segment in place, packs what is due in order, counts losses and finds a dead link |
| ControlBlock.Ikcpcb.ReactToLoss | kcp/kcp.go:456-482 | the fields become the specified loss reaction |
| ControlBlock.Ikcpcb.Flush | kcp/kcp.go:258-484 | the object becomes, and the datagrams handed to the output function are, what the specification says |
| ControlBlock.Ikcpcb.SetNodelay | kcp/kcp.go:509-527 | the object becomes, and the code is, what the specification says: new settings and 0, or no change and -1 |
| WrittenCuts.WrittenSendIff | kcp/kcp.go:55-86 | the written `Send` and the intended one agree, in state and code, if and only if the message fits one segment, divides evenly, or has 256 whole pieces and is refused by both |
| WrittenCuts.WrittenCutLosesTail | kcp/kcp.go:71-84 | the slicing loop, run as often as the written count says, keeps the whole message if and only if it fits one segment or divides evenly |
| WrittenCuts.WrittenSendLosesOneByte | kcp/kcp.go:61-64 | on a fresh endpoint a message one byte longer than a segment is accepted and loses the byte |
| Departures.WrittenParseNeverAccepts | kcp/kcp.go:104-140 | the written loop gives the intended code if and only if that code is an error, so it accepts no datagram at all |
| Scenarios.WrittenParsePanicsOnEmitted | kcp/kcp.go:110-116 | every datagram that any valid endpoint emits ends the written loop in a panic |
| Departures.WrittenDataIffLast | kcp/kcp.go:179-181 | the stored data is the sent data if and only if the segment is the last of its datagram or empty |
| Scenarios.WrittenDataOfTwo | kcp/kcp.go:179-181 | the first of two one-byte segments in a datagram is stored with the whole second one behind it |
| Departures.WrittenProbesIffNotBoth | kcp/kcp.go:319-334 | the written test sends what is asked if and only if not both bits are set |
| Departures.CopiedDataLoop | kcp/kcp.go:388-449 | the loop over copies transmits the due segments and leaves the buffer as it was |
| Departures.CopiedDataLoopIff | kcp/kcp.go:388-426 | that is right if and only if every buffered segment was transmitted before, is not timed out, and was not skipped often enough or was resent too often |
| CopiedRuns.EveryFlushSendsAll | kcp/kcp.go:388-449 | in every run of the written form `Xmit` of every buffered segment stays 0, each flush transmits the whole buffer as if for the first time, and no loss and no dead link is ever found |
| Scenarios.WrittenProbesOfBoth | kcp/kcp.go:319-334 | a run with a question due and an answer owed in one flush: the written test sends neither |
| Scenarios.CopiedLoopForgets | kcp/kcp.go:388-393 | the first flush of a first message leaves `Xmit` 0 where 1 is intended |
| Departures.CopiedFastackIffNothingSkipped | kcp/parse.go:116-122 | losing the counts is right if and only if no buffered number was skipped |
| Scenarios.CopiedFastackForgets | kcp/parse.go:116-122 | with two segments in flight and the second acknowledged the written form misses the skip of the first |
| Departures.WrittenIntervalIff | kcp/kcp.go:523 | the written interval is the requested one if and only if both arguments clamp alike |
| Scenarios.WrittenIntervalOfFastMode | kcp/kcp.go:523 | fast mode with an interval of 100 is set up with 10 |
| WrittenDeletions.WrittenUnaIffOne | kcp/parse.go:9-18 | deleting while ranging removes the acknowledged segments if and only if at most one is |
| Scenarios.WrittenUnaOfTwo | kcp/parse.go:9-18 | two segments in flight, both acknowledged at once: the loop panics |
| WrittenDeletions.WrittenDrainIffOne | kcp/parse.go:98-108 | draining while ranging delivers what is available if and only if at most one segment is |
| Scenarios.WrittenDrainOfTwo | kcp/parse.go:98-108 | segment 1 arrives before segment 0: the loop panics |
| LaggingRuns.WrittenFirstOverRuns | kcp/parse.go:21-27 | in every run of the written form `Snd_una` is `Rcv_nxt` as of the head's last transmission; it is the first unacknowledged number if and only if nothing is buffered or both directions were at the same number then; on an endpoint that has received nothing, if and only if the head is number 0 |
| Scenarios.SndUnaGoesBack | kcp/parse.go:21-27 | a run of the written form in which `Snd_una` goes from 1 back to 0 while number 1 is in flight |
| Departures.WrittenVariationSettlesIff | kcp/parse.go:36-40 | from every state with a mean, under a constant sample c, the written variation settles within rounding, as the intended one does, if and only if twice the resting mean plus c is below 32 |
| Departures.WrittenVariationAtHundred | kcp/parse.go:36-47 | a fresh endpoint that sees 100 milliseconds ends at a variation of 75 and a timeout of 400 where at most 7 and 200 are intended |
| AckListRuns.RunPanicsIff | kcp/parse.go:67-72 | a run of the written form panics if and only if some datagram in it holds a data segment inside the first window; otherwise its list is still empty and the endpoint is as intended |
| Scenarios.FirstDataPanics | kcp/parse.go:67-72 | the first data segment a fresh endpoint receives panics it |
| WrittenDeletions.WrittenStoreIffHeadOrEnd | kcp/parse.go:80-95 | the written scan and append agree with ordered insertion if and only if the segment repeats the head or belongs at the end |
| Scenarios.WrittenStoreOfTwo | kcp/parse.go:80-95 | segment 2 arrives before segment 1: they are stored out of order |
| WrittenHeaders.WrittenEncodeIff | kcp/seg.go:6-17 | write by write, with slicing checked against the capacity and indexing against the length, the header comes out if and only if the buffer is made 24 bytes long, whatever its capacity |
| WrittenHeaders.WrittenEncodePanics | kcp/seg.go:7-9 | with the written length 0 and capacity 24 the first write succeeds and every call panics at the next |
| Retention.CountPass | zlog/lumberjack.go:346-365 | the scan keeps the prefix that ends where the names seen would be one too many |
| Retention.AgePass | zlog/lumberjack.go:366-379 | the files split, in order, into those before the cutoff and the others |
| Retention.CompressPass | zlog/lumberjack.go:381-387 | exactly the kept files without the suffix are marked, in order |
| Retention.MillRunOnce | zlog/lumberjack.go:334-387 | the three passes yield the plan, for every setting |
| Retention.KeptPrefix | zlog/lumberjack.go:347-363 | a leading part is kept if and only if it has at most `MaxBackups` names, `x` and `x.gz` being one |
| Retention.PlanCorrect | zlog/lumberjack.go:334-387 | kept and removed partition the list; at most `MaxBackups` names kept; nothing kept is too old; nothing removed is newer than anything kept; compressed are exactly the kept uncompressed |
| Retention.NewestSurvive | zlog/lumberjack.go:91-96 | when times identify backups, a file survives if and only if it is young enough and fewer than `MaxBackups` backups are newer, both twins alike |
| LogNames.NameRoundTrip | zlog/lumberjack.go:277-288 | the time `backupName` writes is the time the scan reads, for the plain and the compressed name |
| LogNames.OverlapIff | zlog/lumberjack.go:463-473 | some name makes that slice run past its ends if and only if a non-empty tail of the prefix is a head of the extension |
| LogNames.NoOverlap | zlog/lumberjack.go:463-473 | the slice in `timeFromName` never runs past its ends, for an extension without a dash |
| LogNames.GzRecognised | zlog/lumberjack.go:443-450 | compressing a recognised file gives a file recognised at the same time |
| LogNames.WrittenPrefixIff | zlog/lumberjack.go:487-494 | with prefix and extension of an already dated name, a backup with any suffix has the prefix if and only if its time goes on from the current one with a dash; if not, both attempts of the scan fail |
| LogNames.WrittenPrefixFindsNothing | zlog/lumberjack.go:439-450 | for times printed in one layout neither attempt recognises any backup, plain or compressed, with or without an extension |
| LogNames.UndatedIsNoBackup | zlog/lumberjack.go:81-84 | a file of the undated name is never taken for a backup |
| LogNames.ActiveSpared | zlog/lumberjack.go:321-404 | the file being written is listed, and a run spares it if and only if the plan keeps it and `Compress` is off; where times identify backups, if and only if it is young enough, among the newest `MaxBackups`, and `Compress` is off |
| LogNames.ActiveIsRemoved | zlog/lumberjack.go:366-394 | with local times west of UTC and a layout of the date alone, `MaxAge` 1 removes the file opened the same day |
| LogNames.ActiveIsCompressed | zlog/lumberjack.go:381-401 | the first run with `Compress` replaces the only log file, which is being written, by its compressed copy |
| LogNames.OldLogFiles | zlog/lumberjack.go:434-453 | the loop finds the recognised entries in directory order |
| LogNames.SortedScanIsListing | zlog/lumberjack.go:430-458 | however the found entries are sorted newest first, they are each recognised file once |
| LogNames.Survivor | zlog/lumberjack.go:389-403 | after a run every file the scan finds is a kept backup at its old time, compressed if asked for |
| LogNames.EachBackup | zlog/lumberjack.go:389-403 | after a run each kept backup is there, as itself or as its compressed copy only, and each other one is gone unless such a copy has its name |
| LogNames.SecondRunChangesNothing | zlog/lumberjack.go:334-404 | a second run under the same policy and clock leaves the directory as the first left it |
| LogNames.OthersStay | zlog/lumberjack.go:451-453 | what is not a backup is neither removed nor compressed |
| Framing.FrameRoundTripIff | net/clientConn/client_conn.go:68-75 | a frame is read back with what follows it untouched if and only if tag and length fit 32 bits |
| Framing.UncodeExact | net/clientConn/client_conn.go:45-66 | what is read is what was framed, for every stream |
| Framing.StreamRoundTrip | net/clientConn/client_conn.go:45-75 | reading inverts framing for every list of messages |
| Framing.ReadingIsExact | net/clientConn/client_conn.go:91-106 | for every stream of bytes the messages read are the whole frames at its front, and the fault is that of the rest |
| Framing.CutStream | net/clientConn/client_conn.go:45-66 | a stream cut n bytes into frame k gives the k messages before it and the fault that n explains |
| Framing.TruncatedStream | net/clientConn/client_conn.go:45-66 | any truncated stream gives exactly the messages whose frames are complete; a clean end only at a frame boundary |
| Framing.ClientConnTcp.UncodeOne | net/clientConn/client_conn.go:45-66 | two reads on the stream do the specified step and consume exactly the frame |
| Framing.ClientConnTcp.ReadRecvMsg | net/clientConn/client_conn.go:91-106 | the loop hands over exactly the messages of the stream in order, then closes with the fault |
| Pipeline.RunKeeps | net/clientConn/client_conn.go:78-152 | every interleaving keeps the four invariants on requests, replies, calls and written frames |
| Pipeline.PipelineSafety | net/clientConn/client_conn.go:78-152 | in every interleaving the handler gets the messages in order, one callback result each; the bytes written are whole frames in send order, read back exactly; replies follow request order; each sender's messages go out once in order |
| Pipeline.NeverStuck | net/clientConn/client_conn.go:78-152 | some goroutine can move unless all wait for the outside, and only then not |
| Pipeline.WorkShrinks | net/clientConn/client_conn.go:78-152 | without new input the goroutines come to rest |
| Pipeline.NothingLost | net/clientConn/client_conn.go:78-152 | at rest every message was handled, every result and every call handed to the writer, and written while the connection is open |

## Left out

- Network.Reliability: assumes that no sequence number comes within 128, the receive window, of 2^32, as the source adds the window to numbers and compares them without regard to wrap-around; clocks and timeouts are natural numbers (a clock that wraps is not modelled), and conversations start with equal `Conv`.
- Network.Reliability: is about safety; that a message arrives in the end depends on the network. `Rounds.EverythingIsRead` says that it does when exchanges without loss come late enough.
- Progress.RoundTrip: like the network results it is for numbers whose window ends below 2^32; beyond, the sum at kcp/kcp.go:175 wraps and data is refused.
- Rounds.EverythingIsRead: the two sides take turns and each round delivers all datagrams in order; what is delivered in one direction is stated for `a` to `b`, and the other direction is the same with the names exchanged.
- ControlBlock.Ikcpcb.UpdateAck: samples are natural numbers; the cast to int32 that makes a clock difference of 2^31 milliseconds or more negative is not modelled.
- Receivers.SettledIff: is the exact condition of a property that fails after a repeated segment, as described above.
- LogNames.NameRoundTrip: the printed time is whatever the parser reads from it; with `LocalTime` the source prints local time (zlog/lumberjack.go:282-286) and parses it as UTC (zlog/lumberjack.go:471), so the time read differs from the one meant by the offset of the zone. The date layout is a parameter; `LogNames.GzRecognised` and what rests on it ask that the layout accept no date followed by `.gz`.
- LogNames.SecondRunChangesNothing: all removals and compressions succeed and nothing else writes to the directory; directories among its entries are skipped.
- LogNames.TimeFromName: gives no time where the source would slice past the ends of a name; `LogNames.OverlapIff` says for which prefixes and extensions there is such a name, and `LogNames.NoOverlap` that it takes an extension with a dash.
- LogNames.OldLogFiles: stops before the sort; `sort.Sort` is any order that is newest first.
- Retention.MillRunOnce: times are integers in nanoseconds, so the int64 product of `MaxAge` and a day does not overflow; removing and compressing files is the step on a directory in `LogNames.Carried`.
- Pipeline.PipelineSafety: writes succeed until the reader closes the connection and fail from then on; other network failures and partial writes are not modelled. A callback that returns neither error nor message is not modelled.
- Framing.ClientConnTcp.ReadRecvMsg: the stream ends, and the receiver of `recvQueue` is always ready; blocking is modelled in `Pipeline`.
- Segment data is a value: that a Go slice shares its array with the caller's buffer is modelled only where `Departures` shows its effect.
- Segment `Rto` and `Cwnd` are natural numbers; doubling past 2^32 is not modelled, nor the wrap of `Ssthresh` plus the default resend limit, which needs 2^32 - 1 skips of one segment.
- ControlBlock.Ikcpcb.Input: asks for a positive `Mss`, which every created block has and nothing in the source changes.
- `Output` and `User` are replaced by the list of datagrams a flush returns.
- `Recv`, `Update`, `Check`, `PeekSize`, `SetMtu`, `WndSize`, `WaitSnd`, `GetConv`, `Log` and the empty command functions are stubs in the source; the environment sets the clock and takes from the receive queue.
- `Ts_recent`, `Ts_lastack`, `Ts_flush`, `AckBlock`, `Stream`, `Logmask` and `Buffer` are fields nothing reads.
- `Flush`, `Input` and `Send` are split into several methods of the class; the source has one each.
- File opening, truncation, ownership, gzip and the background goroutine of `zlog/lumberjack.go`; `zlog/im_log.go`, `zlog/caller_path.go`.
- `net/clientConn/client_conn_http.go`, `app/`, `dfs/`, `mq/`, `rpcx/`, `net/http`, `net/tcp`, `net/register`: wrappers over libraries that are not part of this model.
