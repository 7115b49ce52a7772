/** From the wire to a verdict: what the fan-out checkpoint decides about receivers of one run. */
module Fanout {
  import opened Bytes
  import opened Sums
  import opened RecvMetrics
  import opened ReceiveTheorems
  import opened CapReceiver
  import opened RtpPublisher
  import opened Pipeline
  import NF = NetFilter
  import CP = Checkpoints

  /** The per-SSRC records of a receiver of the run. */
  function Records(c: Config, config: NF.FilterConfig, now: real, steps: seq<Step>): Table
    requires Usable(c) && VideoFrames(steps) < 0x1_0000_0000
  {
    TableRun(map[], Feed(Play(c, Start(config, now), steps).delivered))
  }

  function StreamKept(c: Config, config: NF.FilterConfig, now: real, steps: seq<Step>, k: Kind): seq<bool>
    requires Usable(c) && VideoFrames(steps) < 0x1_0000_0000
  {
    Kept(c, Start(config, now), steps, k)
  }

  /** Every snapshot is one of a receiver of the same traffic. */
  ghost predicate ReceiversOf(snaps: map<string, Snapshot>, t: Table)
  {
    snaps != map[] && forall id :: id in snaps ==> Summarises(snaps[id], t)
  }

  /**
   * Receivers of one run pass the fan-out checkpoint if no packet was dropped inside a stream, and, when no run of
   * drops exceeds 32767, only then.
   */
  lemma FanoutDecidesDrops(c: Config, config: NF.FilterConfig, now: real, steps: seq<Step>, snaps: map<string, Snapshot>)
    requires Usable(c) && VideoFrames(steps) < 0x1_0000_0000
    requires ReceiversOf(snaps, Records(c, config, now, steps))
    ensures var a, v := StreamKept(c, config, now, steps, Audio), StreamKept(c, config, now, steps, Video);
            && (DroppedBetween(a) == 0 && DroppedBetween(v) == 0 ==> CP.FanoutIntact(snaps))
            && (DropRunsWithin(Survivors(a), 32767) && DropRunsWithin(Survivors(v), 32767) && CP.FanoutIntact(snaps)
                ==> DroppedBetween(a) == 0 && DroppedBetween(v) == 0)
  {
    var delivered := Play(c, Start(config, now), steps).delivered;
    EndToEndTotals(c, config, now, steps, Full);
    DecryptFreeCountingRefinesMetrics(Full, delivered);
    ReceiversAgree(snaps, Feed(delivered));
    var id :| id in snaps;
    assert snaps[id].totalLost == Total(Lost(Records(c, config, now, steps)));
  }

  /** Receivers fed the same packets report the same counts. */
  lemma ReceiversAgree(snaps: map<string, Snapshot>, packets: seq<Packet>)
    requires ReceiversOf(snaps, TableRun(map[], packets))
    ensures CP.CountsAgree(snaps)
  {
    var t := TableRun(map[], packets);
    forall k: U32, n: nat | CP.Heard(snaps, snaps.Keys, k, n) ensures k in t && n == t[k].received {
      HeardIsRecorded(snaps, packets, k, n);
    }
  }

  lemma HeardIsRecorded(snaps: map<string, Snapshot>, packets: seq<Packet>, ssrc: U32, n: nat)
    requires ReceiversOf(snaps, TableRun(map[], packets)) && CP.Heard(snaps, snaps.Keys, ssrc, n)
    ensures var t := TableRun(map[], packets); ssrc in t && n == t[ssrc].received
  {
    var t := TableRun(map[], packets);
    var id :| id in snaps && CP.HeardIn(snaps[id].streams, |snaps[id].streams|, ssrc, n);
    var i :| 0 <= i < |snaps[id].streams| && snaps[id].streams[i].ssrc == ssrc && snaps[id].streams[i].received == n;
    var m := snaps[id].streams[i];
    assert m in snaps[id].streams && m in t.Values;
    var k :| k in t && t[k] == m;
    OwnSsrc(packets, k);
  }

  lemma OwnSsrc(packets: seq<Packet>, ssrc: U32)
    requires ssrc in TableRun(map[], packets)
    ensures TableRun(map[], packets)[ssrc].ssrc == ssrc
  {
    StoreDemultiplexes(packets, ssrc);
    var p := Opening(packets, ssrc);
    RunBookkeeping(Fresh(ssrc, p.pt, p.arrival.now), Project(packets, ssrc));
  }

  // ---- The pristine profile ----

  predicate NeverSwitched(steps: seq<Step>) { forall st :: st in steps ==> !st.Switch? }

  predicate IsPristine(f: NF.FilterState) { f.config == NF.PRISTINE && f.bucket.None? }

  lemma PristineStep(c: Config, w: World, st: Step)
    requires Usable(c) && CanBuild(w, st) && IsPristine(w.filter) && !st.Switch?
    ensures IsPristine(Do(c, w, st).filter) && (st.Emit? ==> Survives(c, w, st))
  {
  }

  lemma {:induction false} StaysPristine(c: Config, now: real, steps: seq<Step>)
    requires Usable(c) && VideoFrames(steps) < 0x1_0000_0000 && NeverSwitched(steps)
    ensures IsPristine(Play(c, Start(NF.PRISTINE, now), steps).filter)
  {
    if steps != [] {
      var before, st := steps[..|steps| - 1], steps[|steps| - 1];
      assert st in steps && forall s :: s in before ==> s in steps;
      StaysPristine(c, now, before);
      PristineStep(c, Play(c, Start(NF.PRISTINE, now), before), st);
    }
  }

  /** Through the pristine filter, never reconfigured, every packet gets through. */
  lemma {:induction false} PristineDropsNothing(c: Config, now: real, steps: seq<Step>, k: Kind)
    requires Usable(c) && VideoFrames(steps) < 0x1_0000_0000 && NeverSwitched(steps)
    ensures Dropped(Kept(c, Start(NF.PRISTINE, now), steps, k)) == 0
  {
    if steps != [] {
      var before, st := steps[..|steps| - 1], steps[|steps| - 1];
      assert st in steps && forall s :: s in before ==> s in steps;
      PristineDropsNothing(c, now, before, k);
      StaysPristine(c, now, before);
      PristineStep(c, Play(c, Start(NF.PRISTINE, now), before), st);
      var kept := Kept(c, Start(NF.PRISTINE, now), before, k);
      DroppedConcat(kept, [true]);
      if !(st.Emit? && st.kind == k) { KeptOthers(c, Start(NF.PRISTINE, now), steps, k); }
    }
  }

  /** On the pristine profile the fan-out checkpoint passes, whatever is sent and whenever. */
  lemma PristineFanoutPasses(c: Config, now: real, steps: seq<Step>, snaps: map<string, Snapshot>)
    requires Usable(c) && VideoFrames(steps) < 0x1_0000_0000 && NeverSwitched(steps)
    requires ReceiversOf(snaps, Records(c, NF.PRISTINE, now, steps))
    ensures CP.FanoutIntact(snaps)
  {
    PristineDropsNothing(c, now, steps, Audio);
    PristineDropsNothing(c, now, steps, Video);
    BetweenIsSomeOfDropped(StreamKept(c, NF.PRISTINE, now, steps, Audio));
    BetweenIsSomeOfDropped(StreamKept(c, NF.PRISTINE, now, steps, Video));
    FanoutDecidesDrops(c, NF.PRISTINE, now, steps, snaps);
  }
}
