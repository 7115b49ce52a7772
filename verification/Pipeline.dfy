/**
 * The whole media path: one bot's two publishers share one network filter, the survivors arrive in
 * order, and a receiver counts them by SSRC (bot.rs, with the parts it wires together).
 */
module Pipeline {
  import opened Bytes
  import opened Wrapping
  import opened Sums
  import opened RecvMetrics
  import opened ReceiveTheorems
  import opened CapReceiver
  import opened RtpPublisher
  import opened RtpWire
  import NF = NetFilter

  datatype Kind = Audio | Video

  /**
   * One thing that happens: a packet is built, encrypted to `header + cipher` and offered to the filter; the
   * scenario switches the filter's configuration; or a keyframe is requested.
   */
  datatype Step =
    | Emit(kind: Kind, cipher: seq<Byte>, now: real, roll: real, jitter: int, arrivalUs: U64)
    | Switch(config: NF.FilterConfig, now: real)
    | RequestKeyframe

  datatype World = World(pub: Publisher, filter: NF.FilterState, delivered: seq<Datagram>)

  predicate Usable(c: Config)
  {
    && MidFits(c.audioMid) && MidFits(c.videoMid)
    && c.audioSsrc != c.videoSsrc && !(72 <= c.videoPt % 0x80 <= 79)
  }

  function Ssrc(c: Config, k: Kind): U32 { if k == Audio then c.audioSsrc else c.videoSsrc }

  function Built(c: Config, p: Publisher, k: Kind): seq<Byte>
    requires Usable(c)
  {
    if k == Audio then OpusPacket(c, p.audioSeq, p.audioTs) else Vp8Packet(c, p.videoSeq, p.videoTs, IsKeyframe(p))
  }

  /** SRTP leaves the fixed header in the clear; everything behind it is arbitrary. */
  function Wire(pkt: seq<Byte>, cipher: seq<Byte>): seq<Byte>
    requires |pkt| >= 12
  {
    pkt[..12] + cipher
  }

  function Offered(c: Config, w: World, st: Step): NF.Event
    requires Usable(c) && st.Emit?
  {
    NF.Packet(|Wire(Built(c, w.pub, st.kind), st.cipher)|, st.now, st.roll, st.jitter)
  }

  predicate Survives(c: Config, w: World, st: Step)
    requires Usable(c) && st.Emit?
  {
    NF.Verdict(w.filter, Offered(c, w, st)).Pass?
  }

  function Arriving(c: Config, w: World, st: Step): Datagram
    requires Usable(c) && st.Emit?
  {
    var pkt := Built(c, w.pub, st.kind);
    Datagram(Wire(pkt, st.cipher), Some(pkt), st.arrivalUs)
  }

  /** The frame counter can take one more video frame. */
  predicate CanBuild(w: World, st: Step) { st.Emit? && st.kind == Video ==> w.pub.frameCount < 0xFFFF_FFFF }

  function VideoFrames(steps: seq<Step>): nat
  {
    if steps == [] then 0
    else
      var st := steps[|steps| - 1];
      VideoFrames(steps[..|steps| - 1]) + if st.Emit? && st.kind == Video then 1 else 0
  }

  function Do(c: Config, w: World, st: Step): World
    requires Usable(c) && CanBuild(w, st)
  {
    match st
    case Switch(config, now) => w.(filter := NF.FilterStep(w.filter, NF.Reconfigure(config, now)))
    case RequestKeyframe => w.(pub := w.pub.(forced := true))
    case Emit(k, _, _, _, _, _) =>
      World(if k == Audio then AfterOpus(w.pub) else AfterVp8(w.pub),
            NF.FilterStep(w.filter, Offered(c, w, st)),
            if Survives(c, w, st) then w.delivered + [Arriving(c, w, st)] else w.delivered)
  }

  function Start(config: NF.FilterConfig, now: real): World { World(NEW_PUBLISHER, NF.NewFilter(config, now), []) }

  function Play(c: Config, w: World, steps: seq<Step>): (r: World)
    requires Usable(c) && w.pub.frameCount == 0 && VideoFrames(steps) < 0x1_0000_0000
    ensures r.pub.frameCount == VideoFrames(steps)
  {
    if steps == [] then w else Do(c, Play(c, w, steps[..|steps| - 1]), steps[|steps| - 1])
  }

  /** For each packet stream k emitted, whether the filter let it through. */
  function Kept(c: Config, w: World, steps: seq<Step>, k: Kind): seq<bool>
    requires Usable(c) && w.pub.frameCount == 0 && VideoFrames(steps) < 0x1_0000_0000
  {
    if steps == [] then []
    else
      var before, st := steps[..|steps| - 1], steps[|steps| - 1];
      Kept(c, w, before, k)
      + if st.Emit? && st.kind == k then [Survives(c, Play(c, w, before), st)] else []
  }

  // ---- Pure facts about which packets survive ----

  /** The positions of the kept packets within their stream. */
  function Survivors(kept: seq<bool>): seq<int>
  {
    if kept == [] then []
    else
      var n := |kept| - 1;
      Survivors(kept[..n]) + if kept[n] then [n] else []
  }

  function Dropped(kept: seq<bool>): nat
  {
    if kept == [] then 0 else Dropped(kept[..|kept| - 1]) + if kept[|kept| - 1] then 0 else 1
  }

  lemma {:induction false} DroppedConcat(a: seq<bool>, b: seq<bool>)
    ensures Dropped(a + b) == Dropped(a) + Dropped(b)
  {
    if b == [] {
      assert a + b == a;
    } else {
      assert (a + b)[..|a + b| - 1] == a + b[..|b| - 1];
      DroppedConcat(a, b[..|b| - 1]);
    }
  }

  lemma {:induction false} SurvivorRanks(kept: seq<bool>)
    ensures Increasing(Survivors(kept))
    ensures |Survivors(kept)| + Dropped(kept) == |kept|
    ensures forall i :: 0 <= i < |Survivors(kept)| ==>
              var p := Survivors(kept)[i]; 0 <= p < |kept| && kept[p] && Dropped(kept[..p]) == p - i
  {
    if kept != [] {
      var n := |kept| - 1;
      var ps := Survivors(kept[..n]);
      SurvivorRanks(kept[..n]);
      forall i | 0 <= i < |Survivors(kept)|
        ensures var p := Survivors(kept)[i]; 0 <= p < |kept| && kept[p] && Dropped(kept[..p]) == p - i
      {
        if i < |ps| {
          assert kept[..n][..ps[i]] == kept[..ps[i]];
        }
      }
    }
  }

  /** Packets dropped strictly between the first and the last survivor. */
  function DroppedBetween(kept: seq<bool>): nat
  {
    SurvivorRanks(kept);
    var ps := Survivors(kept);
    if |ps| < 2 then 0
    else
      IncreasingOrder(ps, 0, |ps| - 1);
      Dropped(kept[ps[0]..ps[|ps| - 1]])
  }

  lemma {:induction false} IncreasingOrder(xs: seq<int>, i: nat, j: nat)
    requires Increasing(xs) && i <= j < |xs|
    ensures xs[j] - xs[i] >= j - i
  {
    if i < j {
      IncreasingOrder(xs, i, j - 1);
      assert xs[j - 1] < xs[j];
    }
  }

  lemma SkippedIsDroppedBetween(kept: seq<bool>)
    ensures Skipped(Survivors(kept)) == DroppedBetween(kept)
  {
    SurvivorRanks(kept);
    var ps := Survivors(kept);
    if |ps| >= 2 {
      var a, b := ps[0], ps[|ps| - 1];
      IncreasingOrder(ps, 0, |ps| - 1);
      assert kept[..b] == kept[..a] + kept[a..b];
      DroppedConcat(kept[..a], kept[a..b]);
      ForwardSpan(ps);
    }
  }

  lemma ForwardSpan(xs: seq<int>)
    requires xs != [] && Increasing(xs)
    ensures |xs| + Skipped(xs) == xs[|xs| - 1] - xs[0] + 1 && Retreats(xs) == 0
  {
    IntegerConservation(xs);
    ForwardHasNoBackward(xs);
  }

  lemma {:induction false} ForwardHasNoBackward(xs: seq<int>)
    requires Increasing(xs)
    ensures Backward(xs) == 0 && Retreats(xs) == 0
  {
    if xs != [] {
      IncreasingPrefix(xs);
      ForwardHasNoBackward(xs[..|xs| - 1]);
    }
  }

  /** No run of consecutive drops between two survivors is longer than n. */
  ghost predicate DropRunsWithin(ps: seq<int>, n: nat)
  {
    forall i :: 1 <= i < |ps| ==> ps[i] - ps[i - 1] - 1 <= n
  }

  lemma DropRunsAreSteps(ps: seq<int>)
    requires Increasing(ps)
    ensures DropRunsWithin(ps, 32767) <==> StepsFit(ps)
  {
  }

  // ---- What the receiver is fed ----

  lemma {:induction false} SequenceNumbersCount(c: Config, w: World, steps: seq<Step>)
    requires Usable(c) && w.pub == NEW_PUBLISHER && VideoFrames(steps) < 0x1_0000_0000
    ensures Play(c, w, steps).pub.audioSeq == |Kept(c, w, steps, Audio)| % 0x1_0000
    ensures Play(c, w, steps).pub.videoSeq == |Kept(c, w, steps, Video)| % 0x1_0000
  {
    if steps != [] {
      var before := steps[..|steps| - 1];
      SequenceNumbersCount(c, w, before);
      NextCount(|Kept(c, w, before, Audio)|);
      NextCount(|Kept(c, w, before, Video)|);
      OneStepNumbers(c, Play(c, w, before), steps[|steps| - 1]);
    }
  }

  function MediaTime(ticks: nat, n: nat): U32 { ticks * n % 0x1_0000_0000 }

  /** 20 ms at 48 kHz, or a thirtieth of a second at 90 kHz. */
  function TicksOf(k: Kind): nat { if k == Audio then 960 else 3000 }

  function Clock(p: Publisher, k: Kind): U32 { if k == Audio then p.audioTs else p.videoTs }

  /** The media clocks: 960 ticks a packet of audio, 3000 a frame of video, modulo 2^32. */
  lemma {:induction false} TimestampsCount(c: Config, w: World, steps: seq<Step>, k: Kind)
    requires Usable(c) && w.pub == NEW_PUBLISHER && VideoFrames(steps) < 0x1_0000_0000
    ensures Clock(Play(c, w, steps).pub, k) == MediaTime(TicksOf(k), |Kept(c, w, steps, k)|)
  {
    if steps != [] {
      var before, st := steps[..|steps| - 1], steps[|steps| - 1];
      TimestampsCount(c, w, before, k);
      OneStepTimes(c, Play(c, w, before), st, k);
      if st.Emit? && st.kind == k {
        NextTicks(TicksOf(k), |Kept(c, w, before, k)|);
      } else {
        KeptOthers(c, w, steps, k);
      }
    }
  }

  lemma NextTicks(ticks: nat, n: nat)
    ensures (MediaTime(ticks, n) + ticks) % 0x1_0000_0000 == MediaTime(ticks, n + 1)
  {
    AddModulo(ticks * n, ticks);
    assert ticks * (n + 1) == ticks * n + ticks;
  }

  lemma AddModulo(a: nat, b: nat)
    ensures (a % 0x1_0000_0000 + b) % 0x1_0000_0000 == (a + b) % 0x1_0000_0000
  {
  }

  lemma OneStepTimes(c: Config, u: World, st: Step, k: Kind)
    requires Usable(c) && CanBuild(u, st)
    ensures Clock(Do(c, u, st).pub, k)
         == if st.Emit? && st.kind == k then (Clock(u.pub, k) + TicksOf(k)) % 0x1_0000_0000
            else Clock(u.pub, k)
  {
  }

  lemma OneStepNumbers(c: Config, u: World, st: Step)
    requires Usable(c) && CanBuild(u, st)
    ensures Do(c, u, st).pub.audioSeq == if st.Emit? && st.kind == Audio then WrapAdd16(u.pub.audioSeq, 1) else u.pub.audioSeq
    ensures Do(c, u, st).pub.videoSeq == if st.Emit? && st.kind == Video then WrapAdd16(u.pub.videoSeq, 1) else u.pub.videoSeq
  {
  }

  lemma NextCount(n: nat)
    ensures WrapAdd16(n % 0x1_0000, 1) == (n + 1) % 0x1_0000
  {
  }

  /** The header survives encryption, so the receiver sees the stream's SSRC and the builder's number. */
  lemma ArrivalReadsBack(c: Config, w: World, st: Step)
    requires Usable(c) && st.Emit?
    ensures Accepted(Arriving(c, w, st).pkt)
    ensures var p := ToPacket(Arriving(c, w, st));
            p.ssrc == Ssrc(c, st.kind)
            && p.arrival.sn == SentNumber(w.pub, st.kind)
  {
    var pkt := Built(c, w.pub, st.kind);
    if st.kind == Audio {
      OpusRoundTrip(c, w.pub.audioSeq, w.pub.audioTs);
    } else {
      Vp8RoundTrip(c, w.pub.videoSeq, w.pub.videoTs, IsKeyframe(w.pub));
    }
    HeaderInTheClear(pkt, st.cipher);
  }

  lemma HeaderInTheClear(pkt: seq<Byte>, cipher: seq<Byte>)
    requires |pkt| >= 12
    ensures ParseRtpMini(Wire(pkt, cipher)) == ParseRtpMini(pkt) && Accepted(Wire(pkt, cipher)) == Accepted(pkt)
  {
    SameFixedHeader(Wire(pkt, cipher), pkt);
  }

  function SentNumber(p: Publisher, k: Kind): U16 { if k == Audio then p.audioSeq else p.videoSeq }

  /** A step adds to a stream's arrivals exactly its own surviving packet, under the builder's number. */
  lemma ArrivalsStep(c: Config, u: World, st: Step, k: Kind) returns (more: seq<Arrival>)
    requires Usable(c) && CanBuild(u, st)
    ensures Project(Feed(Do(c, u, st).delivered), Ssrc(c, k)) == Project(Feed(u.delivered), Ssrc(c, k)) + more
    ensures if st.Emit? && st.kind == k && Survives(c, u, st) then |more| == 1 && more[0].sn == SentNumber(u.pub, k)
            else more == []
  {
    more := [];
    if st.Emit? && Survives(c, u, st) {
      var d := Arriving(c, u, st);
      ArrivalReadsBack(c, u, st);
      ProjectSnoc(u.delivered, d, Ssrc(c, k));
      more := if ToPacket(d).ssrc == Ssrc(c, k) then [ToPacket(d).arrival] else [];
    }
  }

  lemma SurvivorsStep(c: Config, w: World, steps: seq<Step>, k: Kind)
    requires Usable(c) && w.pub.frameCount == 0 && VideoFrames(steps) < 0x1_0000_0000 && steps != []
    ensures var before, st := steps[..|steps| - 1], steps[|steps| - 1];
            var kept := Kept(c, w, before, k);
            var more := if st.Emit? && st.kind == k && Survives(c, Play(c, w, before), st) then [|kept|] else [];
            Survivors(Kept(c, w, steps, k)) == Survivors(kept) + more
  {
    var before, st := steps[..|steps| - 1], steps[|steps| - 1];
    if st.Emit? && st.kind == k {
      SurvivorsSnoc(Kept(c, w, before, k), Survives(c, Play(c, w, before), st));
    } else {
      KeptOthers(c, w, steps, k);
    }
  }

  lemma UnwrapsMore(xs: seq<int>, arrivals: seq<Arrival>, moreXs: seq<int>, more: seq<Arrival>, ys: seq<int>, all: seq<Arrival>)
    requires Unwraps(xs, arrivals) && Unwraps(moreXs, more) && ys == xs + moreXs && all == arrivals + more
    ensures Unwraps(ys, all)
  {
  }

  /** A step adds a position to a stream's survivors and the arrival that carries it, or neither. */
  lemma StreamGrows(c: Config, w: World, steps: seq<Step>, k: Kind) returns (xs: seq<int>, more: seq<Arrival>)
    requires Usable(c) && w.pub == NEW_PUBLISHER && VideoFrames(steps) < 0x1_0000_0000 && steps != []
    ensures Unwraps(xs, more)
    ensures Survivors(Kept(c, w, steps, k)) == Survivors(Kept(c, w, steps[..|steps| - 1], k)) + xs
    ensures Project(Feed(Play(c, w, steps).delivered), Ssrc(c, k))
         == Project(Feed(Play(c, w, steps[..|steps| - 1]).delivered), Ssrc(c, k)) + more
  {
    var before, st := steps[..|steps| - 1], steps[|steps| - 1];
    var u := Play(c, w, before);
    SurvivorsStep(c, w, steps, k);
    SequenceNumbersCount(c, w, before);
    xs := if st.Emit? && st.kind == k && Survives(c, u, st) then [|Kept(c, w, before, k)|] else [];
    more := ArrivalsStep(c, u, st, k);
  }

  /** Each stream reaches the receiver as exactly its survivors, numbered by their position modulo 2^16. */
  lemma {:induction false} ReceiverSeesSurvivors(c: Config, w: World, steps: seq<Step>, k: Kind)
    requires Usable(c) && w.pub == NEW_PUBLISHER && w.delivered == [] && VideoFrames(steps) < 0x1_0000_0000
    ensures Unwraps(Survivors(Kept(c, w, steps, k)), Project(Feed(Play(c, w, steps).delivered), Ssrc(c, k)))
  {
    if steps != [] {
      var before := steps[..|steps| - 1];
      ReceiverSeesSurvivors(c, w, before, k);
      var xs, more := StreamGrows(c, w, steps, k);
      UnwrapsMore(Survivors(Kept(c, w, before, k)), Project(Feed(Play(c, w, before).delivered), Ssrc(c, k)), xs, more,
                  Survivors(Kept(c, w, steps, k)), Project(Feed(Play(c, w, steps).delivered), Ssrc(c, k)));
    }
  }

  lemma SurvivorsSnoc(kept: seq<bool>, b: bool)
    ensures Survivors(kept + [b]) == Survivors(kept) + if b then [|kept|] else []
  {
    assert (kept + [b])[..|kept|] == kept;
  }

  lemma ProjectSnoc(ds: seq<Datagram>, d: Datagram, ssrc: U32)
    requires Accepted(d.pkt)
    ensures Project(Feed(ds + [d]), ssrc)
         == Project(Feed(ds), ssrc) + if ToPacket(d).ssrc == ssrc then [ToPacket(d).arrival] else []
  {
    assert (ds + [d])[..|ds|] == ds;
    var fed := Feed(ds);
    assert (fed + [ToPacket(d)])[..|fed|] == fed;
  }

  // ---- The composed theorem ----

  /** What the receiver's record of a stream says about the stream's survivors. */
  ghost predicate Reports(m: Metrics, kept: seq<bool>)
  {
    var ps := Survivors(kept);
    && ps != [] && m.received == |ps|
    && m.firstSeq == ps[0] % 0x1_0000 && m.lastSeq == ps[|ps| - 1] % 0x1_0000
    && m.lost <= DroppedBetween(kept)
    && (m.lost == DroppedBetween(kept) <==> DropRunsWithin(ps, 32767))
    && (DropRunsWithin(ps, 32767) ==> m.outOfOrder == 0)
    && (DropRunsWithin(ps, 32766) ==> m.maxSeq == m.lastSeq)
  }

  /**
   * For every interleaving of audio, video, keyframe requests and filter switches, and every random draw:
   * a stream has a record iff something survived, and the reported loss is the number of packets dropped
   * strictly between first and last survivor iff no run of drops exceeds 32767 - across any number of wraps.
   */
  lemma EndToEndLoss(c: Config, config: NF.FilterConfig, now: real, steps: seq<Step>, k: Kind)
    requires Usable(c) && VideoFrames(steps) < 0x1_0000_0000
    ensures var w := Play(c, Start(config, now), steps);
            var t := TableRun(map[], Feed(w.delivered));
            var kept := Kept(c, Start(config, now), steps, k);
            && (Ssrc(c, k) in t <==> Survivors(kept) != [])
            && (Ssrc(c, k) in t ==> Reports(t[Ssrc(c, k)], kept))
  {
    var w := Play(c, Start(config, now), steps);
    var fed := Feed(w.delivered);
    var own := Project(fed, Ssrc(c, k));
    var kept := Kept(c, Start(config, now), steps, k);
    ReceiverSeesSurvivors(c, Start(config, now), steps, k);
    StoreDemultiplexes(fed, Ssrc(c, k));
    if own != [] {
      var p := Opening(fed, Ssrc(c, k));
      SurvivorsReported(Fresh(Ssrc(c, k), p.pt, p.arrival.now), own, kept);
    }
  }

  lemma SurvivorsReported(m: Metrics, arrivals: seq<Arrival>, kept: seq<bool>)
    requires !m.initialized && m.received == m.lost == m.outOfOrder == 0
    requires arrivals != [] && Unwraps(Survivors(kept), arrivals)
    ensures Reports(Run(m, arrivals), kept)
  {
    var ps := Survivors(kept);
    SurvivorRanks(kept);
    RunBookkeeping(m, arrivals);
    LossReported(m, arrivals, ps);
    MaximumReported(m, arrivals, ps);
    SkippedIsDroppedBetween(kept);
  }

  lemma LossReported(m: Metrics, arrivals: seq<Arrival>, ps: seq<int>)
    requires !m.initialized && m.lost == m.outOfOrder == 0 && Unwraps(ps, arrivals) && Increasing(ps)
    ensures Run(m, arrivals).lost <= Skipped(ps)
    ensures Run(m, arrivals).lost == Skipped(ps) <==> DropRunsWithin(ps, 32767)
    ensures DropRunsWithin(ps, 32767) ==> Run(m, arrivals).outOfOrder == 0
  {
    ForwardLossExactIff(m, arrivals, ps);
    DropRunsAreSteps(ps);
    if StepsFit(ps) {
      CountersMatchIntegers(m, arrivals, ps);
      ForwardHasNoBackward(ps);
    }
  }

  lemma MaximumReported(m: Metrics, arrivals: seq<Arrival>, ps: seq<int>)
    requires !m.initialized && arrivals != [] && Unwraps(ps, arrivals) && Increasing(ps)
    ensures DropRunsWithin(ps, 32766) ==> Run(m, arrivals).maxSeq == Run(m, arrivals).lastSeq
  {
    RunBookkeeping(m, arrivals);
    if DropRunsWithin(ps, 32766) {
      ForwardMaximum(ps);
      MaxSeqIsMaximum(m, arrivals, ps);
    }
  }

  lemma {:induction false} ForwardMaximum(xs: seq<int>)
    requires xs != [] && Increasing(xs)
    ensures Max(xs) == xs[|xs| - 1]
    ensures DropRunsWithin(xs, 32766) ==> NearMaximum(xs)
  {
    var n := |xs|;
    if n > 1 {
      var ys := xs[..n - 1];
      IncreasingPrefix(xs);
      ForwardMaximum(ys);
      if DropRunsWithin(xs, 32766) {
        assert DropRunsWithin(ys, 32766);
      }
    }
  }

  // ---- Conservation across all three components ----

  lemma {:induction false} FilterCountsBothStreams(c: Config, w: World, steps: seq<Step>)
    requires Usable(c) && w.pub == NEW_PUBLISHER && w.delivered == [] && VideoFrames(steps) < 0x1_0000_0000
    ensures var r, a, v := Play(c, w, steps), Kept(c, w, steps, Audio), Kept(c, w, steps, Video);
            && r.filter.total == w.filter.total + |a| + |v|
            && r.filter.dropped == w.filter.dropped + Dropped(a) + Dropped(v)
            && |r.delivered| == |a| + |v| - Dropped(a) - Dropped(v)
  {
    if steps != [] {
      var before, st := steps[..|steps| - 1], steps[|steps| - 1];
      var u := Play(c, w, before);
      FilterCountsBothStreams(c, w, before);
      if st.Emit? {
        DroppedConcat(Kept(c, w, before, st.kind), [Survives(c, u, st)]);
      }
      KeptOthers(c, w, steps, if st.Emit? && st.kind == Audio then Video else Audio);
      if !st.Emit? { KeptOthers(c, w, steps, Video); }
    }
  }

  /** Every packet that gets through is one the receiver counts. */
  lemma {:induction false} DeliveredAreAccepted(c: Config, w: World, steps: seq<Step>)
    requires Usable(c) && w.pub == NEW_PUBLISHER && w.delivered == [] && VideoFrames(steps) < 0x1_0000_0000
    ensures forall d :: d in Play(c, w, steps).delivered ==> Accepted(d.pkt)
  {
    if steps != [] {
      var before, st := steps[..|steps| - 1], steps[|steps| - 1];
      DeliveredAreAccepted(c, w, before);
      if st.Emit? {
        ArrivalReadsBack(c, Play(c, w, before), st);
      }
    }
  }

  lemma KeptOthers(c: Config, w: World, steps: seq<Step>, k: Kind)
    requires Usable(c) && w.pub.frameCount == 0 && VideoFrames(steps) < 0x1_0000_0000
    requires steps != [] && !(steps[|steps| - 1].Emit? && steps[|steps| - 1].kind == k)
    ensures Kept(c, w, steps, k) == Kept(c, w, steps[..|steps| - 1], k)
  {
  }

  lemma {:induction false} FeedKeepsAccepted(ds: seq<Datagram>)
    requires forall d :: d in ds ==> Accepted(d.pkt)
    ensures |Feed(ds)| == |ds|
  {
    if ds != [] {
      FeedKeepsAccepted(ds[..|ds| - 1]);
    }
  }

  /**
   * The header-only receiver's totals over the same run: what it received is what the filter did not drop,
   * and when no run of drops exceeds 32767 its loss is exactly the drops inside the two streams.
   */
  lemma EndToEndTotals(c: Config, config: NF.FilterConfig, now: real, steps: seq<Step>, mode: RecvMode)
    requires Usable(c) && VideoFrames(steps) < 0x1_0000_0000
    ensures var w := Play(c, Start(config, now), steps);
            var a, v := Kept(c, Start(config, now), steps, Audio), Kept(c, Start(config, now), steps, Video);
            var r := HandleAll(mode, w.delivered);
            && r.rxPackets + w.filter.dropped == w.filter.total == |a| + |v|
            && r.rxLost <= DroppedBetween(a) + DroppedBetween(v) <= w.filter.dropped
            && (r.rxLost == DroppedBetween(a) + DroppedBetween(v)
                <==> DropRunsWithin(Survivors(a), 32767) && DropRunsWithin(Survivors(v), 32767))
  {
    var w := Play(c, Start(config, now), steps);
    var a, v := Kept(c, Start(config, now), steps, Audio), Kept(c, Start(config, now), steps, Video);
    var t := TableRun(map[], Feed(w.delivered));
    FilterCountsBothStreams(c, Start(config, now), steps);
    DeliveredAreAccepted(c, Start(config, now), steps);
    FeedKeepsAccepted(w.delivered);
    DecryptFreeCountingRefinesMetrics(mode, w.delivered);
    EndToEndLoss(c, config, now, steps, Audio);
    EndToEndLoss(c, config, now, steps, Video);
    OnlyTwoStreams(c, Start(config, now), steps);
    TwoStreamTotal(Lost(t), c.audioSsrc, c.videoSsrc);
    BetweenIsSomeOfDropped(a);
    BetweenIsSomeOfDropped(v);
  }

  lemma BetweenIsSomeOfDropped(kept: seq<bool>)
    ensures DroppedBetween(kept) <= Dropped(kept)
    ensures |Survivors(kept)| < 2 ==> DroppedBetween(kept) == 0 && DropRunsWithin(Survivors(kept), 32767)
  {
    SurvivorRanks(kept);
    var ps := Survivors(kept);
    if |ps| >= 2 {
      IncreasingOrder(ps, 0, |ps| - 1);
      SliceDropped(kept, ps[0], ps[|ps| - 1]);
    }
  }

  lemma SliceDropped(kept: seq<bool>, a: nat, b: nat)
    requires a <= b <= |kept|
    ensures Dropped(kept[a..b]) <= Dropped(kept)
  {
    assert kept[..b] == kept[..a] + kept[a..b] && kept == kept[..b] + kept[b..];
    DroppedConcat(kept[..a], kept[a..b]);
    DroppedConcat(kept[..b], kept[b..]);
  }

  lemma TwoStreamTotal(f: map<U32, nat>, a: U32, v: U32)
    requires f.Keys <= {a, v} && a != v
    ensures Total(f) == (if a in f then f[a] else 0) + (if v in f then f[v] else 0)
  {
    if a in f { TotalSplits(f, a); }
    var g := f - {a};
    if a !in f { assert g == f; }
    if v in g { TotalSplits(g, v); }
    assert g - {v} == map[];
    if v !in g { assert g == map[]; }
  }

  lemma {:induction false} OnlyTwoStreams(c: Config, w: World, steps: seq<Step>)
    requires Usable(c) && w.pub == NEW_PUBLISHER && w.delivered == [] && VideoFrames(steps) < 0x1_0000_0000
    ensures TableRun(map[], Feed(Play(c, w, steps).delivered)).Keys <= {c.audioSsrc, c.videoSsrc}
  {
    if steps != [] {
      var before, st := steps[..|steps| - 1], steps[|steps| - 1];
      var u := Play(c, w, before);
      OnlyTwoStreams(c, w, before);
      if st.Emit? && Survives(c, u, st) {
        ArrivalReadsBack(c, u, st);
        OneMoreStream(u.delivered, Arriving(c, u, st));
      }
    }
  }

  lemma OneMoreStream(ds: seq<Datagram>, d: Datagram)
    requires Accepted(d.pkt)
    ensures TableRun(map[], Feed(ds + [d])).Keys == TableRun(map[], Feed(ds)).Keys + {ToPacket(d).ssrc}
  {
    assert (ds + [d])[..|ds|] == ds;
    var fed := Feed(ds);
    assert (fed + [ToPacket(d)])[..|fed|] == fed;
  }
}
