/** The token bucket and the packet filter around it (oxlab-net/filter.rs). */
module NetFilter {
  import opened Bytes

  datatype FilterConfig = FilterConfig(lossPercent: real, delayMs: nat, jitterMs: nat, bandwidthKbps: nat)

  datatype FilterResult = Drop | Pass(delayMs: nat)

  const PRISTINE := FilterConfig(0.0, 0, 0, 0)

  datatype Bucket = Bucket(tokens: real, capacity: real, rate: real, lastRefill: real)

  function NewBucket(kbps: nat, now: real): Bucket
  {
    var rate := kbps as real * 1000.0 / 8.0;
    Bucket(rate * 0.1, rate * 0.1, rate, now)
  }

  function Min(a: real, b: real): real { if a <= b then a else b }

  function Earned(rate: real, from: real, to: real): real { if to < from then 0.0 else rate * (to - from) }

  /** Tokens available to a packet arriving at `now`. */
  function Level(b: Bucket, now: real): real
  {
    Min(b.tokens + Earned(b.rate, b.lastRefill, now), b.capacity)
  }

  predicate Affords(b: Bucket, bytes: nat, now: real) { Level(b, now) >= bytes as real }

  function Spend(b: Bucket, bytes: nat, now: real): Bucket
  {
    b.(tokens := if Affords(b, bytes, now) then Level(b, now) - bytes as real else Level(b, now), lastRefill := now)
  }

  class TokenBucket {
    var tokens: real
    const capacity: real
    const rate: real
    var lastRefill: real

    ghost function View(): Bucket
      reads this
    {
      Bucket(tokens, capacity, rate, lastRefill)
    }

    constructor (kbps: nat, now: real)
      ensures View() == NewBucket(kbps, now)
    {
      var r := kbps as real * 1000.0 / 8.0;
      rate, capacity, tokens, lastRefill := r, r * 0.1, r * 0.1, now;
    }

    method Consume(bytes: nat, now: real) returns (ok: bool)
      modifies this
      ensures ok == Affords(old(View()), bytes, now)
      ensures View() == Spend(old(View()), bytes, now)
    {
      var earned := Earned(rate, lastRefill, now);
      lastRefill := now;
      tokens := Min(tokens + earned, capacity);
      var cost := bytes as real;
      if tokens >= cost {
        tokens := tokens - cost;
        ok := true;
      } else {
        ok := false;
      }
    }
  }

  // ---- The bucket over a whole stream of offers ----

  datatype Offer = Offer(bytes: nat, at: real)

  function Front<T>(s: seq<T>): seq<T>
    requires s != []
  {
    s[..|s| - 1]
  }

  function Last<T>(s: seq<T>): T
    requires s != []
  {
    s[|s| - 1]
  }

  function BucketAfter(b: Bucket, offers: seq<Offer>): Bucket
  {
    if offers == [] then b
    else Spend(BucketAfter(b, Front(offers)), Last(offers).bytes, Last(offers).at)
  }

  /** Whether the last offer passes. */
  predicate Admits(b: Bucket, offers: seq<Offer>)
    requires offers != []
  {
    Affords(BucketAfter(b, Front(offers)), Last(offers).bytes, Last(offers).at)
  }

  /** Bytes that pass among the offers from index `from` on. */
  function PassedBytes(b: Bucket, offers: seq<Offer>, from: nat): nat
  {
    if |offers| <= from then 0
    else PassedBytes(b, Front(offers), from) + if Admits(b, offers) then Last(offers).bytes else 0
  }

  function OfferedBytes(offers: seq<Offer>, from: nat): nat
  {
    if |offers| <= from then 0 else OfferedBytes(Front(offers), from) + Last(offers).bytes
  }

  /** A clock that never runs backwards from `from` on. */
  predicate Ticking(from: real, offers: seq<Offer>)
  {
    offers != [] ==> Ticking(from, Front(offers)) && LastTime(from, Front(offers)) <= Last(offers).at
  }

  function LastTime(from: real, offers: seq<Offer>): real { if offers == [] then from else Last(offers).at }

  /** The bucket state every reachable bucket is in. */
  predicate Sound(b: Bucket) { 0.0 <= b.tokens <= b.capacity && 0.0 <= b.rate }

  /** What a window may carry: one burst plus what the rate earns in it. */
  function Allowance(b: Bucket, from: real, to: real): real { b.capacity + Earned(b.rate, from, to) }

  lemma EarnedSplits(rate: real, a: real, b: real, c: real)
    requires a <= b <= c && 0.0 <= rate
    ensures Earned(rate, a, c) == Earned(rate, a, b) + Earned(rate, b, c)
    ensures 0.0 <= Earned(rate, a, b)
  {
    assert rate * (c - a) == rate * (b - a) + rate * (c - b);
  }

  lemma {:induction false} TickingFront(from: real, offers: seq<Offer>)
    requires offers != [] && Ticking(from, offers)
    ensures Ticking(from, Front(offers))
    ensures LastTime(from, Front(offers)) <= Last(offers).at
    ensures forall i :: 0 <= i < |offers| ==> from <= offers[i].at <= Last(offers).at
  {
    var f := Front(offers);
    if f != [] {
      TickingFront(from, f);
      assert forall i :: 0 <= i < |f| ==> f[i] == offers[i];
    }
  }

  lemma {:induction false} BucketFixed(b: Bucket, offers: seq<Offer>)
    requires Sound(b) && Ticking(b.lastRefill, offers)
    ensures var e := BucketAfter(b, offers);
            Sound(e) && e.capacity == b.capacity && e.rate == b.rate
            && e.lastRefill == if offers == [] then b.lastRefill else Last(offers).at
  {
    if offers != [] {
      TickingFront(b.lastRefill, offers);
      BucketFixed(b, Front(offers));
      var e := BucketAfter(b, Front(offers));
      EarnedSplits(b.rate, e.lastRefill, Last(offers).at, Last(offers).at);
    }
  }

  /** The tokens found by the last offer, bounded by every window ending there. */
  function LevelAt(b: Bucket, offers: seq<Offer>): real
    requires offers != []
  {
    Level(BucketAfter(b, Front(offers)), Last(offers).at)
  }

  lemma LevelStep(b: Bucket, offers: seq<Offer>)
    requires |offers| > 1 && Sound(b) && Ticking(b.lastRefill, offers)
    ensures var f := Front(offers);
            var left := LevelAt(b, f) - if Admits(b, f) then Last(f).bytes as real else 0.0;
            LevelAt(b, offers) == Min(left + Earned(b.rate, Last(f).at, Last(offers).at), b.capacity)
  {
    TickingFront(b.lastRefill, offers);
    BucketFixed(b, Front(offers));
    BucketFixed(b, Front(Front(offers)));
  }

  lemma {:induction false} LevelBound(b: Bucket, offers: seq<Offer>, i: nat)
    requires i < |offers| && Sound(b) && Ticking(b.lastRefill, offers)
    ensures 0.0 <= LevelAt(b, offers)
    ensures LevelAt(b, offers)
         <= Allowance(b, offers[i].at, Last(offers).at) - PassedBytes(b, Front(offers), i) as real
  {
    TickingFront(b.lastRefill, offers);
    LevelSound(b, offers);
    if i < |offers| - 1 {
      var f := Front(offers);
      TickingFront(b.lastRefill, f);
      LevelBound(b, f, i);
      LevelStep(b, offers);
      EarnedSplits(b.rate, offers[i].at, Last(f).at, Last(offers).at);
    } else {
      EarnedSplits(b.rate, offers[i].at, offers[i].at, offers[i].at);
    }
  }

  lemma LevelSound(b: Bucket, offers: seq<Offer>)
    requires offers != [] && Sound(b) && Ticking(b.lastRefill, offers)
    ensures 0.0 <= LevelAt(b, offers) <= b.capacity
  {
    TickingFront(b.lastRefill, offers);
    BucketFixed(b, Front(offers));
    var e := BucketAfter(b, Front(offers));
    EarnedSplits(b.rate, e.lastRefill, Last(offers).at, Last(offers).at);
  }

  /** Starting full, some window is met exactly: the one since the bucket was last full. */
  lemma {:induction false} LevelWitness(b: Bucket, offers: seq<Offer>) returns (i: nat)
    requires offers != [] && Sound(b) && b.tokens == b.capacity && Ticking(b.lastRefill, offers)
    ensures i < |offers|
    ensures LevelAt(b, offers)
         == Allowance(b, offers[i].at, Last(offers).at) - PassedBytes(b, Front(offers), i) as real
  {
    i := |offers| - 1;
    TickingFront(b.lastRefill, offers);
    EarnedSplits(b.rate, offers[i].at, offers[i].at, offers[i].at);
    if |offers| > 1 {
      LevelStep(b, offers);
      if LevelAt(b, offers) != b.capacity {
        var f := Front(offers);
        TickingFront(b.lastRefill, f);
        i := LevelWitness(b, f);
        EarnedSplits(b.rate, offers[i].at, Last(f).at, Last(offers).at);
      }
    } else {
      EarnedSplits(b.rate, b.lastRefill, offers[0].at, offers[0].at);
    }
  }

  /** Throughput: no window ever carries more than a burst plus the rate, from any sound bucket. */
  lemma WindowThroughput(b: Bucket, offers: seq<Offer>, i: nat)
    requires i < |offers| && Sound(b) && Ticking(b.lastRefill, offers)
    ensures PassedBytes(b, offers, i) as real <= Allowance(b, offers[i].at, Last(offers).at)
  {
    LevelBound(b, offers, i);
  }

  /** The policer that remembers every packet: admit exactly what keeps all windows within their allowance. */
  ghost predicate FitsEveryWindow(b: Bucket, offers: seq<Offer>)
    requires offers != []
  {
    forall i :: 0 <= i < |offers| ==>
      (PassedBytes(b, Front(offers), i) + Last(offers).bytes) as real <= Allowance(b, offers[i].at, Last(offers).at)
  }

  /** The bucket's one number decides exactly what that policer decides. */
  lemma BucketIsWindowPolicer(b: Bucket, offers: seq<Offer>)
    requires offers != [] && Sound(b) && b.tokens == b.capacity && Ticking(b.lastRefill, offers)
    ensures Admits(b, offers) <==> FitsEveryWindow(b, offers)
  {
    if Admits(b, offers) {
      forall i | 0 <= i < |offers|
        ensures (PassedBytes(b, Front(offers), i) + Last(offers).bytes) as real <= Allowance(b, offers[i].at, Last(offers).at)
      {
        LevelBound(b, offers, i);
      }
    }
    if FitsEveryWindow(b, offers) {
      var i := LevelWitness(b, offers);
      assert (PassedBytes(b, Front(offers), i) + Last(offers).bytes) as real <= Allowance(b, offers[i].at, Last(offers).at);
    }
  }

  ghost predicate AllAdmitted(b: Bucket, offers: seq<Offer>)
  {
    offers != [] ==> AllAdmitted(b, Front(offers)) && Admits(b, offers)
  }

  /** Every window of the offered stream keeps within its allowance. */
  ghost predicate Conforms(b: Bucket, offers: seq<Offer>)
  {
    offers != [] ==>
      && Conforms(b, Front(offers))
      && forall i :: 0 <= i < |offers| ==> OfferedBytes(offers, i) as real <= Allowance(b, offers[i].at, Last(offers).at)
  }

  lemma {:induction false} NothingDroppedYet(b: Bucket, offers: seq<Offer>, i: nat)
    requires AllAdmitted(b, offers)
    ensures PassedBytes(b, offers, i) == OfferedBytes(offers, i)
  {
    if i < |offers| {
      NothingDroppedYet(b, Front(offers), i);
    }
  }

  /** A stream is never throttled if and only if it conforms. */
  lemma {:induction false} NeverThrottledIffConforming(b: Bucket, offers: seq<Offer>)
    requires Sound(b) && b.tokens == b.capacity && Ticking(b.lastRefill, offers)
    ensures AllAdmitted(b, offers) <==> Conforms(b, offers)
  {
    if offers != [] {
      var f := Front(offers);
      TickingFront(b.lastRefill, offers);
      NeverThrottledIffConforming(b, f);
      BucketIsWindowPolicer(b, offers);
      if AllAdmitted(b, f) {
        forall i | 0 <= i < |offers|
          ensures PassedBytes(b, f, i) + Last(offers).bytes == OfferedBytes(offers, i)
        {
          NothingDroppedYet(b, f, i);
        }
      }
    }
  }

  // ---- The filter: bandwidth, then random loss, then delay ----

  datatype FilterState = FilterState(config: FilterConfig, bucket: Option<Bucket>, total: nat, dropped: nat)

  /** One packet, with the clock and the two random draws it meets; or a change of configuration. */
  datatype Event = Packet(len: nat, now: real, roll: real, jitter: int) | Reconfigure(config: FilterConfig, now: real)

  /** The draws a generator can produce: a percentage below 100 and a jitter within its bound. */
  predicate ValidDraws(config: FilterConfig, e: Event)
  {
    e.Packet? ==> 0.0 <= e.roll < 100.0 && -(config.jitterMs as int) <= e.jitter <= config.jitterMs
  }

  function BucketFor(config: FilterConfig, now: real): Option<Bucket>
  {
    if config.bandwidthKbps > 0 then Some(NewBucket(config.bandwidthKbps, now)) else None
  }

  function NewFilter(config: FilterConfig, now: real): FilterState
  {
    FilterState(config, BucketFor(config, now), 0, 0)
  }

  predicate Throttles(s: FilterState, e: Event)
    requires e.Packet?
  {
    s.bucket.Some? && !Affords(s.bucket.value, e.len, e.now)
  }

  predicate Loses(config: FilterConfig, e: Event)
    requires e.Packet?
  {
    config.lossPercent > 0.0 && e.roll < config.lossPercent
  }

  function Verdict(s: FilterState, e: Event): FilterResult
    requires e.Packet?
  {
    if Throttles(s, e) || Loses(s.config, e) then Drop
    else
      var ms := s.config.delayMs + if s.config.jitterMs > 0 then e.jitter else 0;
      Pass(if ms < 0 then 0 else ms)
  }

  function FilterStep(s: FilterState, e: Event): FilterState
  {
    match e
    case Reconfigure(config, now) => s.(config := config, bucket := BucketFor(config, now))
    case Packet(len, now, _, _) =>
      s.(bucket := if s.bucket.Some? then Some(Spend(s.bucket.value, len, now)) else None,
         total := s.total + 1, dropped := if Verdict(s, e).Drop? then s.dropped + 1 else s.dropped)
  }

  class NetFilter {
    var config: FilterConfig
    var tokenBucket: TokenBucket?
    var statsTotal: nat
    var statsDropped: nat

    ghost function View(): FilterState
      reads this, tokenBucket
    {
      FilterState(config, if tokenBucket == null then None else Some(tokenBucket.View()), statsTotal, statsDropped)
    }

    constructor (config: FilterConfig, now: real)
      ensures View() == NewFilter(config, now)
      ensures tokenBucket != null ==> fresh(tokenBucket)
    {
      this.config, statsTotal, statsDropped, tokenBucket := config, 0, 0, null;
      new;
      if config.bandwidthKbps > 0 {
        tokenBucket := new TokenBucket(config.bandwidthKbps, now);
      }
    }

    method Filter(packetLen: nat, now: real, roll: real, jitterDraw: int) returns (r: FilterResult)
      modifies this`statsTotal, this`statsDropped, tokenBucket
      ensures var e := Packet(packetLen, now, roll, jitterDraw);
              r == Verdict(old(View()), e) && View() == FilterStep(old(View()), e)
    {
      statsTotal := statsTotal + 1;
      if tokenBucket != null {
        var ok := tokenBucket.Consume(packetLen, now);
        if !ok {
          statsDropped := statsDropped + 1;
          return Drop;
        }
      }
      if config.lossPercent > 0.0 {
        if roll < config.lossPercent {
          statsDropped := statsDropped + 1;
          return Drop;
        }
      }
      var jitter := if config.jitterMs > 0 then jitterDraw else 0;
      var total := config.delayMs + jitter;
      return Pass(if total < 0 then 0 else total);
    }

    method Update(config: FilterConfig, now: real)
      modifies this`config, this`tokenBucket
      ensures View() == FilterStep(old(View()), Reconfigure(config, now))
      ensures tokenBucket != null ==> fresh(tokenBucket)
    {
      if config.bandwidthKbps > 0 {
        tokenBucket := new TokenBucket(config.bandwidthKbps, now);
      } else {
        tokenBucket := null;
      }
      this.config := config;
    }

    /** The share of dropped packets, in percent; zero before any packet. */
    method DropRate() returns (rate: real)
      ensures statsTotal == 0 ==> rate == 0.0
      ensures statsTotal > 0 ==> rate * statsTotal as real == statsDropped as real * 100.0
      ensures 0.0 <= rate && (statsDropped <= statsTotal ==> rate <= 100.0)
    {
      if statsTotal == 0 {
        return 0.0;
      }
      rate := (statsDropped as real / statsTotal as real) * 100.0;
      Share(statsDropped, statsTotal);
    }
  }

  lemma Share(part: nat, whole: nat)
    requires whole > 0
    ensures 0.0 <= (part as real / whole as real) * 100.0
    ensures part <= whole ==> (part as real / whole as real) * 100.0 <= 100.0
    ensures (part as real / whole as real) * 100.0 * whole as real == part as real * 100.0
  {
    var q := part as real / whole as real;
    assert q * whole as real == part as real;
    assert 0.0 <= q && (part <= whole ==> q <= 1.0);
  }

  function FilterRun(s: FilterState, events: seq<Event>): FilterState
  {
    if events == [] then s else FilterStep(FilterRun(s, Front(events)), Last(events))
  }

  /** The verdicts of a run, one for each packet. */
  function Verdicts(s: FilterState, events: seq<Event>): seq<FilterResult>
  {
    if events == [] then []
    else
      Verdicts(s, Front(events))
      + if Last(events).Packet? then [Verdict(FilterRun(s, Front(events)), Last(events))] else []
  }

  function Drops(results: seq<FilterResult>): nat
  {
    if results == [] then 0 else Drops(Front(results)) + if Last(results).Drop? then 1 else 0
  }

  /** The two counters over any run, across reconfigurations. */
  lemma {:induction false} StatsCountVerdicts(s: FilterState, events: seq<Event>)
    ensures FilterRun(s, events).total == s.total + |Verdicts(s, events)|
    ensures FilterRun(s, events).dropped == s.dropped + Drops(Verdicts(s, events))
    ensures Drops(Verdicts(s, events)) <= |Verdicts(s, events)|
  {
    if events != [] {
      StatsCountVerdicts(s, Front(events));
      var vs := Verdicts(s, Front(events));
      if Last(events).Packet? {
        var v := Verdict(FilterRun(s, Front(events)), Last(events));
        assert Front(vs + [v]) == vs;
      } else {
        assert Verdicts(s, events) == vs;
      }
    }
  }

  predicate OnlyPackets(events: seq<Event>) { forall i :: 0 <= i < |events| ==> events[i].Packet? }

  predicate VerdictInBand(config: FilterConfig, v: FilterResult)
  {
    && (config.lossPercent >= 100.0 ==> v == Drop)
    && (config == PRISTINE ==> v == Pass(0))
    && (v.Pass? ==> config.delayMs - config.jitterMs <= v.delayMs <= config.delayMs + config.jitterMs)
  }

  /** Total loss drops every packet, a pristine filter drops and delays none, and delays keep to the jitter band. */
  lemma {:induction false} VerdictsStayInBand(config: FilterConfig, start: real, events: seq<Event>)
    requires OnlyPackets(events) && forall i :: 0 <= i < |events| ==> ValidDraws(config, events[i])
    ensures var s := NewFilter(config, start);
            && FilterRun(s, events).config == config
            && (FilterRun(s, events).bucket.None? <==> config.bandwidthKbps == 0)
            && |Verdicts(s, events)| == |events|
            && forall v :: v in Verdicts(s, events) ==> VerdictInBand(config, v)
  {
    if events != [] {
      VerdictsStayInBand(config, start, Front(events));
    }
  }

  /** The bucket always belongs to the current configuration and is sound. */
  predicate BucketInStep(s: FilterState)
  {
    && (s.bucket.Some? <==> s.config.bandwidthKbps > 0)
    && (s.bucket.Some? ==>
          var b, full := s.bucket.value, NewBucket(s.config.bandwidthKbps, 0.0);
          Sound(b) && b.rate == full.rate && b.capacity == full.capacity)
  }

  lemma {:induction false} BucketAlwaysInStep(config: FilterConfig, start: real, events: seq<Event>)
    ensures BucketInStep(FilterRun(NewFilter(config, start), events))
  {
    if events != [] {
      BucketAlwaysInStep(config, start, Front(events));
      var s, e := FilterRun(NewFilter(config, start), Front(events)), Last(events);
      if e.Packet? && s.bucket.Some? {
        SpendSound(s.bucket.value, e.len, e.now);
      }
    }
  }

  lemma SpendSound(b: Bucket, bytes: nat, now: real)
    requires Sound(b)
    ensures Sound(Spend(b, bytes, now))
  {
    if b.lastRefill <= now {
      EarnedSplits(b.rate, b.lastRefill, now, now);
    }
  }

  // ---- Between two reconfigurations ----

  function Offers(events: seq<Event>): (offers: seq<Offer>)
    requires OnlyPackets(events)
    ensures |offers| == |events|
    ensures forall i :: 0 <= i < |events| ==> offers[i] == Offer(events[i].len, events[i].now)
  {
    seq(|events|, i requires 0 <= i < |events| => Offer(events[i].len, events[i].now))
  }

  lemma OffersFront(events: seq<Event>)
    requires events != [] && OnlyPackets(events)
    ensures Front(Offers(events)) == Offers(Front(events))
  {
  }

  lemma {:induction false} StretchRunsTheBucket(s: FilterState, events: seq<Event>)
    requires s.bucket.Some? && OnlyPackets(events)
    ensures var r := FilterRun(s, events);
            r.config == s.config && r.bucket == Some(BucketAfter(s.bucket.value, Offers(events)))
  {
    if events != [] {
      OffersFront(events);
      StretchRunsTheBucket(s, Front(events));
    }
  }

  /** Bytes of the packets from index `from` on that the filter lets through. */
  function ForwardedBytes(s: FilterState, events: seq<Event>, from: nat): nat
    requires OnlyPackets(events)
  {
    if |events| <= from then 0
    else
      ForwardedBytes(s, Front(events), from)
      + if Verdict(FilterRun(s, Front(events)), Last(events)).Pass? then Last(events).len else 0
  }

  lemma {:induction false} ForwardedWithinBucket(s: FilterState, events: seq<Event>, from: nat)
    requires s.bucket.Some? && OnlyPackets(events)
    ensures ForwardedBytes(s, events, from) <= PassedBytes(s.bucket.value, Offers(events), from)
  {
    if from < |events| {
      OffersFront(events);
      ForwardedWithinBucket(s, Front(events), from);
      StretchRunsTheBucket(s, Front(events));
    }
  }

  /**
   * After any history, every window of packets up to the next reconfiguration forwards at most
   * a 100 ms burst plus what the configured bandwidth earns in that window.
   */
  lemma ThroughputBetweenResets(config: FilterConfig, start: real, history: seq<Event>, events: seq<Event>, from: nat)
    requires OnlyPackets(events) && from < |events|
    requires var s := FilterRun(NewFilter(config, start), history);
             s.bucket.Some? && Ticking(s.bucket.value.lastRefill, Offers(events))
    ensures var s := FilterRun(NewFilter(config, start), history);
            var rate := s.config.bandwidthKbps as real * 1000.0 / 8.0;
            ForwardedBytes(s, events, from) as real <= rate * 0.1 + Earned(rate, events[from].now, Last(events).now)
  {
    var s := FilterRun(NewFilter(config, start), history);
    BucketAlwaysInStep(config, start, history);
    ThroughputOfBucket(s, events, from);
  }

  lemma ThroughputOfBucket(s: FilterState, events: seq<Event>, from: nat)
    requires s.bucket.Some? && Sound(s.bucket.value) && OnlyPackets(events) && from < |events|
    requires Ticking(s.bucket.value.lastRefill, Offers(events))
    ensures ForwardedBytes(s, events, from) as real <= Allowance(s.bucket.value, events[from].now, Last(events).now)
  {
    ForwardedWithinBucket(s, events, from);
    WindowThroughput(s.bucket.value, Offers(events), from);
  }

  ghost predicate NoneDropped(s: FilterState, events: seq<Event>)
    requires OnlyPackets(events)
  {
    events != [] ==> NoneDropped(s, Front(events)) && Verdict(FilterRun(s, Front(events)), Last(events)).Pass?
  }

  /** The bandwidth stage refuses no packet, whatever the random loss behind it does. */
  ghost predicate NoneThrottled(s: FilterState, events: seq<Event>)
    requires OnlyPackets(events)
  {
    events != [] ==> NoneThrottled(s, Front(events)) && !Throttles(FilterRun(s, Front(events)), Last(events))
  }

  /** The bucket was made at `now`, by construction or by a reconfiguration. */
  predicate JustSet(s: FilterState, now: real) { s.bucket == BucketFor(s.config, now) }

  /**
   * With any random loss, after construction or after any reconfiguration: the bandwidth stage drops nothing
   * of the packets that follow if and only if they conform.
   */
  lemma NothingThrottledIffConforming(s: FilterState, now: real, events: seq<Event>)
    requires JustSet(s, now) && s.config.bandwidthKbps > 0
    requires OnlyPackets(events) && Ticking(now, Offers(events))
    ensures NoneThrottled(s, events) <==> Conforms(NewBucket(s.config.bandwidthKbps, now), Offers(events))
  {
    NoneThrottledIsAllAdmitted(s, events);
    NeverThrottledIffConforming(NewBucket(s.config.bandwidthKbps, now), Offers(events));
  }

  lemma {:induction false} NoneThrottledIsAllAdmitted(s: FilterState, events: seq<Event>)
    requires s.bucket.Some? && OnlyPackets(events)
    ensures NoneThrottled(s, events) <==> AllAdmitted(s.bucket.value, Offers(events))
  {
    if events != [] {
      OffersFront(events);
      NoneThrottledIsAllAdmitted(s, Front(events));
      StretchRunsTheBucket(s, Front(events));
    }
  }

  /** Without random loss, the filter forwards a whole stream if and only if the stream conforms. */
  lemma LosslessFilterForwardsAllIffConforming(s: FilterState, now: real, events: seq<Event>)
    requires JustSet(s, now) && s.config.bandwidthKbps > 0 && s.config.lossPercent <= 0.0
    requires OnlyPackets(events) && Ticking(now, Offers(events))
    ensures NoneDropped(s, events) <==> Conforms(NewBucket(s.config.bandwidthKbps, now), Offers(events))
  {
    NoneDroppedIsNoneThrottled(s, events);
    NothingThrottledIffConforming(s, now, events);
  }

  lemma {:induction false} NoneDroppedIsNoneThrottled(s: FilterState, events: seq<Event>)
    requires s.bucket.Some? && OnlyPackets(events) && s.config.lossPercent <= 0.0
    ensures NoneDropped(s, events) <==> NoneThrottled(s, events)
  {
    if events != [] {
      NoneDroppedIsNoneThrottled(s, Front(events));
      StretchRunsTheBucket(s, Front(events));
    }
  }

  /** Construction and reconfiguration both leave the filter just set, after whatever history. */
  lemma ResetsSetTheBucket(config: FilterConfig, start: real, history: seq<Event>, next: FilterConfig, now: real)
    ensures JustSet(NewFilter(config, start), start)
    ensures JustSet(FilterRun(NewFilter(config, start), history + [Reconfigure(next, now)]), now)
  {
    var events := history + [Reconfigure(next, now)];
    assert Front(events) == history && Last(events) == Reconfigure(next, now);
  }
}
