/** What the filter does to a stream, in kilobits, milliseconds and percent. */
module FilterLaws {
  import opened Bytes
  import opened NetFilter

  // ---- Bandwidth ----

  function TotalLength(events: seq<Event>): nat
    requires OnlyPackets(events)
  {
    if events == [] then 0 else TotalLength(Front(events)) + Last(events).len
  }

  /** A clock that starts at `now` and never runs backwards. */
  predicate Forward(now: real, events: seq<Event>)
    requires OnlyPackets(events)
  {
    && (events != [] ==> now <= events[0].now)
    && forall i, j :: 0 <= i <= j < |events| ==> events[i].now <= events[j].now
  }

  /** What kbps kilobits a second carry between two instants, after a burst of 100 ms. */
  function Budget(kbps: nat, from: real, to: real): real
  {
    kbps as real * 1000.0 / 8.0 * 0.1 + kbps as real * 1000.0 / 8.0 * (to - from)
  }

  ghost predicate WithinBudget(kbps: nat, events: seq<Event>)
    requires OnlyPackets(events)
  {
    forall i, j :: 0 <= i <= j < |events| ==> FitsWindow(kbps, events, i, j)
  }

  /** The packets from i to j, both included. */
  predicate FitsWindow(kbps: nat, events: seq<Event>, i: nat, j: nat)
    requires OnlyPackets(events) && i <= j < |events|
  {
    TotalLength(events[i..j + 1]) as real <= Budget(kbps, events[i].now, events[j].now)
  }

  /**
   * From construction or any reconfiguration on, the bandwidth limit refuses nothing if and only if the packets
   * offered in every window fit its budget; without random loss, the filter then forwards everything, and only then.
   */
  lemma NothingRefusedIffWithinBudget(s: FilterState, before: FilterState, config: FilterConfig, now: real, events: seq<Event>)
    requires s == NewFilter(config, now) || s == FilterStep(before, Reconfigure(config, now))
    requires config.bandwidthKbps > 0 && OnlyPackets(events) && Forward(now, events)
    ensures NoneThrottled(s, events) <==> WithinBudget(config.bandwidthKbps, events)
    ensures config.lossPercent <= 0.0 ==> (NoneDropped(s, events) <==> WithinBudget(config.bandwidthKbps, events))
  {
    ForwardTicks(now, events);
    NothingThrottledIffConforming(s, now, events);
    ConformsIffWithinBudget(config.bandwidthKbps, now, events);
    if config.lossPercent <= 0.0 {
      LosslessFilterForwardsAllIffConforming(s, now, events);
    }
  }

  lemma {:induction false} ForwardTicks(now: real, events: seq<Event>)
    requires OnlyPackets(events) && Forward(now, events)
    ensures Ticking(now, Offers(events))
  {
    if events != [] {
      OffersFront(events);
      ForwardTicks(now, Front(events));
    }
  }

  lemma {:induction false} OfferedIsTotal(events: seq<Event>, i: nat)
    requires OnlyPackets(events) && i <= |events|
    ensures OfferedBytes(Offers(events), i) == TotalLength(events[i..])
  {
    if i < |events| {
      OffersFront(events);
      OfferedIsTotal(Front(events), i);
      assert Front(events[i..]) == Front(events)[i..];
    }
  }

  lemma BudgetIsAllowance(kbps: nat, now: real, from: real, to: real)
    requires from <= to
    ensures Allowance(NewBucket(kbps, now), from, to) == Budget(kbps, from, to)
  {
  }

  /** A window that ends at the last packet. */
  predicate FitsTail(kbps: nat, events: seq<Event>, i: nat)
    requires OnlyPackets(events) && i < |events|
  {
    TotalLength(events[i..]) as real <= Budget(kbps, events[i].now, Last(events).now)
  }

  predicate OfferFits(b: Bucket, offers: seq<Offer>, i: nat)
    requires i < |offers|
  {
    OfferedBytes(offers, i) as real <= Allowance(b, offers[i].at, Last(offers).at)
  }

  lemma TailWindow(kbps: nat, now: real, events: seq<Event>, i: nat)
    requires OnlyPackets(events) && Forward(now, events) && i < |events|
    ensures OfferFits(NewBucket(kbps, now), Offers(events), i) <==> FitsTail(kbps, events, i)
  {
    OfferedIsTotal(events, i);
    BudgetIsAllowance(kbps, now, events[i].now, Last(events).now);
  }

  lemma BudgetSnoc(kbps: nat, events: seq<Event>)
    requires OnlyPackets(events) && events != []
    ensures WithinBudget(kbps, events)
       <==> WithinBudget(kbps, Front(events)) && forall i :: 0 <= i < |events| ==> FitsTail(kbps, events, i)
  {
    forall i, j | 0 <= i <= j < |events| - 1 ensures FitsWindow(kbps, Front(events), i, j) == FitsWindow(kbps, events, i, j) {
      assert Front(events)[i..j + 1] == events[i..j + 1];
    }
    var n := |events| - 1;
    forall i | 0 <= i <= n ensures FitsTail(kbps, events, i) == FitsWindow(kbps, events, i, n) {
      assert events[i..n + 1] == events[i..];
    }
    if WithinBudget(kbps, Front(events)) && forall i :: 0 <= i < |events| ==> FitsTail(kbps, events, i) {
      forall i, j | 0 <= i <= j < |events| ensures FitsWindow(kbps, events, i, j) {
        assert if j < n then FitsWindow(kbps, Front(events), i, j) else FitsTail(kbps, events, i);
      }
    } else if WithinBudget(kbps, events) {
      assert forall i, j :: 0 <= i <= j < n ==> FitsWindow(kbps, events, i, j);
      assert forall i :: 0 <= i <= n ==> FitsWindow(kbps, events, i, n);
    }
  }

  lemma ConformsSnoc(b: Bucket, offers: seq<Offer>)
    requires offers != []
    ensures Conforms(b, offers) <==> Conforms(b, Front(offers)) && forall i :: 0 <= i < |offers| ==> OfferFits(b, offers, i)
  {
    if Conforms(b, Front(offers)) && forall i :: 0 <= i < |offers| ==> OfferFits(b, offers, i) {
      forall i | 0 <= i < |offers| ensures OfferedBytes(offers, i) as real <= Allowance(b, offers[i].at, Last(offers).at) {
        assert OfferFits(b, offers, i);
      }
    }
  }

  lemma {:induction false} ConformsIffWithinBudget(kbps: nat, now: real, events: seq<Event>)
    requires OnlyPackets(events) && Forward(now, events)
    ensures Conforms(NewBucket(kbps, now), Offers(events)) <==> WithinBudget(kbps, events)
  {
    if events != [] {
      OffersFront(events);
      ConformsIffWithinBudget(kbps, now, Front(events));
      forall i | 0 <= i < |events|
        ensures OfferFits(NewBucket(kbps, now), Offers(events), i) <==> FitsTail(kbps, events, i)
      {
        TailWindow(kbps, now, events, i);
      }
      ConformsSnoc(NewBucket(kbps, now), Offers(events));
      BudgetSnoc(kbps, events);
    }
  }

  // ---- Random loss and delay ----

  /** With unlimited bandwidth the draws decide: loss by the roll, delay by the shift, never below zero. */
  lemma {:induction false} DrawsDecide(config: FilterConfig, start: real, events: seq<Event>)
    requires OnlyPackets(events) && config.bandwidthKbps == 0
    requires forall i :: 0 <= i < |events| ==>
               0.0 <= events[i].roll && (config.jitterMs == 0 ==> events[i].jitter == 0)
    ensures |Verdicts(NewFilter(config, start), events)| == |events|
    ensures forall i :: 0 <= i < |events| ==>
              var v, late := Verdicts(NewFilter(config, start), events)[i], config.delayMs + events[i].jitter;
              if events[i].roll < config.lossPercent then v == Drop
              else v.Pass? && (late >= 0 ==> v.delayMs == late) && (late < 0 ==> v.delayMs == 0)
  {
    if events != [] {
      var s := NewFilter(config, start);
      DrawsDecide(config, start, Front(events));
      StaysUnlimited(config, start, Front(events));
    }
  }

  lemma {:induction false} StaysUnlimited(config: FilterConfig, start: real, events: seq<Event>)
    requires OnlyPackets(events) && config.bandwidthKbps == 0
    ensures var s := FilterRun(NewFilter(config, start), events); s.config == config && s.bucket.None?
  {
    if events != [] {
      StaysUnlimited(config, start, Front(events));
    }
  }
}
