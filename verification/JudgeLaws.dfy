/** What the layer-2 verdicts and figures say about the raw counts. */
module JudgeLaws {
  import opened Bytes
  import opened Judge

  /** Plainly better than a baseline entry in loss, jitter or reordering. */
  predicate Better(r: RecvInput, e: BaselineEntry, t: Thresholds)
  {
    || LossBelow(r, e.lossPercent - t.lossDelta)
    || JitterLower(r, e, t)
    || OooBelow(r, e, t)
  }

  predicate JitterLower(r: RecvInput, e: BaselineEntry, t: Thresholds)
  {
    e.maxJitter > 0.0 && JittersBelow(r.jitters, Ceiling(e.maxJitter, -t.jitterRatio))
  }

  predicate OooBelow(r: RecvInput, e: BaselineEntry, t: Thresholds)
  {
    e.outOfOrder > 0 && r.outOfOrder as real < Ceiling(e.outOfOrder as real, -t.oooRatio)
  }

  /** Fewer than so many percent of what was sent is lost. */
  predicate LossBelow(r: RecvInput, percent: real)
  {
    if r.packets + r.lost == 0 then 0.0 < percent
    else 100.0 * r.lost as real < percent * (r.packets + r.lost) as real
  }

  predicate JittersBelow(jitters: seq<real>, bound: real) { 0.0 < bound && forall j :: j in jitters ==> j < bound }

  lemma JittersBelowIff(jitters: seq<real>, bound: real)
    ensures MaxJitter(jitters) < bound <==> JittersBelow(jitters, bound)
  {
    MaxJitterIs(jitters);
  }

  lemma LossImprovedIff(r: RecvInput, e: BaselineEntry, t: Thresholds)
    requires LossWithin(r, e.lossPercent + t.lossDelta)
    ensures LossMetric(LossPercent(r), Some(e), t.lossDelta).verdict == Improved <==> LossBelow(r, e.lossPercent - t.lossDelta)
  {
    LossRegressedIff(r, e, t);
    LossBelowIff(r, e.lossPercent - t.lossDelta);
  }

  lemma LossBelowIff(r: RecvInput, percent: real)
    ensures LossPercent(r) < percent <==> LossBelow(r, percent)
  {
    if r.packets + r.lost > 0 {
      LossPercentIs(r);
      ScaleIff(percent, LossPercent(r), (r.packets + r.lost) as real);
    }
  }

  lemma JitterImprovedIff(r: RecvInput, e: BaselineEntry, t: Thresholds)
    requires e.maxJitter > 0.0 ==> MaxJitter(r.jitters) <= Ceiling(e.maxJitter, t.jitterRatio)
    ensures JitterMetric(MaxJitter(r.jitters), Some(e), t.jitterRatio).verdict == Improved
       <==> e.maxJitter > 0.0 && MaxJitter(r.jitters) < Ceiling(e.maxJitter, -t.jitterRatio)
  {
    if e.maxJitter > 0.0 { RatioImprovedIff(MaxJitter(r.jitters), e.maxJitter, t.jitterRatio); }
  }

  lemma OooImprovedIff(r: RecvInput, e: BaselineEntry, t: Thresholds)
    requires OooWithin(r, e, t)
    ensures OooMetric(r.outOfOrder, Some(e), t.oooRatio).verdict == Improved <==> OooBelow(r, e, t)
  {
    if e.outOfOrder > 0 { RatioImprovedIff(r.outOfOrder as real, e.outOfOrder as real, t.oooRatio); }
  }

  lemma RatioImprovedIff(current: real, base: real, t: real)
    requires base > 0.0 && current <= Ceiling(base, t)
    ensures Classify((current - base) / base, t) == Improved <==> current < Ceiling(base, -t)
  {
    RatioBound(current, base, t);
    RatioBelow(current, base, t);
  }

  lemma RatioBelow(current: real, base: real, t: real)
    requires base > 0.0
    ensures (current - base) / base < -t <==> current < Ceiling(base, -t)
  {
    var ratio := (current - base) / base;
    assert ratio * base == current - base;
    if ratio < -t { assert ratio * base < -t * base; }
    if ratio >= -t { assert ratio * base >= -t * base; }
  }

  /** A participant the baseline knows is Regressed out of bounds, Improved if within them and better, else Stable. */
  lemma KnownVerdict(id: string, r: RecvInput, b: Baseline, e: BaselineEntry, t: Thresholds)
    requires Find(b, id) == Some(e)
    ensures JudgeParticipant(id, r, Some(b), t).verdict
         == if !WithinBounds(r, e, t) then Regressed else if Better(r, e, t) then Improved else Stable
  {
    SomeRegressedIff(r, e, t);
    if WithinBounds(r, e, t) { SomeImprovedIff(r, e, t); }
  }

  lemma SomeImprovedIff(r: RecvInput, e: BaselineEntry, t: Thresholds)
    requires WithinBounds(r, e, t)
    ensures AnyIs(LossMetric(LossPercent(r), Some(e), t.lossDelta), JitterMetric(MaxJitter(r.jitters), Some(e), t.jitterRatio),
                  OooMetric(r.outOfOrder, Some(e), t.oooRatio), Improved)
       <==> Better(r, e, t)
  {
    LossImprovedIff(r, e, t);
    JittersWithinIff(r.jitters, Ceiling(e.maxJitter, t.jitterRatio));
    JitterImprovedIff(r, e, t);
    JittersBelowIff(r.jitters, Ceiling(e.maxJitter, -t.jitterRatio));
    OooImprovedIff(r, e, t);
    OneOfThree(LossMetric(LossPercent(r), Some(e), t.lossDelta), JitterMetric(MaxJitter(r.jitters), Some(e), t.jitterRatio),
               OooMetric(r.outOfOrder, Some(e), t.oooRatio), LossBelow(r, e.lossPercent - t.lossDelta),
               JitterLower(r, e, t), OooBelow(r, e, t));
  }

  lemma OneOfThree(a: Metric, b: Metric, c: Metric, x: bool, y: bool, z: bool)
    requires (a.verdict == Improved <==> x) && (b.verdict == Improved <==> y) && (c.verdict == Improved <==> z)
    ensures AnyIs(a, b, c, Improved) <==> x || y || z
  {
  }

  /** One the baseline does not know is Stable; without a baseline everyone is NoBaseline. */
  lemma UnknownVerdict(id: string, r: RecvInput, b: Option<Baseline>, t: Thresholds)
    requires b.None? || Find(b.value, id).None?
    ensures JudgeParticipant(id, r, b, t).verdict == if b.None? then NoBaseline else Stable
  {
  }

  /** The layer: regressed if there were errors or someone is, improved if someone is, and else stable. */
  lemma LayerVerdict(m: map<string, RecvInput>, b: Baseline, t: Thresholds, errors: seq<string>)
    ensures Layer2Verdict(m, None, t, errors) == if errors != [] then Regressed else NoBaseline
    ensures Layer2Verdict(m, Some(b), t, errors) ==
              if errors != [] || (exists id :: id in m && OutOfBounds(id, m[id], b, t)) then Regressed
              else if exists id :: id in m && IsBetter(id, m[id], b, t) then Improved
              else Stable
  {
    forall id | id in m ensures JudgeParticipant(id, m[id], None, t).verdict == NoBaseline {
      UnknownVerdict(id, m[id], None, t);
    }
    forall id | id in m
      ensures JudgeParticipant(id, m[id], Some(b), t).verdict
           == if OutOfBounds(id, m[id], b, t) then Regressed else if IsBetter(id, m[id], b, t) then Improved else Stable
    {
      OneVerdict(id, m[id], b, t);
    }
  }

  predicate OutOfBounds(id: string, r: RecvInput, b: Baseline, t: Thresholds)
  {
    match Find(b, id) case Some(e) => !WithinBounds(r, e, t) case None => false
  }

  predicate IsBetter(id: string, r: RecvInput, b: Baseline, t: Thresholds)
  {
    match Find(b, id) case Some(e) => Better(r, e, t) case None => false
  }

  lemma OneVerdict(id: string, r: RecvInput, b: Baseline, t: Thresholds)
    ensures JudgeParticipant(id, r, Some(b), t).verdict
         == if OutOfBounds(id, r, b, t) then Regressed else if IsBetter(id, r, b, t) then Improved else Stable
  {
    match Find(b, id)
    case Some(e) => KnownVerdict(id, r, b, e, t);
    case None => UnknownVerdict(id, r, Some(b), t);
  }

  /** The figures reported beside the verdicts: the participant's own, the baseline's, and their difference or ratio. */
  lemma ReportedFigures(id: string, r: RecvInput, b: Baseline, e: BaselineEntry, t: Thresholds)
    requires Find(b, id) == Some(e)
    ensures var q := JudgeParticipant(id, r, Some(b), t);
            && q.loss.current == q.lossPercent && q.jitter.current == q.maxJitter
            && q.outOfOrder == r.outOfOrder && q.ooo.current == r.outOfOrder as real
            && q.loss.baseline == Some(e.lossPercent) && q.loss.delta == Some(q.lossPercent - e.lossPercent)
            && q.jitter.baseline == Some(e.maxJitter) && q.ooo.baseline == Some(e.outOfOrder as real)
            && q.jitter.delta.Some? && q.ooo.delta.Some?
            && (e.maxJitter > 0.0 ==> q.jitter.delta.value * e.maxJitter == q.maxJitter - e.maxJitter)
            && (e.maxJitter <= 0.0 ==> q.jitter.delta.value == 0.0)
            && (e.outOfOrder > 0 ==> q.ooo.delta.value * e.outOfOrder as real == r.outOfOrder as real - e.outOfOrder as real)
            && (e.outOfOrder == 0 ==> q.ooo.delta.value == r.outOfOrder as real)
            && q.loss.threshold == t.lossDelta && q.jitter.threshold == t.jitterRatio && q.ooo.threshold == t.oooRatio
  {
  }
}
