/** The two-layer judge (oxlab-judge/src/lib.rs). */
module Judge {
  import opened Bytes
  import opened Ordering
  import opened Sums

  datatype Verdict = Pass | Fail

  datatype Regression = Stable | Improved | Regressed | NoBaseline

  datatype Checkpoint = Checkpoint(id: string, verdict: Verdict)

  datatype Layer1 = Layer1(checkpoints: seq<Checkpoint>, verdict: Verdict, passed: nat, failed: nat, skipped: nat)

  /** What the judge reads of a participant's receive metrics. */
  datatype RecvInput = RecvInput(packets: nat, lost: nat, outOfOrder: nat, jitters: seq<real>)

  datatype BaselineEntry = BaselineEntry(id: string, lossPercent: real, maxJitter: real, outOfOrder: nat)

  type Baseline = seq<BaselineEntry>

  datatype Thresholds = Thresholds(lossDelta: real, jitterRatio: real, oooRatio: real)

  datatype Metric = Metric(
    current: real, baseline: Option<real>, delta: Option<real>, threshold: real, verdict: Regression)

  datatype Participant = Participant(
    id: string, lossPercent: real, maxJitter: real, outOfOrder: nat,
    loss: Metric, jitter: Metric, ooo: Metric, verdict: Regression)

  datatype Layer2 = Layer2(participants: seq<Participant>, verdict: Regression)

  datatype Report = Report(layer1: Layer1, layer2: Layer2, overall: Verdict, errors: seq<string>)

  // ---- Layer 1 ----

  function CountOf(cs: seq<Checkpoint>, v: Verdict): nat
  {
    if cs == [] then 0 else CountOf(cs[..|cs| - 1], v) + if cs[|cs| - 1].verdict == v then 1 else 0
  }

  lemma {:induction false} CountIsZeroIffNone(cs: seq<Checkpoint>, v: Verdict)
    ensures CountOf(cs, v) == 0 <==> forall c :: c in cs ==> c.verdict != v
    ensures CountOf(cs, Pass) + CountOf(cs, Fail) == |cs|
  {
    if cs != [] {
      CountIsZeroIffNone(cs[..|cs| - 1], v);
      assert forall c :: c in cs <==> c in cs[..|cs| - 1] || c == cs[|cs| - 1];
    }
  }

  /** Fails iff some checkpoint failed; every result is counted once, the rest of the applicable ones as skipped. */
  function JudgeLayer1(cs: seq<Checkpoint>, totalApplicable: nat): (r: Layer1)
    ensures r.checkpoints == cs && r.passed == CountOf(cs, Pass) && r.passed + r.failed == |cs|
    ensures r.verdict == Fail <==> exists c :: c in cs && c.verdict == Fail
    ensures if |cs| <= totalApplicable then |cs| + r.skipped == totalApplicable else r.skipped == 0
  {
    var passed, failed := CountOf(cs, Pass), CountOf(cs, Fail);
    CountIsZeroIffNone(cs, Fail);
    Layer1(cs, if failed > 0 then Fail else Pass, passed, failed,
           if totalApplicable < passed + failed then 0 else totalApplicable - (passed + failed))
  }

  // ---- Layer 2: one participant ----

  function LossPercent(r: RecvInput): real
  {
    var total := r.packets + r.lost;
    if total > 0 then r.lost as real / total as real * 100.0 else 0.0
  }

  function MaxJitter(jitters: seq<real>): real
  {
    if jitters == [] then 0.0
    else
      var m, j := MaxJitter(jitters[..|jitters| - 1]), jitters[|jitters| - 1];
      if j > m then j else m
  }

  function Find(b: Baseline, id: string): Option<BaselineEntry>
  {
    if b == [] then None else if b[0].id == id then Some(b[0]) else Find(b[1..], id)
  }

  /** Compare a change against a symmetric threshold. */
  function Classify(change: real, threshold: real): Regression
  {
    if change > threshold then Regressed else if change < -threshold then Improved else Stable
  }

  function LossMetric(current: real, prev: Option<BaselineEntry>, t: real): Metric
  {
    match prev
    case None => Metric(current, None, None, t, NoBaseline)
    case Some(e) => Metric(current, Some(e.lossPercent), Some(current - e.lossPercent), t,
                           Classify(current - e.lossPercent, t))
  }

  function JitterMetric(current: real, prev: Option<BaselineEntry>, t: real): Metric
  {
    match prev
    case None => Metric(current, None, None, t, NoBaseline)
    case Some(e) =>
      if e.maxJitter > 0.0 then
        var ratio := (current - e.maxJitter) / e.maxJitter;
        Metric(current, Some(e.maxJitter), Some(ratio), t, Classify(ratio, t))
      else Metric(current, Some(e.maxJitter), Some(0.0), t, Stable)
  }

  function OooMetric(current: nat, prev: Option<BaselineEntry>, t: real): Metric
  {
    match prev
    case None => Metric(current as real, None, None, t, NoBaseline)
    case Some(e) =>
      var base := e.outOfOrder as real;
      if e.outOfOrder > 0 then
        var ratio := (current as real - base) / base;
        Metric(current as real, Some(base), Some(ratio), t, Classify(ratio, t))
      else if current > 0 then Metric(current as real, Some(base), Some(current as real), t, Regressed)
      else Metric(current as real, Some(base), Some(0.0), t, Stable)
  }

  predicate AnyIs(a: Metric, b: Metric, c: Metric, v: Regression) { a.verdict == v || b.verdict == v || c.verdict == v }

  function JudgeParticipant(id: string, r: RecvInput, baseline: Option<Baseline>, t: Thresholds): (q: Participant)
    ensures q.id == id
  {
    var prev := if baseline.Some? then Find(baseline.value, id) else None;
    var loss := LossMetric(LossPercent(r), prev, t.lossDelta);
    var jitter := JitterMetric(MaxJitter(r.jitters), prev, t.jitterRatio);
    var ooo := OooMetric(r.outOfOrder, prev, t.oooRatio);
    Participant(id, LossPercent(r), MaxJitter(r.jitters), r.outOfOrder, loss, jitter, ooo,
      if AnyIs(loss, jitter, ooo, Regressed) then Regressed
      else if baseline.None? then NoBaseline
      else if AnyIs(loss, jitter, ooo, Improved) then Improved
      else Stable)
  }

  // ---- Layer 2: all participants ----

  function Ids(ps: seq<Participant>): (ids: seq<string>)
    ensures |ids| == |ps| && forall i :: 0 <= i < |ps| ==> ids[i] == ps[i].id
  {
    seq(|ps|, i requires 0 <= i < |ps| => ps[i].id)
  }

  ghost predicate AllJudged(ps: seq<Participant>, m: map<string, RecvInput>, b: Option<Baseline>, t: Thresholds)
  {
    forall q :: q in ps ==> q.id in m && q == JudgeParticipant(q.id, m[q.id], b, t)
  }

  /** The judged participants, each once, ranked by id. */
  ghost predicate IsRanking(ps: seq<Participant>, m: map<string, RecvInput>, b: Option<Baseline>, t: Thresholds)
  {
    && Ranked(Ids(ps))
    && (forall id :: id in Ids(ps) <==> id in m)
    && AllJudged(ps, m, b, t)
  }

  /** The overall layer-2 verdict, as a function of the inputs alone. */
  ghost function Layer2Verdict(m: map<string, RecvInput>, b: Option<Baseline>, t: Thresholds, errors: seq<string>): Regression
  {
    if errors != [] || (exists id :: id in m && JudgeParticipant(id, m[id], b, t).verdict == Regressed) then Regressed
    else if b.None? then NoBaseline
    else if exists id :: id in m && JudgeParticipant(id, m[id], b, t).verdict == Improved then Improved
    else Stable
  }

  function Insert(ps: seq<Participant>, q: Participant): seq<Participant>
  {
    var n := Rank(Ids(ps), q.id);
    ps[..n] + [q] + ps[n..]
  }

  lemma InsertKeepsRanking(ps: seq<Participant>, q: Participant, m: map<string, RecvInput>, id: string, r: RecvInput,
                           b: Option<Baseline>, t: Thresholds)
    requires IsRanking(ps, m, b, t) && id !in m && q == JudgeParticipant(id, r, b, t)
    ensures IsRanking(Insert(ps, q), m[id := r], b, t)
  {
    InsertRanked(ps, q);
    InsertIds(ps, q);
    InsertJudged(ps, q, m, id, r, b, t);
  }

  lemma InsertRanked(ps: seq<Participant>, q: Participant)
    requires Ranked(Ids(ps)) && q.id !in Ids(ps)
    ensures Ranked(Ids(Insert(ps, q)))
  {
    InsertKeepsRanked(Ids(ps), q.id);
    InsertIds(ps, q);
  }

  /** A new entry is judged like the others, and does not change what they were judged on. */
  lemma InsertJudged(ps: seq<Participant>, q: Participant, m: map<string, RecvInput>, id: string, r: RecvInput,
                     b: Option<Baseline>, t: Thresholds)
    requires AllJudged(ps, m, b, t) && id !in m && q == JudgeParticipant(id, r, b, t)
    ensures AllJudged(Insert(ps, q), m[id := r], b, t)
  {
    InsertMembers(ps, q);
    forall p | p in Insert(ps, q) ensures p.id in m[id := r] && p == JudgeParticipant(p.id, m[id := r][p.id], b, t) {
      assert p in ps ==> m[id := r][p.id] == m[p.id];
    }
  }

  lemma InsertIds(ps: seq<Participant>, q: Participant)
    ensures var n := Rank(Ids(ps), q.id); Ids(Insert(ps, q)) == Ids(ps)[..n] + [q.id] + Ids(ps)[n..]
    ensures forall id :: id in Ids(Insert(ps, q)) <==> id in Ids(ps) || id == q.id
  {
    var n := Rank(Ids(ps), q.id);
    assert Ids(Insert(ps, q)) == Ids(ps)[..n] + [q.id] + Ids(ps)[n..];
    assert Ids(ps) == Ids(ps)[..n] + Ids(ps)[n..];
  }

  /** The final sort by id. */
  function SortById(ps: seq<Participant>): seq<Participant>
  {
    if ps == [] then [] else Insert(SortById(ps[..|ps| - 1]), ps[|ps| - 1])
  }

  /** The order in which the map yields its entries cannot be seen in the result. */
  lemma RankingUnique(ps: seq<Participant>, qs: seq<Participant>, m: map<string, RecvInput>, b: Option<Baseline>, t: Thresholds)
    requires IsRanking(ps, m, b, t) && IsRanking(qs, m, b, t)
    ensures ps == qs
  {
    RankedUnique(Ids(ps), Ids(qs));
    forall i | 0 <= i < |ps| ensures ps[i] == qs[i] {
      assert Ids(ps)[i] == Ids(qs)[i];
      assert ps[i] in ps && qs[i] in qs;
    }
  }

  predicate SomeVerdict(ps: seq<Participant>, v: Regression) { exists q :: q in ps && q.verdict == v }

  /** The loop over the participant map; `rest` shrinks in whatever order the entries come. */
  method JudgeLayer2(m: map<string, RecvInput>, b: Option<Baseline>, t: Thresholds, errors: seq<string>) returns (r: Layer2)
    ensures IsRanking(r.participants, m, b, t)
    ensures r.verdict == Layer2Verdict(m, b, t, errors)
  {
    var ps, anyRegressed := JudgeAll(m, b, t);
    ps := SortById(ps);
    RankingVerdict(ps, m, b, t, Regressed);
    RankingVerdict(ps, m, b, t, Improved);
    if errors != [] {
      anyRegressed := true;
    }
    var improved := SomeVerdict(ps, Improved);
    var verdict := if anyRegressed then Regressed else if b.None? then NoBaseline else if improved then Improved else Stable;
    r := Layer2(ps, verdict);
  }

  method JudgeAll(m: map<string, RecvInput>, b: Option<Baseline>, t: Thresholds)
    returns (ps: seq<Participant>, anyRegressed: bool)
    ensures IsRanking(SortById(ps), m, b, t)
    ensures anyRegressed == SomeVerdict(SortById(ps), Regressed)
  {
    ps, anyRegressed := [], false;
    var rest := m.Keys;
    while rest != {}
      invariant rest <= m.Keys && IsRanking(SortById(ps), m - rest, b, t)
      invariant anyRegressed == SomeVerdict(SortById(ps), Regressed)
    {
      var id :| id in rest;
      var q := JudgeParticipant(id, m[id], b, t);
      PushKeepsRanking(ps, q, m, rest, id, b, t);
      ps := ps + [q];
      if q.verdict == Regressed {
        anyRegressed := true;
      }
      rest := rest - {id};
    }
    KeepAll(m);
  }

  lemma PushKeepsRanking(ps: seq<Participant>, q: Participant, m: map<string, RecvInput>, rest: set<string>, id: string,
                         b: Option<Baseline>, t: Thresholds)
    requires id in m && id in rest && IsRanking(SortById(ps), m - rest, b, t) && q == JudgeParticipant(id, m[id], b, t)
    ensures IsRanking(SortById(ps + [q]), m - (rest - {id}), b, t)
    ensures SomeVerdict(SortById(ps + [q]), Regressed) <==> SomeVerdict(SortById(ps), Regressed) || q.verdict == Regressed
  {
    InsertKeepsRanking(SortById(ps), q, m - rest, id, m[id], b, t);
    InsertMembers(SortById(ps), q);
    KeepOneMore(m, rest, id);
    assert (ps + [q])[..|ps|] == ps;
  }

  lemma InsertMembers(ps: seq<Participant>, q: Participant)
    ensures forall p :: p in Insert(ps, q) <==> p in ps || p == q
    ensures forall v :: SomeVerdict(Insert(ps, q), v) <==> SomeVerdict(ps, v) || q.verdict == v
  {
    var n := Rank(Ids(ps), q.id);
    assert ps == ps[..n] + ps[n..];
    forall v ensures SomeVerdict(Insert(ps, q), v) <==> SomeVerdict(ps, v) || q.verdict == v {
      assert q in Insert(ps, q);
    }
  }

  lemma RankingVerdict(ps: seq<Participant>, m: map<string, RecvInput>, b: Option<Baseline>, t: Thresholds, v: Regression)
    requires IsRanking(ps, m, b, t)
    ensures SomeVerdict(ps, v) <==> exists id :: id in m && JudgeParticipant(id, m[id], b, t).verdict == v
  {
    if id :| id in m && JudgeParticipant(id, m[id], b, t).verdict == v {
      assert id in Ids(ps);
      var i :| 0 <= i < |ps| && Ids(ps)[i] == id;
      assert ps[i] in ps;
    }
  }

  // ---- The report ----

  /** L1 gate first, then regression. */
  method JudgeRun(cs: seq<Checkpoint>, totalApplicable: nat, m: map<string, RecvInput>, b: Option<Baseline>,
                  t: Thresholds, errors: seq<string>) returns (r: Report)
    ensures r.layer1 == JudgeLayer1(cs, totalApplicable) && r.errors == errors
    ensures IsRanking(r.layer2.participants, m, b, t) && r.layer2.verdict == Layer2Verdict(m, b, t, errors)
    ensures r.overall == Overall(cs, m, b, t, errors)
  {
    var l1 := JudgeLayer1(cs, totalApplicable);
    var l2 := JudgeLayer2(m, b, t, errors);
    var overall := if l1.verdict == Fail then Fail else if l2.verdict == Regressed then Fail else Pass;
    r := Report(l1, l2, overall, errors);
  }

  ghost function Overall(cs: seq<Checkpoint>, m: map<string, RecvInput>, b: Option<Baseline>, t: Thresholds,
                         errors: seq<string>): Verdict
  {
    if (exists c :: c in cs && c.verdict == Fail) || Layer2Verdict(m, b, t, errors) == Regressed then Fail else Pass
  }

  function CreateBaseline(r: Report): (b: Baseline)
    ensures |b| == |r.layer2.participants|
    ensures forall i :: 0 <= i < |b| ==>
              var q := r.layer2.participants[i]; b[i] == BaselineEntry(q.id, q.lossPercent, q.maxJitter, q.outOfOrder)
  {
    var ps := r.layer2.participants;
    seq(|ps|, i requires 0 <= i < |ps| => BaselineEntry(ps[i].id, ps[i].lossPercent, ps[i].maxJitter, ps[i].outOfOrder))
  }

  // ---- What the verdict means ----

  predicate MetricRegressed(id: string, r: RecvInput, b: Option<Baseline>, t: Thresholds)
  {
    var q := JudgeParticipant(id, r, b, t);
    AnyIs(q.loss, q.jitter, q.ooo, Regressed)
  }

  /** At most so many percent of what was sent is lost; nothing sent is nothing lost. */
  predicate LossWithin(r: RecvInput, percent: real)
  {
    if r.packets + r.lost == 0 then 0.0 <= percent
    else 100.0 * r.lost as real <= percent * (r.packets + r.lost) as real
  }

  /** No stream, and no absence of streams, exceeds the bound. */
  predicate JittersWithin(jitters: seq<real>, bound: real) { 0.0 <= bound && forall j :: j in jitters ==> j <= bound }

  /** A baseline figure grown by a ratio, or shrunk by a negative one. */
  function Ceiling(base: real, ratio: real): real { base * (1.0 + ratio) }

  /** The loss figure is the percentage: its product with all packets sent is a hundred times those lost. */
  lemma LossPercentIs(r: RecvInput)
    ensures LossPercent(r) * (r.packets + r.lost) as real == 100.0 * r.lost as real
    ensures 0.0 <= LossPercent(r) <= 100.0 && (LossPercent(r) == 0.0 <==> r.lost == 0)
  {
    var l, n := r.lost as real, (r.packets + r.lost) as real;
    if r.packets + r.lost > 0 {
      var q := l / n;
      assert q * n == l;
      assert 0.0 <= q <= 1.0 && (q == 0.0 <==> l == 0.0);
      assert q * 100.0 * n == 100.0 * (q * n);
    }
  }

  lemma LossWithinIff(r: RecvInput, percent: real)
    ensures LossPercent(r) <= percent <==> LossWithin(r, percent)
  {
    if r.packets + r.lost > 0 {
      LossPercentIs(r);
      ScaleIff(LossPercent(r), percent, (r.packets + r.lost) as real);
    }
  }

  lemma ScaleIff(a: real, b: real, n: real)
    requires n > 0.0
    ensures a <= b <==> a * n <= b * n
  {
    if a <= b { assert (b - a) * n >= 0.0; } else { assert (a - b) * n > 0.0; }
  }

  /** The jitter figure is the largest, and zero if there is none above. */
  lemma {:induction false} MaxJitterIs(jitters: seq<real>)
    ensures 0.0 <= MaxJitter(jitters) && forall j :: j in jitters ==> j <= MaxJitter(jitters)
    ensures MaxJitter(jitters) == 0.0 || MaxJitter(jitters) in jitters
  {
    if jitters != [] {
      MaxJitterIs(jitters[..|jitters| - 1]);
      assert forall j :: j in jitters <==> j in jitters[..|jitters| - 1] || j == jitters[|jitters| - 1];
    }
  }

  lemma JittersWithinIff(jitters: seq<real>, bound: real)
    ensures MaxJitter(jitters) <= bound <==> JittersWithin(jitters, bound)
  {
    MaxJitterIs(jitters);
  }

  /** The plain bounds a participant must keep against its baseline entry. */
  predicate WithinBounds(r: RecvInput, e: BaselineEntry, t: Thresholds)
  {
    && LossWithin(r, e.lossPercent + t.lossDelta)
    && (e.maxJitter > 0.0 ==> JittersWithin(r.jitters, Ceiling(e.maxJitter, t.jitterRatio)))
    && OooWithin(r, e, t)
  }

  predicate OooWithin(r: RecvInput, e: BaselineEntry, t: Thresholds)
  {
    if e.outOfOrder == 0 then r.outOfOrder == 0 else r.outOfOrder as real <= Ceiling(e.outOfOrder as real, t.oooRatio)
  }

  lemma RatioBound(current: real, base: real, t: real)
    requires base > 0.0
    ensures (current - base) / base > t <==> current > Ceiling(base, t)
  {
    var ratio := (current - base) / base;
    assert ratio * base == current - base;
    if ratio > t { assert ratio * base > t * base; }
    if ratio <= t { assert ratio * base <= t * base; }
  }

  lemma RegressedIffOutOfBounds(id: string, r: RecvInput, b: Baseline, t: Thresholds)
    ensures MetricRegressed(id, r, Some(b), t) <==> Find(b, id).Some? && !WithinBounds(r, Find(b, id).value, t)
  {
    if Find(b, id).Some? {
      SomeRegressedIff(r, Find(b, id).value, t);
    }
  }

  lemma SomeRegressedIff(r: RecvInput, e: BaselineEntry, t: Thresholds)
    ensures AnyIs(LossMetric(LossPercent(r), Some(e), t.lossDelta), JitterMetric(MaxJitter(r.jitters), Some(e), t.jitterRatio),
                  OooMetric(r.outOfOrder, Some(e), t.oooRatio), Regressed)
       <==> !WithinBounds(r, e, t)
  {
    LossRegressedIff(r, e, t);
    JitterRegressedIff(r, e, t);
    OooRegressedIff(r, e, t);
  }

  lemma LossRegressedIff(r: RecvInput, e: BaselineEntry, t: Thresholds)
    ensures LossMetric(LossPercent(r), Some(e), t.lossDelta).verdict == Regressed <==> !LossWithin(r, e.lossPercent + t.lossDelta)
  {
    LossWithinIff(r, e.lossPercent + t.lossDelta);
  }

  lemma JitterRegressedIff(r: RecvInput, e: BaselineEntry, t: Thresholds)
    ensures JitterMetric(MaxJitter(r.jitters), Some(e), t.jitterRatio).verdict == Regressed
       <==> e.maxJitter > 0.0 && !JittersWithin(r.jitters, Ceiling(e.maxJitter, t.jitterRatio))
  {
    JittersWithinIff(r.jitters, Ceiling(e.maxJitter, t.jitterRatio));
    if e.maxJitter > 0.0 { RatioBound(MaxJitter(r.jitters), e.maxJitter, t.jitterRatio); }
  }

  lemma OooRegressedIff(r: RecvInput, e: BaselineEntry, t: Thresholds)
    ensures OooMetric(r.outOfOrder, Some(e), t.oooRatio).verdict == Regressed <==> !OooWithin(r, e, t)
  {
    if e.outOfOrder > 0 { RatioBound(r.outOfOrder as real, e.outOfOrder as real, t.oooRatio); }
  }

  /**
   * Pass iff no checkpoint failed, no error occurred, and every participant the baseline knows keeps its bounds.
   * Without a baseline the last condition is empty.
   */
  lemma OverallPassIff(cs: seq<Checkpoint>, m: map<string, RecvInput>, b: Option<Baseline>, t: Thresholds, errors: seq<string>)
    ensures Overall(cs, m, b, t, errors) == Pass
       <==> && (forall c :: c in cs ==> c.verdict == Pass)
            && errors == []
            && (forall id :: b.Some? && id in m && Find(b.value, id).Some? ==> WithinBounds(m[id], Find(b.value, id).value, t))
  {
    forall id | id in m
      ensures JudgeParticipant(id, m[id], b, t).verdict == Regressed
         <==> b.Some? && Find(b.value, id).Some? && !WithinBounds(m[id], Find(b.value, id).value, t)
    {
      if b.Some? { RegressedIffOutOfBounds(id, m[id], b.value, t); }
    }
  }

  /** r' is no better than r: the same deliveries, with more loss, jitter or reordering. */
  ghost predicate NoBetter(r': RecvInput, r: RecvInput)
  {
    && r'.packets == r.packets && r'.lost >= r.lost && r'.outOfOrder >= r.outOfOrder
    && |r'.jitters| == |r.jitters| && forall i :: 0 <= i < |r.jitters| ==> r'.jitters[i] >= r.jitters[i]
  }

  lemma LossPercentMonotone(r': RecvInput, r: RecvInput)
    requires r'.packets == r.packets && r'.lost >= r.lost
    ensures LossPercent(r') >= LossPercent(r)
  {
    var l, l', n := r.lost as real, r'.lost as real, r.packets as real;
    if r.packets + r.lost > 0 {
      assert l' * (n + l) >= l * (n + l');
      FractionOrder(l, n + l, l', n + l');
    } else if r'.packets + r'.lost > 0 {
      FractionOrder(0.0, 1.0, l', n + l');
    }
  }

  lemma FractionOrder(a: real, b: real, c: real, d: real)
    requires b > 0.0 && d > 0.0 && c * b >= a * d
    ensures c / d >= a / b
  {
    var x, y := a / b, c / d;
    assert x * b == a && y * d == c;
    assert y * (d * b) == c * b && x * (d * b) == a * d;
    assert y < x ==> y * (d * b) < x * (d * b);
  }

  lemma {:induction false} MaxJitterMonotone(a: seq<real>, b: seq<real>)
    requires |a| == |b| && forall i :: 0 <= i < |a| ==> a[i] >= b[i]
    ensures MaxJitter(a) >= MaxJitter(b)
  {
    if a != [] {
      MaxJitterMonotone(a[..|a| - 1], b[..|b| - 1]);
    }
  }

  lemma WorseBreaksBounds(r': RecvInput, r: RecvInput, e: BaselineEntry, t: Thresholds)
    requires NoBetter(r', r)
    ensures WithinBounds(r', e, t) ==> WithinBounds(r, e, t)
  {
    LessLossWithin(r', r, e.lossPercent + t.lossDelta);
    LessJitterWithin(r'.jitters, r.jitters, Ceiling(e.maxJitter, t.jitterRatio));
  }

  lemma LessLossWithin(r': RecvInput, r: RecvInput, percent: real)
    requires r'.packets == r.packets && r'.lost >= r.lost
    ensures LossWithin(r', percent) ==> LossWithin(r, percent)
  {
    LossPercentMonotone(r', r);
    LossWithinIff(r', percent);
    LossWithinIff(r, percent);
  }

  lemma LessJitterWithin(a: seq<real>, b: seq<real>, bound: real)
    requires |a| == |b| && forall i :: 0 <= i < |a| ==> a[i] >= b[i]
    ensures JittersWithin(a, bound) ==> JittersWithin(b, bound)
  {
    MaxJitterMonotone(a, b);
    JittersWithinIff(a, bound);
    JittersWithinIff(b, bound);
  }

  /** Making any participants worse never turns a failing run into a passing one. */
  lemma WorseNeverPasses(cs: seq<Checkpoint>, m: map<string, RecvInput>, m': map<string, RecvInput>, b: Option<Baseline>,
                         t: Thresholds, errors: seq<string>)
    requires m'.Keys == m.Keys && forall id :: id in m ==> NoBetter(m'[id], m[id])
    ensures Overall(cs, m, b, t, errors) == Fail ==> Overall(cs, m', b, t, errors) == Fail
  {
    OverallPassIff(cs, m, b, t, errors);
    OverallPassIff(cs, m', b, t, errors);
    forall id | b.Some? && id in m && Find(b.value, id).Some?
      ensures WithinBounds(m'[id], Find(b.value, id).value, t) ==> WithinBounds(m[id], Find(b.value, id).value, t)
    {
      WorseBreaksBounds(m'[id], m[id], Find(b.value, id).value, t);
    }
  }

  // ---- Judging a run against its own baseline ----

  lemma {:induction false} FindByIndex(b: Baseline, i: nat)
    requires i < |b| && forall j :: 0 <= j < i ==> b[j].id != b[i].id
    ensures Find(b, b[i].id) == Some(b[i])
  {
    if i > 0 { FindByIndex(b[1..], i - 1); }
  }

  lemma {:induction false} FindFailsIffAbsent(b: Baseline, id: string)
    ensures Find(b, id).None? <==> forall e :: e in b ==> e.id != id
  {
    if b != [] {
      FindFailsIffAbsent(b[1..], id);
      assert forall e :: e in b <==> e == b[0] || e in b[1..];
    }
  }

  /** A created baseline holds exactly the run's participants, with their own figures. */
  lemma CreatedBaselineFinds(r: Report, m: map<string, RecvInput>, b: Option<Baseline>, t: Thresholds, id: string)
    requires IsRanking(r.layer2.participants, m, b, t)
    ensures Find(CreateBaseline(r), id) == if id in m
              then Some(BaselineEntry(id, LossPercent(m[id]), MaxJitter(m[id].jitters), m[id].outOfOrder)) else None
  {
    var ps, created := r.layer2.participants, CreateBaseline(r);
    if id in m {
      assert id in Ids(ps);
      var i :| 0 <= i < |ps| && Ids(ps)[i] == id;
      assert ps[i] in ps;
      forall j | 0 <= j < i ensures created[j].id != created[i].id {
        LessIrreflexive(id);
        assert Less(Ids(ps)[j], Ids(ps)[i]);
      }
      FindByIndex(created, i);
    } else {
      forall e | e in created ensures e.id != id {
        var j :| 0 <= j < |created| && created[j] == e;
        assert Ids(ps)[j] in Ids(ps);
      }
      FindFailsIffAbsent(created, id);
    }
  }

  /** With no errors and non-negative thresholds, everything is Stable against one's own baseline. */
  lemma SelfBaselineIsStable(r: Report, m: map<string, RecvInput>, b: Option<Baseline>, t: Thresholds)
    requires IsRanking(r.layer2.participants, m, b, t)
    requires t.lossDelta >= 0.0 && t.jitterRatio >= 0.0 && t.oooRatio >= 0.0
    ensures Layer2Verdict(m, Some(CreateBaseline(r)), t, []) == Stable
    ensures forall id :: id in m ==>
              var q := JudgeParticipant(id, m[id], Some(CreateBaseline(r)), t);
              q.loss.verdict == q.jitter.verdict == q.ooo.verdict == q.verdict == Stable
  {
    forall id | id in m
      ensures var q := JudgeParticipant(id, m[id], Some(CreateBaseline(r)), t);
              q.loss.verdict == q.jitter.verdict == q.ooo.verdict == q.verdict == Stable
    {
      CreatedBaselineFinds(r, m, b, t, id);
      OwnEntryIsStable(id, m[id], CreateBaseline(r), t);
    }
  }

  lemma OwnEntryIsStable(id: string, r: RecvInput, b: Baseline, t: Thresholds)
    requires Find(b, id) == Some(BaselineEntry(id, LossPercent(r), MaxJitter(r.jitters), r.outOfOrder))
    requires t.lossDelta >= 0.0 && t.jitterRatio >= 0.0 && t.oooRatio >= 0.0
    ensures var q := JudgeParticipant(id, r, Some(b), t);
            q.loss.verdict == q.jitter.verdict == q.ooo.verdict == q.verdict == Stable
  {
    var x, y := MaxJitter(r.jitters), r.outOfOrder as real;
    assert x > 0.0 ==> (x - x) / x == 0.0;
    assert y > 0.0 ==> (y - y) / y == 0.0;
  }
}
