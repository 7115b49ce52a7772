/** The judging tail of a scenario run: load the baseline, judge, and rewrite it if the run is accepted (engine.rs). */
module Ratchet {
  import opened Bytes
  import opened Judge

  /** What one scenario run brings to the judge; `saveOk` is whether writing the file succeeds. */
  datatype RunInput = RunInput(
    checkpoints: seq<Checkpoint>, applicable: nat, inputs: map<string, RecvInput>, errors: seq<string>, saveOk: bool)

  predicate NonNegative(t: Thresholds) { t.lossDelta >= 0.0 && t.jitterRatio >= 0.0 && t.oooRatio >= 0.0 }

  ghost predicate Accepted(b: Option<Baseline>, run: RunInput, t: Thresholds)
  {
    Overall(run.checkpoints, run.inputs, b, t, run.errors) == Pass
  }

  /** The baseline written after an accepted run. */
  ghost predicate Rewrites(b: Option<Baseline>, run: RunInput, t: Thresholds, b': Option<Baseline>)
  {
    exists r: Report :: IsRanking(r.layer2.participants, run.inputs, b, t) && b' == Some(CreateBaseline(r))
  }

  ghost predicate Tail(b: Option<Baseline>, run: RunInput, t: Thresholds, b': Option<Baseline>)
  {
    if Accepted(b, run, t) && run.saveOk then Rewrites(b, run, t, b') else b' == b
  }

  class BaselineStore {
    var saved: Option<Baseline>

    method RunScenario(run: RunInput, t: Thresholds) returns (report: Report)
      modifies this
      ensures Tail(old(saved), run, t, saved)
      ensures report.overall == Overall(run.checkpoints, run.inputs, old(saved), t, run.errors)
    {
      report := JudgeRun(run.checkpoints, run.applicable, run.inputs, saved, t, run.errors);
      var shouldUpdate := report.layer1.verdict == Pass && report.layer2.verdict != Regressed;
      if shouldUpdate {
        var newBaseline := CreateBaseline(report);
        if run.saveOk {
          saved := Some(newBaseline);
        }
      }
    }
  }

  // ---- Drift over many runs ----

  /** Successive baselines, each the outcome of one run on the one before. */
  ghost predicate Chain(bs: seq<Option<Baseline>>, runs: seq<RunInput>, t: Thresholds)
  {
    |bs| == |runs| + 1 &&
    (runs != [] ==>
      var n := |runs| - 1;
      Chain(bs[..n + 1], runs[..n], t) && Tail(bs[n], runs[n], t, bs[n + 1]))
  }

  /** How many of the runs rewrote the baseline. */
  ghost function Updates(bs: seq<Option<Baseline>>, runs: seq<RunInput>, t: Thresholds): nat
    requires |bs| == |runs| + 1
  {
    if runs == [] then 0
    else
      var n := |runs| - 1;
      Updates(bs[..n + 1], runs[..n], t) + Rewritten(bs[n], runs[n], t)
  }

  ghost function Rewritten(b: Option<Baseline>, run: RunInput, t: Thresholds): nat
  {
    if Accepted(b, run, t) && run.saveOk then 1 else 0
  }

  /** base * (1 + ratio)^k */
  function Grown(base: real, ratio: real, k: nat): real
  {
    if k == 0 then base else Grown(base, ratio, k - 1) * (1.0 + ratio)
  }

  /** base + k * delta */
  function Accrued(base: real, delta: real, k: nat): real
  {
    if k == 0 then base else Accrued(base, delta, k - 1) + delta
  }

  lemma {:induction false} AccruedIsLinear(base: real, delta: real, k: nat)
    ensures Accrued(base, delta, k) == base + k as real * delta
  {
    if k > 0 {
      AccruedIsLinear(base, delta, k - 1);
      assert k as real * delta == (k - 1) as real * delta + delta;
    }
  }

  function EntryOf(b: Option<Baseline>, id: string): Option<BaselineEntry>
  {
    if b.Some? then Find(b.value, id) else None
  }

  function OwnEntry(id: string, r: RecvInput): BaselineEntry
  {
    BaselineEntry(id, LossPercent(r), MaxJitter(r.jitters), r.outOfOrder)
  }

  lemma RewrittenEntry(b: Option<Baseline>, run: RunInput, t: Thresholds, b': Option<Baseline>, id: string)
    requires Rewrites(b, run, t, b')
    ensures EntryOf(b', id) == if id in run.inputs then Some(OwnEntry(id, run.inputs[id])) else None
  {
    var r: Report :| IsRanking(r.layer2.participants, run.inputs, b, t) && b' == Some(CreateBaseline(r));
    CreatedBaselineFinds(r, run.inputs, b, t, id);
  }

  lemma AcceptedWithinBounds(b: Option<Baseline>, run: RunInput, t: Thresholds, id: string)
    requires Accepted(b, run, t) && id in run.inputs && EntryOf(b, id).Some?
    ensures WithinBounds(run.inputs[id], EntryOf(b, id).value, t)
  {
    OverallPassIff(run.checkpoints, run.inputs, b, t, run.errors);
  }

  lemma GrowthStep(x: real, base: real, ratio: real, k: nat, y: real)
    requires ratio >= 0.0 && x <= Grown(base, ratio, k) && y <= x * (1.0 + ratio)
    ensures y <= Grown(base, ratio, k + 1)
  {
    ScaleUp(x, Grown(base, ratio, k), 1.0 + ratio);
  }

  lemma ScaleUp(x: real, y: real, f: real)
    requires x <= y && f >= 0.0
    ensures x * f <= y * f
  {
  }

  /** The entry a drift starts from and the entry k updates later; jitter only while it was guarded throughout. */
  predicate Drifted(e0: BaselineEntry, e: BaselineEntry, t: Thresholds, k: nat, guarded: bool)
  {
    && e.lossPercent <= Accrued(e0.lossPercent, t.lossDelta, k)
    && e.outOfOrder as real <= Grown(e0.outOfOrder as real, t.oooRatio, k)
    && (e0.outOfOrder == 0 ==> e.outOfOrder == 0)
    && (guarded ==> e.maxJitter <= Grown(e0.maxJitter, t.jitterRatio, k))
  }

  lemma DriftStep(e0: BaselineEntry, e: BaselineEntry, id: string, r: RecvInput, t: Thresholds, k: nat, guarded: bool)
    requires NonNegative(t) && Drifted(e0, e, t, k, guarded) && WithinBounds(r, e, t)
    ensures Drifted(e0, OwnEntry(id, r), t, k + 1, guarded && e.maxJitter > 0.0)
  {
    LossWithinIff(r, e.lossPercent + t.lossDelta);
    JittersWithinIff(r.jitters, Ceiling(e.maxJitter, t.jitterRatio));
    GrowthStep(e.outOfOrder as real, e0.outOfOrder as real, t.oooRatio, k, r.outOfOrder as real);
    if guarded && e.maxJitter > 0.0 {
      GrowthStep(e.maxJitter, e0.maxJitter, t.jitterRatio, k, MaxJitter(r.jitters));
    }
  }

  /** A run leaves a participant's entry alone, or replaces it by one within its bounds. */
  lemma TailEntry(b: Option<Baseline>, run: RunInput, t: Thresholds, b': Option<Baseline>, id: string)
    requires Tail(b, run, t, b') && id in run.inputs && EntryOf(b, id).Some?
    ensures if Rewritten(b, run, t) == 0 then b' == b
            else EntryOf(b', id) == Some(OwnEntry(id, run.inputs[id]))
                 && WithinBounds(run.inputs[id], EntryOf(b, id).value, t)
  {
    if Rewritten(b, run, t) == 1 {
      RewrittenEntry(b, run, t, b', id);
      AcceptedWithinBounds(b, run, t, id);
    }
  }

  /** The participant is still known, and has drifted by at most k updates. */
  ghost predicate Known(e0: BaselineEntry, b: Option<Baseline>, id: string, t: Thresholds, k: nat, guarded: bool)
  {
    EntryOf(b, id).Some? && Drifted(e0, EntryOf(b, id).value, t, k, guarded)
  }

  predicate HasJitter(b: Option<Baseline>, id: string)
  {
    EntryOf(b, id).Some? && EntryOf(b, id).value.maxJitter > 0.0
  }

  lemma TailKeepsKnown(e0: BaselineEntry, b: Option<Baseline>, run: RunInput, t: Thresholds, b': Option<Baseline>,
                       id: string, k: nat, guarded: bool, k': nat, guarded': bool)
    requires k' == k + Rewritten(b, run, t) && guarded' == (guarded && HasJitter(b, id))
    requires Tail(b, run, t, b') && NonNegative(t) && id in run.inputs && Known(e0, b, id, t, k, guarded)
    ensures Known(e0, b', id, t, k', guarded')
  {
    TailEntry(b, run, t, b', id);
    KnownStep(e0, b, b', id, run.inputs[id], t, k, guarded, k', guarded');
  }

  lemma KnownStep(e0: BaselineEntry, b: Option<Baseline>, b': Option<Baseline>, id: string, r: RecvInput, t: Thresholds,
                  k: nat, guarded: bool, k': nat, guarded': bool)
    requires NonNegative(t) && Known(e0, b, id, t, k, guarded) && k <= k' <= k + 1 && guarded' == (guarded && HasJitter(b, id))
    requires if k' == k then b' == b else EntryOf(b', id) == Some(OwnEntry(id, r)) && WithinBounds(r, EntryOf(b, id).value, t)
    ensures Known(e0, b', id, t, k', guarded')
  {
    if k' == k + 1 {
      RewriteKeepsKnown(e0, EntryOf(b, id).value, b', id, r, t, k, guarded);
    }
  }

  lemma RewriteKeepsKnown(e0: BaselineEntry, e: BaselineEntry, b': Option<Baseline>, id: string, r: RecvInput, t: Thresholds,
                          k: nat, guarded: bool)
    requires NonNegative(t) && Drifted(e0, e, t, k, guarded) && WithinBounds(r, e, t)
    requires EntryOf(b', id) == Some(OwnEntry(id, r))
    ensures Known(e0, b', id, t, k + 1, guarded && e.maxJitter > 0.0)
  {
    DriftStep(e0, e, id, r, t, k, guarded);
  }

  /** Whether every baseline a run was judged against held positive jitter for the participant. */
  predicate AlwaysGuarded(bs: seq<Option<Baseline>>, id: string)
  {
    |bs| > 1 ==> AlwaysGuarded(bs[..|bs| - 1], id) && HasJitter(bs[|bs| - 2], id)
  }

  /**
   * For a participant present in every run: after k rewrites its loss has drifted by at most k times the
   * allowance, its reordering by at most the k-th power of the ratio (zero stays zero), and its jitter by the
   * k-th power of its ratio as long as no baseline along the way held zero jitter.
   */
  lemma {:induction false} BaselineDrift(bs: seq<Option<Baseline>>, runs: seq<RunInput>, t: Thresholds, id: string)
    requires Chain(bs, runs, t) && NonNegative(t) && EntryOf(bs[0], id).Some?
    requires forall run :: run in runs ==> id in run.inputs
    ensures Known(EntryOf(bs[0], id).value, bs[|runs|], id, t, Updates(bs, runs, t), AlwaysGuarded(bs, id))
  {
    if runs != [] {
      var n := |runs| - 1;
      var before, e0 := bs[..n + 1], EntryOf(bs[0], id).value;
      var k, guarded := Updates(before, runs[..n], t), AlwaysGuarded(before, id);
      assert runs[n] in runs;
      BaselineDrift(before, runs[..n], t, id);
      assert before[0] == bs[0] && before[n] == bs[n];
      ChainCounts(bs, runs, t, id);
      TailKeepsKnown(e0, bs[n], runs[n], t, bs[n + 1], id, k, guarded, Updates(bs, runs, t), AlwaysGuarded(bs, id));
    }
  }

  lemma ChainCounts(bs: seq<Option<Baseline>>, runs: seq<RunInput>, t: Thresholds, id: string)
    requires |bs| == |runs| + 1 && runs != []
    ensures var n := |runs| - 1;
            && Updates(bs, runs, t) == Updates(bs[..n + 1], runs[..n], t) + Rewritten(bs[n], runs[n], t)
            && AlwaysGuarded(bs, id) == (AlwaysGuarded(bs[..n + 1], id) && HasJitter(bs[n], id))
  {
  }

  function Power(x: real, k: nat): (p: real)
  {
    if k == 0 then 1.0 else x * Power(x, k - 1)
  }

  lemma {:induction false} GrownIsPower(base: real, ratio: real, k: nat)
    ensures Grown(base, ratio, k) == base * Power(1.0 + ratio, k)
  {
    if k > 0 {
      GrownIsPower(base, ratio, k - 1);
      Commute(base, Power(1.0 + ratio, k - 1), 1.0 + ratio);
    }
  }

  lemma Commute(a: real, b: real, f: real)
    ensures a * b * f == a * (f * b)
  {
  }

  /** The same bounds in figures, after k rewrites. */
  lemma DriftInFigures(bs: seq<Option<Baseline>>, runs: seq<RunInput>, t: Thresholds, id: string)
    requires Chain(bs, runs, t) && NonNegative(t) && EntryOf(bs[0], id).Some?
    requires forall run :: run in runs ==> id in run.inputs
    ensures EntryOf(bs[|runs|], id).Some?
    ensures InFigures(EntryOf(bs[0], id).value, EntryOf(bs[|runs|], id).value, t, Updates(bs, runs, t), AlwaysGuarded(bs, id))
  {
    BaselineDrift(bs, runs, t, id);
    DriftedInFigures(EntryOf(bs[0], id).value, EntryOf(bs[|runs|], id).value, t, Updates(bs, runs, t), AlwaysGuarded(bs, id));
  }

  predicate InFigures(e0: BaselineEntry, e: BaselineEntry, t: Thresholds, k: nat, guarded: bool)
  {
    && e.lossPercent <= e0.lossPercent + k as real * t.lossDelta
    && e.outOfOrder as real <= e0.outOfOrder as real * Power(1.0 + t.oooRatio, k)
    && (e0.outOfOrder == 0 ==> e.outOfOrder == 0)
    && (guarded ==> e.maxJitter <= e0.maxJitter * Power(1.0 + t.jitterRatio, k))
  }

  lemma DriftedInFigures(e0: BaselineEntry, e: BaselineEntry, t: Thresholds, k: nat, guarded: bool)
    requires Drifted(e0, e, t, k, guarded)
    ensures InFigures(e0, e, t, k, guarded)
  {
    AccruedIsLinear(e0.lossPercent, t.lossDelta, k);
    GrownIsPower(e0.outOfOrder as real, t.oooRatio, k);
    GrownIsPower(e0.maxJitter, t.jitterRatio, k);
  }

  /** Where the jitter ratchet lets go: an entry accepts every jitter exactly when its own is not positive. */
  lemma JitterUnguardedIff(e: BaselineEntry, t: Thresholds)
    ensures (forall j: real :: JitterMetric(j, Some(e), t.jitterRatio).verdict != Regressed) <==> e.maxJitter <= 0.0
  {
    if e.maxJitter > 0.0 {
      var j := Ceiling(e.maxJitter, t.jitterRatio) + 1.0;
      RatioBound(j, e.maxJitter, t.jitterRatio);
      assert JitterMetric(j, Some(e), t.jitterRatio).verdict == Regressed;
    }
  }

  /** A rewritten baseline accepts any figures of a participant exactly if the run went without it. */
  lemma AbsenceForgetsIff(b: Option<Baseline>, run: RunInput, t: Thresholds, b': Option<Baseline>, id: string)
    requires Rewrites(b, run, t, b')
    ensures EntryOf(b', id) == None <==> id !in run.inputs
    ensures (forall r: RecvInput :: !MetricRegressed(id, r, b', t)) <==> id !in run.inputs
  {
    RewrittenEntry(b, run, t, b', id);
    if id in run.inputs {
      var r := TooManyReordered(run.inputs[id], EntryOf(b', id).value, t);
      RegressedIffOutOfBounds(id, r, b'.value, t);
    }
  }

  /** Every entry refuses some amount of reordering. */
  lemma TooManyReordered(r: RecvInput, e: BaselineEntry, t: Thresholds) returns (worse: RecvInput)
    ensures !WithinBounds(worse, e, t)
  {
    var bound := Ceiling(e.outOfOrder as real, t.oooRatio);
    worse := r.(outOfOrder := if bound < 0.0 then 1 else bound.Floor + 1);
  }
}
