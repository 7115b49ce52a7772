/** What the wrapped counters of `SsrcRecvMetrics` mean on an unbounded sequence, over whole runs. */
module ReceiveTheorems {
  import opened Bytes
  import opened Wrapping
  import opened RecvMetrics

  // ---- The integer specification: true (unwrapped) positions xs ----

  ghost predicate Unwraps(xs: seq<int>, arrivals: seq<Arrival>)
  {
    |xs| == |arrivals| && forall i :: 0 <= i < |xs| ==> xs[i] % 0x1_0000 == arrivals[i].sn
  }

  predicate StepFits(step: int) { -32767 <= step <= 32768 }

  ghost predicate StepsFit(xs: seq<int>)
  {
    forall i :: 1 <= i < |xs| ==> StepFits(xs[i] - xs[i - 1])
  }

  ghost predicate Increasing(xs: seq<int>)
  {
    forall i :: 1 <= i < |xs| ==> xs[i - 1] < xs[i]
  }

  function Pos(x: int): nat { if x > 0 then x else 0 }

  /** Positions jumped over by forward steps. */
  function Skipped(xs: seq<int>): nat
  {
    if |xs| < 2 then 0 else Skipped(xs[..|xs| - 1]) + Pos(xs[|xs| - 1] - xs[|xs| - 2] - 1)
  }

  /** Arrivals that lie before their predecessor. */
  function Retreats(xs: seq<int>): nat
  {
    if |xs| < 2 then 0 else Retreats(xs[..|xs| - 1]) + if xs[|xs| - 1] < xs[|xs| - 2] then 1 else 0
  }

  /** How far each arrival falls short of advancing by one. */
  function Backward(xs: seq<int>): nat
  {
    if |xs| < 2 then 0 else Backward(xs[..|xs| - 1]) + Pos(xs[|xs| - 2] + 1 - xs[|xs| - 1])
  }

  /** The running maximum. */
  function Max(xs: seq<int>): int
    requires xs != []
  {
    if |xs| == 1 then xs[0]
    else
      var m := Max(xs[..|xs| - 1]);
      if xs[|xs| - 1] > m then xs[|xs| - 1] else m
  }

  // ---- First arrival, last arrival, count ----

  predicate Follows(m: Metrics, first: Arrival, last: Arrival)
  {
    m.firstSeq == first.sn && m.lastSeq == last.sn && m.lastTs == last.ts && m.lastArrival == last.now
  }

  lemma {:induction false} RunBookkeeping(m: Metrics, arrivals: seq<Arrival>)
    requires !m.initialized
    ensures var r := Run(m, arrivals);
            && r.ssrc == m.ssrc && r.pt == m.pt && r.clockRate == m.clockRate
            && r.received == m.received + |arrivals|
            && r.initialized == (arrivals != [])
            && (arrivals != [] ==> Follows(r, arrivals[0], arrivals[|arrivals| - 1]))
  {
    if |arrivals| > 0 {
      RunBookkeeping(m, arrivals[..|arrivals| - 1]);
    }
  }

  // ---- The counters against the integer specification ----

  /** The wrapped gaps between adjacent arrivals, and the counters as sums over them. */
  function Gaps(arrivals: seq<Arrival>): seq<int>
  {
    var n := |arrivals|;
    if n < 2 then [] else Gaps(arrivals[..n - 1]) + [SeqGap(arrivals[n - 1].sn, arrivals[n - 2].sn)]
  }

  function GapLoss(gaps: seq<int>): nat
  {
    if gaps == [] then 0 else GapLoss(gaps[..|gaps| - 1]) + Pos(gaps[|gaps| - 1])
  }

  function GapRetreats(gaps: seq<int>): nat
  {
    if gaps == [] then 0 else GapRetreats(gaps[..|gaps| - 1]) + if gaps[|gaps| - 1] < -1 then 1 else 0
  }

  lemma {:induction false} RunCounters(m: Metrics, arrivals: seq<Arrival>)
    requires !m.initialized
    ensures Run(m, arrivals).lost == m.lost + GapLoss(Gaps(arrivals))
    ensures Run(m, arrivals).outOfOrder == m.outOfOrder + GapRetreats(Gaps(arrivals))
  {
    var n := |arrivals|;
    if n > 0 {
      var before := arrivals[..n - 1];
      RunCounters(m, before);
      RunBookkeeping(m, before);
      if n > 1 {
        var gap := SeqGap(arrivals[n - 1].sn, arrivals[n - 2].sn);
        SumsSnoc(Gaps(before), gap);
        StepCounts(Run(m, before), arrivals[n - 1]);
      }
    }
  }

  lemma SumsSnoc(gaps: seq<int>, gap: int)
    ensures GapLoss(gaps + [gap]) == GapLoss(gaps) + Pos(gap)
    ensures GapRetreats(gaps + [gap]) == GapRetreats(gaps) + if gap < -1 then 1 else 0
  {
    assert (gaps + [gap])[..|gaps|] == gaps;
  }

  /** What the wrapped gap tells about a true step from x to y: the truth exactly when the step fits, never too much forwards. */
  predicate GapTells(gap: int, x: int, y: int)
  {
    (gap == y - x - 1 <==> StepFits(y - x)) && (x < y ==> gap <= y - x - 1)
  }

  lemma GapTellsStep(x: int, y: int)
    ensures GapTells(SeqGap(y % 0x1_0000, x % 0x1_0000), x, y)
  {
    GapIsTrueGap(x, y);
    if x < y {
      ForwardGapUnderestimates(x, y);
    }
  }

  lemma {:induction false} GapsOfUnwrapping(arrivals: seq<Arrival>, xs: seq<int>)
    requires Unwraps(xs, arrivals)
    ensures |Gaps(arrivals)| == if xs == [] then 0 else |xs| - 1
    ensures forall i :: 0 <= i < |Gaps(arrivals)| ==> GapTells(Gaps(arrivals)[i], xs[i], xs[i + 1])
  {
    var n := |arrivals|;
    if n > 1 {
      GapsOfUnwrapping(arrivals[..n - 1], xs[..n - 1]);
      GapTellsStep(xs[n - 2], xs[n - 1]);
    }
  }

  lemma CountersMatchIntegers(m: Metrics, arrivals: seq<Arrival>, xs: seq<int>)
    requires !m.initialized && Unwraps(xs, arrivals) && StepsFit(xs)
    ensures Run(m, arrivals).lost == m.lost + Skipped(xs)
    ensures Run(m, arrivals).outOfOrder == m.outOfOrder + Retreats(xs)
  {
    RunCounters(m, arrivals);
    GapsOfUnwrapping(arrivals, xs);
    ExactGaps(Gaps(arrivals), xs);
  }

  lemma {:induction false} ExactGaps(gaps: seq<int>, xs: seq<int>)
    requires |gaps| == if xs == [] then 0 else |xs| - 1
    requires forall i :: 0 <= i < |gaps| ==> gaps[i] == xs[i + 1] - xs[i] - 1
    ensures GapLoss(gaps) == Skipped(xs) && GapRetreats(gaps) == Retreats(xs)
  {
    if gaps != [] {
      ExactGaps(gaps[..|gaps| - 1], xs[..|xs| - 1]);
    }
  }

  /** For a stream that only moves forward, the reported loss is exact if and only if no step exceeds 32768. */
  lemma ForwardLossExactIff(m: Metrics, arrivals: seq<Arrival>, xs: seq<int>)
    requires !m.initialized && Unwraps(xs, arrivals) && Increasing(xs)
    ensures Run(m, arrivals).lost <= m.lost + Skipped(xs)
    ensures Run(m, arrivals).lost == m.lost + Skipped(xs) <==> StepsFit(xs)
  {
    RunCounters(m, arrivals);
    GapsOfUnwrapping(arrivals, xs);
    ForwardGapsExactIff(Gaps(arrivals), xs);
  }

  lemma {:induction false} ForwardGapsExactIff(gaps: seq<int>, xs: seq<int>)
    requires |gaps| == (if xs == [] then 0 else |xs| - 1) && Increasing(xs)
    requires forall i :: 0 <= i < |gaps| ==> GapTells(gaps[i], xs[i], xs[i + 1])
    ensures GapLoss(gaps) <= Skipped(xs)
    ensures GapLoss(gaps) == Skipped(xs) <==> StepsFit(xs)
  {
    if gaps != [] {
      IncreasingPrefix(xs);
      StepsFitSnoc(xs);
      ForwardGapsExactIff(gaps[..|gaps| - 1], xs[..|xs| - 1]);
    }
  }

  lemma IncreasingPrefix(xs: seq<int>)
    requires xs != [] && Increasing(xs)
    ensures Increasing(xs[..|xs| - 1])
  {
    var ys := xs[..|xs| - 1];
    forall i | 1 <= i < |ys| ensures ys[i - 1] < ys[i] { assert ys[i] == xs[i]; }
  }

  lemma ForwardGapUnderestimates(last: int, next: int)
    requires last < next
    ensures SeqGap(next % 0x1_0000, last % 0x1_0000) <= next - last - 1
  {
    WrappedGap(last, next);
  }

  lemma StepsFitSnoc(xs: seq<int>)
    requires xs != []
    ensures StepsFit(xs) <==> StepsFit(xs[..|xs| - 1]) && (|xs| > 1 ==> StepFits(xs[|xs| - 1] - xs[|xs| - 2]))
  {
    var ys := xs[..|xs| - 1];
    if StepsFit(xs) {
      forall i | 1 <= i < |ys| ensures StepFits(ys[i] - ys[i - 1]) { assert ys[i] == xs[i]; }
    }
    if StepsFit(ys) && (|xs| > 1 ==> StepFits(xs[|xs| - 1] - xs[|xs| - 2])) {
      forall i | 1 <= i < |xs| ensures StepFits(xs[i] - xs[i - 1]) { if i < |ys| { assert ys[i] == xs[i]; } }
    }
  }

  // ---- Every trace has exactly one fitting unwrapping ----

  function Unwrap(arrivals: seq<Arrival>): (xs: seq<int>)
    ensures |xs| == |arrivals|
  {
    var n := |arrivals|;
    if n == 0 then []
    else if n == 1 then [arrivals[0].sn]
    else
      var ys := Unwrap(arrivals[..n - 1]);
      ys + [ys[n - 2] + 1 + SeqGap(arrivals[n - 1].sn, arrivals[n - 2].sn)]
  }

  lemma {:induction false} UnwrapFits(arrivals: seq<Arrival>)
    ensures Unwraps(Unwrap(arrivals), arrivals) && StepsFit(Unwrap(arrivals))
  {
    var n := |arrivals|;
    if n > 1 {
      var before := arrivals[..n - 1];
      UnwrapFits(before);
      var ys, xs := Unwrap(before), Unwrap(arrivals);
      assert xs[..n - 1] == ys;
      assert ys[n - 2] % 0x1_0000 == before[n - 2].sn;
      GapReaches(ys[n - 2], arrivals[n - 1].sn);
      StepsFitSnoc(xs);
      forall i | 0 <= i < n ensures xs[i] % 0x1_0000 == arrivals[i].sn {
        if i < n - 1 { assert ys[i] % 0x1_0000 == before[i].sn; }
      }
    }
  }

  /** Adding the wrapped gap to a position lands on a fitting position with the new sequence number. */
  lemma GapReaches(y: int, sn: U16)
    ensures var x := y + 1 + SeqGap(sn, y % 0x1_0000); x % 0x1_0000 == sn && StepFits(x - y)
  {
    var q, r := y / 0x1_0000, y % 0x1_0000;
    assert y == q * 0x1_0000 + r;
    assert WrapAdd16(r, 1) == r + 1 || (r == 0xFFFF && WrapAdd16(r, 1) == 0);
  }

  lemma {:induction false} UnwrappingUnique(arrivals: seq<Arrival>, xs: seq<int>)
    requires Unwraps(xs, arrivals) && StepsFit(xs) && (xs != [] ==> xs[0] == arrivals[0].sn)
    ensures xs == Unwrap(arrivals)
  {
    var n := |arrivals|;
    if n > 0 {
      var ys := xs[..n - 1];
      StepsFitSnoc(xs);
      UnwrappingUnique(arrivals[..n - 1], ys);
      if n > 1 { GapIsTrueGap(xs[n - 2], xs[n - 1]); }
      assert xs == ys + [xs[n - 1]];
    }
  }

  // ---- Conservation over every run, with no assumption on the packets ----

  lemma {:induction false} IntegerConservation(xs: seq<int>)
    requires xs != []
    ensures |xs| + Skipped(xs) == xs[|xs| - 1] - xs[0] + 1 + Backward(xs)
  {
    if |xs| > 1 {
      IntegerConservation(xs[..|xs| - 1]);
    }
  }

  /** received + lost is the span travelled plus all backward movement, whatever arrives. */
  lemma Conservation(m: Metrics, arrivals: seq<Arrival>)
    requires !m.initialized && m.received == 0 && m.lost == 0 && arrivals != []
    ensures var xs, r := Unwrap(arrivals), Run(m, arrivals);
            && xs[|xs| - 1] % 0x1_0000 == r.lastSeq && xs[0] == r.firstSeq
            && r.received + r.lost == xs[|xs| - 1] - xs[0] + 1 + Backward(xs)
  {
    var xs := Unwrap(arrivals);
    UnwrapFits(arrivals);
    CountersMatchIntegers(m, arrivals, xs);
    RunBookkeeping(m, arrivals);
    IntegerConservation(xs);
    FirstOfUnwrap(arrivals);
  }

  lemma {:induction false} FirstOfUnwrap(arrivals: seq<Arrival>)
    requires arrivals != []
    ensures Unwrap(arrivals)[0] == arrivals[0].sn
  {
    if |arrivals| > 1 {
      FirstOfUnwrap(arrivals[..|arrivals| - 1]);
    }
  }

  // ---- Reported loss against the packets that are really missing ----

  /** The positions strictly between first and last that no arrival filled. */
  ghost function Missing(xs: seq<int>): set<int>
    requires xs != []
  {
    set p: int | xs[0] < p < xs[|xs| - 1] && p !in xs
  }

  function Range(lo: int, hi: int): (s: set<int>)
    ensures |s| == Pos(hi - lo) && forall p :: p in s <==> lo <= p < hi
    decreases hi - lo
  {
    if hi <= lo then {} else Range(lo, hi - 1) + {hi - 1}
  }

  lemma {:induction false} SubsetSize(a: set<int>, b: set<int>)
    requires a <= b
    ensures |a| <= |b| && (|a| == |b| ==> a == b)
  {
    assert b == a + (b - a) && |b| == |a| + |b - a|;
  }

  /** The positions each forward step passes over, step by step. */
  function Passed(xs: seq<int>): seq<int>
  {
    var n := |xs|;
    if n < 2 then [] else Passed(xs[..n - 1]) + Between(xs[n - 2], xs[n - 1])
  }

  function Between(lo: int, hi: int): (s: seq<int>)
    ensures |s| == Pos(hi - lo - 1) && forall p :: p in s <==> lo < p < hi
    decreases hi - lo
  {
    if hi <= lo + 1 then [] else Between(lo, hi - 1) + [hi - 1]
  }

  lemma {:induction false} PassedIsSkipped(xs: seq<int>)
    ensures |Passed(xs)| == Skipped(xs)
  {
    if |xs| > 1 {
      PassedIsSkipped(xs[..|xs| - 1]);
    }
  }

  /** What is missing was passed over, however packets are reordered or duplicated. */
  lemma {:induction false} MissingWasPassed(xs: seq<int>)
    requires xs != []
    ensures forall p :: p in Missing(xs) ==> p in Passed(xs)
  {
    var n := |xs|;
    if n > 1 {
      var ys := xs[..n - 1];
      MissingWasPassed(ys);
      forall p | p in Missing(xs) ensures p in Passed(xs) {
        assert p !in ys && xs[n - 2] == ys[n - 2] && xs[n - 2] in xs;
        assert p < xs[n - 2] ==> p in Missing(ys);
      }
    }
  }

  predicate NoRepeats(s: seq<int>) { forall i, j :: 0 <= i < j < |s| ==> s[i] != s[j] }

  ghost function Elements(s: seq<int>): set<int> { set p | p in s }

  lemma {:induction false} ElementCount(s: seq<int>)
    ensures |Elements(s)| <= |s| && (|Elements(s)| == |s| <==> NoRepeats(s))
  {
    if s != [] {
      var t, x := s[..|s| - 1], s[|s| - 1];
      ElementCount(t);
      assert s == t + [x] && Elements(s) == Elements(t) + {x};
      if x in t {
        assert Elements(s) == Elements(t);
      }
    }
  }

  /** Every position passed over was passed over once, lies between first and last arrival, and never arrived. */
  ghost predicate OnlyMissingPassed(xs: seq<int>)
    requires xs != []
  {
    NoRepeats(Passed(xs)) && forall p :: p in Passed(xs) ==> p in Missing(xs)
  }

  lemma SkippedAgainstMissing(xs: seq<int>)
    requires xs != []
    ensures |Missing(xs)| <= Skipped(xs)
    ensures |Missing(xs)| == Skipped(xs) <==> OnlyMissingPassed(xs)
  {
    PassedIsSkipped(xs);
    MissingWasPassed(xs);
    ElementCount(Passed(xs));
    SubsetSize(Missing(xs), Elements(Passed(xs)));
    assert forall p :: p in Passed(xs) ==> p in Elements(Passed(xs));
    if OnlyMissingPassed(xs) {
      SubsetSize(Elements(Passed(xs)), Missing(xs));
    }
  }

  /** Moving forward only, the skipped positions are exactly the missing ones. */
  lemma {:induction false} ForwardLossIsMissing(xs: seq<int>)
    requires xs != [] && Increasing(xs)
    ensures |Missing(xs)| == Skipped(xs)
    ensures forall p :: p in xs ==> xs[0] <= p <= xs[|xs| - 1]
  {
    var n := |xs|;
    if n == 1 {
      assert Missing(xs) == {};
    } else {
      var ys := xs[..n - 1];
      IncreasingPrefix(xs);
      ForwardLossIsMissing(ys);
      assert xs == ys + [xs[n - 1]];
      assert xs[n - 2] == ys[n - 2] && xs[0] == ys[0] && ys[0] in ys;
      var jumped := Range(xs[n - 2] + 1, xs[n - 1]);
      MissingSnoc(ys, xs[n - 1], jumped);
    }
  }

  /**
   * For every run, whatever the order: the reported loss is at least the number of positions between first and last
   * arrival that nothing filled, and equals it iff only such positions were passed over, each once.
   */
  lemma LostIsMissingIff(m: Metrics, arrivals: seq<Arrival>)
    requires !m.initialized && m.lost == 0 && arrivals != []
    ensures var xs := Unwrap(arrivals);
            && |Missing(xs)| <= Run(m, arrivals).lost
            && (Run(m, arrivals).lost == |Missing(xs)| <==> OnlyMissingPassed(xs))
  {
    UnwrapFits(arrivals);
    CountersMatchIntegers(m, arrivals, Unwrap(arrivals));
    SkippedAgainstMissing(Unwrap(arrivals));
  }

  /** The positions from first to last arrival that some arrival filled. */
  ghost function Filled(xs: seq<int>): set<int>
    requires xs != []
  {
    set p | p in xs && xs[0] <= p <= xs[|xs| - 1]
  }

  lemma SpanSplits(xs: seq<int>)
    requires xs != []
    ensures xs[0] <= xs[|xs| - 1] ==> |Missing(xs)| + |Filled(xs)| == xs[|xs| - 1] - xs[0] + 1
    ensures xs[|xs| - 1] < xs[0] ==> Missing(xs) == {}
  {
    if xs[0] <= xs[|xs| - 1] {
      assert xs[0] in xs && xs[|xs| - 1] in xs;
      assert Range(xs[0], xs[|xs| - 1] + 1) == Missing(xs) + Filled(xs);
      assert Missing(xs) !! Filled(xs);
    }
  }

  /** How far reordering inflates the loss: by the backward movement less the arrivals that filled no new position. */
  lemma LostSurplus(m: Metrics, arrivals: seq<Arrival>)
    requires !m.initialized && m.received == 0 && m.lost == 0 && arrivals != []
    ensures var xs, lost := Unwrap(arrivals), Run(m, arrivals).lost;
            if xs[0] <= xs[|xs| - 1] then lost == |Missing(xs)| + Backward(xs) - (|xs| - |Filled(xs)|)
            else Missing(xs) == {} && lost == Backward(xs) - |xs| - (xs[0] - xs[|xs| - 1] - 1)
  {
    Conservation(m, arrivals);
    RunBookkeeping(m, arrivals);
    SpanSplits(Unwrap(arrivals));
  }

  /** Without duplicates or arrivals outside the span, any reordering at all makes the loss too high. */
  lemma DistinctLostIsMissingIff(m: Metrics, arrivals: seq<Arrival>)
    requires !m.initialized && m.received == 0 && m.lost == 0 && arrivals != []
    requires var xs := Unwrap(arrivals); NoRepeats(xs) && forall p :: p in xs ==> xs[0] <= p <= xs[|xs| - 1]
    ensures Run(m, arrivals).lost == |Missing(Unwrap(arrivals))| <==> Increasing(Unwrap(arrivals))
  {
    var xs := Unwrap(arrivals);
    assert xs[0] in xs;
    LostSurplus(m, arrivals);
    ElementCount(xs);
    assert Filled(xs) == Elements(xs);
    NeverBackwardIff(xs);
  }

  lemma {:induction false} NeverBackwardIff(xs: seq<int>)
    ensures Backward(xs) == 0 <==> Increasing(xs)
  {
    if |xs| > 1 {
      var ys := xs[..|xs| - 1];
      NeverBackwardIff(ys);
      if Increasing(xs) { IncreasingPrefix(xs); }
      if Increasing(ys) && ys[|ys| - 1] < xs[|xs| - 1] {
        forall i | 1 <= i < |xs| ensures xs[i - 1] < xs[i] { if i < |ys| { assert ys[i - 1] < ys[i]; } }
      }
    }
  }

  /** Two packets swapped: both are counted as lost, although every position arrived. */
  lemma SwapCountsAsLoss()
    ensures var arrivals := [Arrival(0, 0, 0.0), Arrival(2, 0, 0.0), Arrival(1, 0, 0.0), Arrival(3, 0, 0.0)];
            && Unwrap(arrivals) == [0, 2, 1, 3] && StepsFit([0, 2, 1, 3]) && Missing([0, 2, 1, 3]) == {}
            && Run(Fresh(1, 96, 0.0), arrivals).lost == 2
  {
    var arrivals := [Arrival(0, 0, 0.0), Arrival(2, 0, 0.0), Arrival(1, 0, 0.0), Arrival(3, 0, 0.0)];
    var xs := [0, 2, 1, 3];
    SkippedOfSwap();
    UnwrappingUnique(arrivals, xs);
    CountersMatchIntegers(Fresh(1, 96, 0.0), arrivals, xs);
  }

  lemma SkippedOfSwap()
    ensures Skipped([0, 2, 1, 3]) == 2 && Missing([0, 2, 1, 3]) == {}
  {
    SkippedSnoc([0], 2);
    SkippedSnoc([0, 2], 1);
    SkippedSnoc([0, 2, 1], 3);
    assert [0] + [2] == [0, 2] && [0, 2] + [1] == [0, 2, 1] && [0, 2, 1] + [3] == [0, 2, 1, 3];
    var xs := [0, 2, 1, 3];
    assert xs[0] == 0 && xs[1] == 2 && xs[2] == 1 && xs[3] == 3;
    assert xs[1] in xs && xs[2] in xs;
  }

  lemma SkippedSnoc(xs: seq<int>, x: int)
    requires xs != []
    ensures Skipped(xs + [x]) == Skipped(xs) + Pos(x - xs[|xs| - 1] - 1)
  {
    assert (xs + [x])[..|xs|] == xs;
  }

  /** Delivered in order, the loss never exceeds those positions, and is their number iff every step fits. */
  lemma ForwardLostIsMissingIff(m: Metrics, arrivals: seq<Arrival>, xs: seq<int>)
    requires !m.initialized && m.lost == 0 && arrivals != [] && Unwraps(xs, arrivals) && Increasing(xs)
    ensures Run(m, arrivals).lost <= |Missing(xs)|
    ensures Run(m, arrivals).lost == |Missing(xs)| <==> StepsFit(xs)
  {
    ForwardLossExactIff(m, arrivals, xs);
    ForwardLossIsMissing(xs);
  }

  lemma MissingSnoc(ys: seq<int>, x: int, jumped: set<int>)
    requires ys != [] && ys[|ys| - 1] < x
    requires forall p :: p in ys ==> ys[0] <= p <= ys[|ys| - 1]
    requires forall p :: p in jumped <==> ys[|ys| - 1] + 1 <= p < x
    ensures |Missing(ys + [x])| == |Missing(ys)| + |jumped|
  {
    var xs := ys + [x];
    forall p ensures p in Missing(xs) <==> p in Missing(ys) + jumped {
      assert p in xs <==> p in ys || p == x;
      assert ys[|ys| - 1] in ys;
    }
    assert Missing(xs) == Missing(ys) + jumped;
    assert Missing(ys) !! jumped;
  }

  // ---- max_seq_seen ----

  /** Whether `max_seq_seen` stays right when x arrives and max was the maximum. */
  predicate Tracks(x: int, max: int)
  {
    var d := (x - max) % 0x1_0000;
    if x > max then d < 32768 else d == 0 || d >= 32768
  }

  lemma MaxStepTracksIff(m: Metrics, a: Arrival, max: int, x: int)
    requires m.initialized && m.maxSeq == max % 0x1_0000 && a.sn == x % 0x1_0000
    ensures Step(m, a).maxSeq == (if x > max then x else max) % 0x1_0000 <==> Tracks(x, max)
  {
    var q, r := max / 0x1_0000, x / 0x1_0000;
    assert max == q * 0x1_0000 + m.maxSeq && x == r * 0x1_0000 + a.sn;
    assert WrapSub16(a.sn, m.maxSeq) == (x - max) % 0x1_0000;
  }

  /** Every arrival is one that the maximum so far lets through rightly. */
  predicate Trackable(xs: seq<int>)
  {
    |xs| > 1 ==> Trackable(xs[..|xs| - 1]) && Tracks(xs[|xs| - 1], Max(xs[..|xs| - 1]))
  }

  /** `max_seq_seen` is the true maximum now and was after every packet. */
  ghost predicate MaxAlwaysRight(m: Metrics, arrivals: seq<Arrival>, xs: seq<int>)
    requires |xs| == |arrivals|
  {
    arrivals != [] ==>
      && Run(m, arrivals).maxSeq == Max(xs) % 0x1_0000
      && MaxAlwaysRight(m, arrivals[..|arrivals| - 1], xs[..|xs| - 1])
  }

  /** For any positions whatever behind the wrapped numbers, the exact condition. */
  lemma {:induction false} MaxSeqAlwaysRightIff(m: Metrics, arrivals: seq<Arrival>, xs: seq<int>)
    requires !m.initialized && Unwraps(xs, arrivals)
    ensures MaxAlwaysRight(m, arrivals, xs) <==> Trackable(xs)
  {
    var n := |arrivals|;
    if n > 0 {
      var before, ys := arrivals[..n - 1], xs[..n - 1];
      MaxSeqAlwaysRightIff(m, before, ys);
      RunBookkeeping(m, before);
      if n == 1 {
        assert Run(m, before) == m;
      } else if Run(m, before).maxSeq == Max(ys) % 0x1_0000 {
        MaxStepTracksIff(Run(m, before), arrivals[n - 1], Max(ys), xs[n - 1]);
      }
    }
  }

  /** Each arrival lies within half a window of the maximum before it. */
  predicate NearMaximum(xs: seq<int>)
  {
    |xs| > 1 ==> NearMaximum(xs[..|xs| - 1]) && -32768 <= xs[|xs| - 1] - Max(xs[..|xs| - 1]) <= 32767
  }

  /** Each arrival lies within a whole window of it. */
  predicate InWindow(xs: seq<int>)
  {
    |xs| > 1 ==> InWindow(xs[..|xs| - 1]) && -0x1_0000 < xs[|xs| - 1] - Max(xs[..|xs| - 1]) < 0x1_0000
  }

  lemma {:induction false} NearMaximumIsTrackable(xs: seq<int>)
    ensures NearMaximum(xs) ==> Trackable(xs)
    ensures InWindow(xs) ==> (NearMaximum(xs) <==> Trackable(xs))
  {
    if |xs| > 1 {
      NearMaximumIsTrackable(xs[..|xs| - 1]);
    }
  }

  /** While arrivals stay within half a window of the running maximum, `max_seq_seen` is that maximum. */
  lemma MaxSeqIsMaximum(m: Metrics, arrivals: seq<Arrival>, xs: seq<int>)
    requires !m.initialized && arrivals != [] && Unwraps(xs, arrivals) && NearMaximum(xs)
    ensures Run(m, arrivals).maxSeq == Max(xs) % 0x1_0000
  {
    NearMaximumIsTrackable(xs);
    MaxSeqAlwaysRightIff(m, arrivals, xs);
  }

  /** A forward step of 32768 is still counted as loss but no longer advances `max_seq_seen`. */
  lemma LossAndMaximumDisagreeAtHalfWindow()
    ensures var r := Run(Fresh(1, 96, 0.0), [Arrival(0, 0, 0.0), Arrival(32768, 0, 0.0)]);
            r.lost == 32767 && r.lastSeq == 32768 && r.maxSeq == 0
  {
    var a, b := Arrival(0, 0, 0.0), Arrival(32768, 0, 0.0);
    var m := Fresh(1, 96, 0.0);
    assert [a, b][..1] == [a] && [a][..0] == [];
    assert Run(m, []) == m;
    assert Run(m, [a]) == Step(m, a);
    assert Run(m, [a, b]) == Step(Step(m, a), b);
  }

  // ---- Jitter ----

  /** The deviation that arrival i contributes; the first arrival contributes none. */
  function DeviationAt(clockRate: nat, arrivals: seq<Arrival>, i: nat): real
    requires i < |arrivals|
  {
    if i == 0 then 0.0 else Deviation(clockRate, arrivals[i - 1].now, arrivals[i - 1].ts, arrivals[i])
  }

  /** What a deviation still contributes k packets later: d * (15/16)^k / 16. */
  function Aged(d: real, k: nat): real { if k == 0 then d / 16.0 else Aged(d, k - 1) * 15.0 / 16.0 }

  /** The closed form: the aged contributions of the first `upto` arrivals, as seen after the last one. */
  function Weighted(clockRate: nat, arrivals: seq<Arrival>, upto: nat): real
    requires upto <= |arrivals|
  {
    if upto == 0 then 0.0
    else
      Weighted(clockRate, arrivals, upto - 1) + Aged(DeviationAt(clockRate, arrivals, upto - 1), |arrivals| - upto)
  }

  lemma {:induction false} JitterClosedForm(m: Metrics, arrivals: seq<Arrival>)
    requires !m.initialized && m.jitter == 0.0
    ensures Run(m, arrivals).jitter == Weighted(m.clockRate, arrivals, |arrivals|)
  {
    var n := |arrivals|;
    if n > 0 {
      var before := arrivals[..n - 1];
      JitterClosedForm(m, before);
      RunBookkeeping(m, before);
      WeightedDecays(m.clockRate, arrivals, n - 1);
      if n == 1 { assert before == []; }
    }
  }

  lemma {:induction false} WeightedDecays(clockRate: nat, arrivals: seq<Arrival>, upto: nat)
    requires upto < |arrivals|
    ensures Weighted(clockRate, arrivals, upto) == Weighted(clockRate, arrivals[..|arrivals| - 1], upto) * 15.0 / 16.0
  {
    if upto > 0 {
      var before := arrivals[..|arrivals| - 1];
      WeightedDecays(clockRate, arrivals, upto - 1);
      SamePrefixDeviation(clockRate, arrivals, upto - 1);
    }
  }

  lemma SamePrefixDeviation(clockRate: nat, arrivals: seq<Arrival>, i: nat)
    requires i < |arrivals| - 1
    ensures DeviationAt(clockRate, arrivals, i) == DeviationAt(clockRate, arrivals[..|arrivals| - 1], i)
  {
  }

  /** How far b comes off the pace of its predecessor a, in ticks of the 48 kHz audio or 90 kHz video clock; signed. */
  function OffPace(pt: Byte, a: Arrival, b: Arrival): real
  {
    (if pt == 111 then 48000.0 else 90000.0) * (if b.now < a.now then 0.0 else b.now - a.now)
    - ((b.ts - a.ts) % 0x1_0000_0000) as real
  }

  /** One packet moves the jitter a sixteenth of the way to the size of that distance, whatever came before. */
  lemma JitterLaw(ssrc: U32, pt: Byte, start: real, arrivals: seq<Arrival>)
    requires |arrivals| >= 2
    ensures var n, m := |arrivals|, Fresh(ssrc, pt, start);
            var before, after := Run(m, arrivals[..n - 1]).jitter, Run(m, arrivals).jitter;
            var off, d := OffPace(pt, arrivals[n - 2], arrivals[n - 1]), 16.0 * after - 15.0 * before;
            d >= off && d >= -off && (d == off || d == -off)
  {
    var n, m := |arrivals|, Fresh(ssrc, pt, start);
    RunBookkeeping(m, arrivals[..n - 1]);
    DeviationIsOffPace(pt, arrivals[n - 2], arrivals[n - 1]);
  }

  lemma DeviationIsOffPace(pt: Byte, a: Arrival, b: Arrival)
    ensures Deviation(ClockRate(pt), a.now, a.ts, b) == Abs(OffPace(pt, a, b))
  {
    var elapsed := if b.now < a.now then 0.0 else b.now - a.now;
    TicksAre(elapsed, ClockRate(pt));
  }

  lemma TicksAre(elapsed: real, rate: nat)
    ensures Ticks(elapsed, rate) == rate as real * elapsed
  {
  }

  /** Jitter is never negative, and still zero exactly if every packet came at its predecessor's pace. */
  lemma {:induction false} NoJitterIffPaced(ssrc: U32, pt: Byte, start: real, arrivals: seq<Arrival>)
    ensures Run(Fresh(ssrc, pt, start), arrivals).jitter >= 0.0
    ensures Run(Fresh(ssrc, pt, start), arrivals).jitter == 0.0
       <==> forall i :: 1 <= i < |arrivals| ==> OffPace(pt, arrivals[i - 1], arrivals[i]) == 0.0
  {
    var n := |arrivals|;
    if n > 0 {
      NoJitterIffPaced(ssrc, pt, start, arrivals[..n - 1]);
      if n > 1 {
        JitterLaw(ssrc, pt, start, arrivals);
      } else {
        assert Run(Fresh(ssrc, pt, start), arrivals[..0]) == Fresh(ssrc, pt, start);
      }
    }
  }

  // ---- The store keeps streams apart ----

  function Project(packets: seq<Packet>, ssrc: U32): seq<Arrival>
  {
    if packets == [] then []
    else
      var n := |packets| - 1;
      Project(packets[..n], ssrc) + if packets[n].ssrc == ssrc then [packets[n].arrival] else []
  }

  /** The packet that opened a stream's record. */
  function Opening(packets: seq<Packet>, ssrc: U32): Packet
    requires Project(packets, ssrc) != []
  {
    var n := |packets| - 1;
    if Project(packets[..n], ssrc) != [] then Opening(packets[..n], ssrc) else packets[n]
  }

  /** Each stream's record is what its own packets alone would have produced. */
  lemma {:induction false} StoreDemultiplexes(packets: seq<Packet>, ssrc: U32)
    ensures ssrc in TableRun(map[], packets) <==> Project(packets, ssrc) != []
    ensures ssrc in TableRun(map[], packets) ==>
              var p := Opening(packets, ssrc);
              TableRun(map[], packets)[ssrc] == Run(Fresh(ssrc, p.pt, p.arrival.now), Project(packets, ssrc))
  {
    if packets != [] {
      var n := |packets| - 1;
      var p, before := packets[n], packets[..n];
      StoreDemultiplexes(before, ssrc);
      var own := Project(before, ssrc);
      if p.ssrc == ssrc {
        assert Project(packets, ssrc) == own + [p.arrival];
        assert (own + [p.arrival])[..|own|] == own;
      } else {
        assert Project(packets, ssrc) == own;
      }
    }
  }
}
