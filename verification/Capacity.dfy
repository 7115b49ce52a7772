/** Splitting subscribers over workers, and the latency summary (distributed.rs, capacity.rs). */
module Capacity {
  import opened Bytes
  import opened Lists

  // ---- Worker split ----

  function CeilDiv(a: nat, b: nat): nat
    requires b > 0
  {
    (a + b - 1) / b
  }

  function Sum(s: seq<nat>): nat
  {
    if s == [] then 0 else Sum(s[..|s| - 1]) + s[|s| - 1]
  }

  /** The condition a caller can check: the last worker's unsigned remainder does not underflow. */
  predicate Splittable(total: nat, workers: nat)
  {
    workers == 0 || total % workers == 0 || total / workers + total % workers >= workers - 1
  }

  /** How many subscribers each worker is handed; none if the remainder for the last one would be negative. */
  method SplitWorkers(total: nat, workers: nat) returns (counts: Option<seq<nat>>)
    ensures counts.Some? <==> Splittable(total, workers)
    ensures counts.Some? ==>
              && |counts.value| == workers
              && (workers > 0 ==> Sum(counts.value) == total)
              && forall w :: 0 <= w < workers - 1 ==> counts.value[w] == CeilDiv(total, workers)
    ensures counts.Some? && workers > 0 ==> counts.value[workers - 1] == total - CeilDiv(total, workers) * (workers - 1)
  {
    var perWorker := CeilDiv(total, if workers == 0 then 1 else workers);
    var cs: seq<nat> := [];
    for w := 0 to workers
      invariant |cs| == w
      invariant forall i :: 0 <= i < w && i < workers - 1 ==> cs[i] == perWorker
      invariant w < workers ==> Sum(cs) == perWorker * w
      invariant w == workers && workers > 0 ==> Sum(cs) == total && Splittable(total, workers)
      invariant w == workers && workers > 0 ==> perWorker * (workers - 1) + cs[workers - 1] == total
    {
      var cnt := perWorker;
      if w == workers - 1 {
        var last := LastCount(total, workers, perWorker);
        if last.None? {
          return None;
        }
        cnt := last.value;
      }
      SumSnoc(cs, cnt);
      OneMore(w, perWorker);
      cs := cs + [cnt];
    }
    counts := Some(cs);
  }

  /** What is left for the last worker; none if the others already take more than there is. */
  method LastCount(total: nat, workers: nat, perWorker: nat) returns (r: Option<nat>)
    requires workers > 0 && perWorker == CeilDiv(total, workers)
    ensures r.Some? <==> Splittable(total, workers)
    ensures r.Some? ==> perWorker * (workers - 1) + r.value == total
  {
    LastWorkerFitsIff(total, workers);
    if total < perWorker * (workers - 1) {
      return None;
    }
    r := Some(total - perWorker * (workers - 1));
  }

  lemma SumSnoc(s: seq<nat>, n: nat)
    ensures Sum(s + [n]) == Sum(s) + n
  {
    assert (s + [n])[..|s|] == s;
  }

  lemma OneMore(w: nat, per: nat)
    ensures per * (w + 1) == per * w + per
  {
  }

  /** The remainder is non-negative exactly when the quotient and the remainder together reach workers - 1. */
  lemma LastWorkerFitsIff(total: nat, workers: nat)
    requires workers > 0
    ensures CeilDiv(total, workers) * (workers - 1) <= total <==> Splittable(total, workers)
  {
    var q, r := total / workers, total % workers;
    CeilDivIs(total, workers);
    if r == 0 {
      assert q * (workers - 1) == q * workers - q;
    } else {
      assert (q + 1) * (workers - 1) == q * workers - q + workers - 1;
    }
  }

  lemma CeilDivIs(total: nat, workers: nat)
    requires workers > 0
    ensures var q, r := total / workers, total % workers;
            total == q * workers + r && CeilDiv(total, workers) == if r == 0 then q else q + 1
  {
    var q, r := total / workers, total % workers;
    assert total == q * workers + r;
    if r == 0 {
      QuotientIs(total + workers - 1, workers, q, workers - 1);
    } else {
      assert (q + 1) * workers == q * workers + workers;
      QuotientIs(total + workers - 1, workers, q + 1, r - 1);
    }
  }

  lemma QuotientIs(n: nat, d: nat, q: nat, r: nat)
    requires d > 0 && n == q * d + r && r < d
    ensures n / d == q
  {
    var k := n / d;
    assert d * k <= n < d * k + d && n == d * q + r;
    OneMore(k, d);
    OneMore(q, d);
    MulMonoIf(k + 1, q, d);
    MulMonoIf(q + 1, k, d);
  }

  lemma MulMonoIf(a: nat, b: nat, c: nat)
    ensures a <= b ==> c * a <= c * b
  {
    if a <= b { MulMono(a, b, c); }
  }

  /** (workers - 1) * (workers - 2) subscribers are always enough. */
  lemma ManySubscribersSplit(total: nat, workers: nat)
    requires workers > 0 && total >= (workers - 1) * (workers - 2)
    ensures Splittable(total, workers)
  {
    var q, r := total / workers, total % workers;
    CeilDivIs(total, workers);
    if q + r < workers - 1 && r > 0 {
      TooFew(q, r, workers);
    }
  }

  lemma TooFew(q: nat, r: nat, w: nat)
    requires q + r < w - 1 && r > 0
    ensures q * w + r < (w - 1) * (w - 2)
  {
    assert q * (w - 1) <= (w - 3) * (w - 1) by { MulMono(q, w - 3, w - 1); }
    assert q * w + r == q * (w - 1) + (q + r);
    assert (w - 3) * (w - 1) + (w - 2) + 1 == (w - 1) * (w - 2);
  }

  /** One subscriber fewer underflows, from three workers on. */
  lemma OneFewerUnderflows(workers: nat)
    requires workers >= 3
    ensures !Splittable((workers - 1) * (workers - 2) - 1, workers)
  {
    var total := (workers - 1) * (workers - 2) - 1;
    assert total == (workers - 3) * workers + 1;
    QuotientIs(total, workers, workers - 3, 1);
  }

  lemma MulMono(a: nat, b: nat, c: nat)
    requires a <= b
    ensures a * c <= b * c
  {
  }

  /** Five subscribers over four workers underflow: three workers of two already take six. */
  lemma FiveOverFourUnderflows()
    ensures !Splittable(5, 4) && CeilDiv(5, 4) * (4 - 1) > 5
  {
  }

  // ---- Latency summary ----

  predicate Sorted(s: seq<real>) { forall i, j :: 0 <= i <= j < |s| ==> s[i] <= s[j] }

  function SumOf(s: seq<real>): real
  {
    if s == [] then 0.0 else SumOf(s[..|s| - 1]) + s[|s| - 1]
  }

  datatype Stats = Stats(avg: real, p95: real, max: real)

  function P95Index(n: nat): nat
    requires n > 0
  {
    var k := (n as real * 0.95).Floor;
    if k < n - 1 then k else n - 1
  }

  method LatStats(sorted: seq<real>) returns (r: Stats)
    ensures sorted == [] ==> r == Stats(0.0, 0.0, 0.0)
    ensures sorted != [] ==>
              r.avg == SumOf(sorted) / |sorted| as real && r.p95 == sorted[P95Index(|sorted|)] && r.max == sorted[|sorted| - 1]
  {
    if sorted == [] {
      return Stats(0.0, 0.0, 0.0);
    }
    var sum := 0.0;
    for i := 0 to |sorted|
      invariant sum == SumOf(sorted[..i])
    {
      assert sorted[..i + 1][..i] == sorted[..i];
      sum := sum + sorted[i];
    }
    assert sorted[..|sorted|] == sorted;
    var k := (|sorted| as real * 0.95).Floor;
    var index := if k < |sorted| - 1 then k else |sorted| - 1;
    r := Stats(sum / |sorted| as real, sorted[index], sorted[|sorted| - 1]);
  }

  /** The index is the last one not beyond 95% of the count. */
  lemma P95IndexIs(n: nat)
    requires n > 0
    ensures var k := P95Index(n); k < n && 20 * k <= 19 * n && (k == n - 1 || 19 * n < 20 * (k + 1))
  {
    var x := n as real * 0.95;
    assert x.Floor as real <= x < x.Floor as real + 1.0;
  }

  /** Adding up: one value is itself, and parts add. */
  lemma {:induction false} SumIsAdditive(a: seq<real>, b: seq<real>, x: real)
    ensures SumOf([x]) == x
    ensures SumOf(a + b) == SumOf(a) + SumOf(b)
  {
    assert [x][..0] == [];
    if b == [] {
      assert a + b == a;
    } else {
      assert (a + b)[..|a + b| - 1] == a + b[..|b| - 1];
      SumIsAdditive(a, b[..|b| - 1], x);
    }
  }

  /** The sum does not depend on the order, so the average of the sorted samples is that of the samples. */
  lemma {:induction false} SumIgnoresOrder(a: seq<real>, b: seq<real>)
    requires multiset(a) == multiset(b)
    ensures SumOf(a) == SumOf(b)
    decreases |a|
  {
    if a == [] {
      assert |multiset(b)| == 0;
    } else {
      var x := a[|a| - 1];
      assert a == a[..|a| - 1] + [x];
      assert x in multiset(b);
      var i :| 0 <= i < |b| && b[i] == x;
      WithoutLast(a);
      WithoutOne(b, i);
      SumIgnoresOrder(a[..|a| - 1], b[..i] + b[i + 1..]);
      SumWithout(b, i);
    }
  }

  lemma SumWithout(b: seq<real>, i: nat)
    requires i < |b|
    ensures SumOf(b) == SumOf(b[..i] + b[i + 1..]) + b[i]
  {
    assert b == b[..i] + ([b[i]] + b[i + 1..]);
    SumIsAdditive(b[..i], [b[i]] + b[i + 1..], b[i]);
    SumIsAdditive([b[i]], b[i + 1..], b[i]);
    SumIsAdditive(b[..i], b[i + 1..], b[i]);
  }

  lemma P95IndexBounds(n: nat)
    requires n > 0
    ensures P95Index(n) < n && 95 * n <= 100 * (P95Index(n) + 1) && 5 * n <= 100 * (n - P95Index(n))
  {
    var x := n as real * 0.95;
    assert x.Floor as real <= x < x.Floor as real + 1.0;
  }

  function CountAtMost(s: seq<real>, v: real): nat
  {
    if s == [] then 0 else CountAtMost(s[..|s| - 1], v) + if s[|s| - 1] <= v then 1 else 0
  }

  function CountAtLeast(s: seq<real>, v: real): nat
  {
    if s == [] then 0 else CountAtLeast(s[..|s| - 1], v) + if s[|s| - 1] >= v then 1 else 0
  }

  lemma {:induction false} LeadingCount(s: seq<real>, v: real, k: nat)
    requires k <= |s| && forall i :: 0 <= i < k ==> s[i] <= v
    ensures k <= CountAtMost(s, v)
  {
    if s != [] {
      LeadingCount(s[..|s| - 1], v, if k < |s| then k else k - 1);
    }
  }

  lemma {:induction false} TrailingCount(s: seq<real>, v: real, k: nat)
    requires k <= |s| && forall i :: k <= i < |s| ==> s[i] >= v
    ensures |s| - k <= CountAtLeast(s, v)
  {
    if k < |s| {
      TrailingCount(s[..|s| - 1], v, k);
    }
  }

  lemma SortedCounts(s: seq<real>, k: nat)
    requires Sorted(s) && k < |s|
    ensures k + 1 <= CountAtMost(s, s[k]) && |s| - k <= CountAtLeast(s, s[k])
  {
    LeadingCount(s, s[k], k + 1);
    TrailingCount(s, s[k], k);
  }

  /** The counts see only the multiset. */
  lemma {:induction false} CountsIgnoreOrder(a: seq<real>, b: seq<real>, v: real)
    requires multiset(a) == multiset(b)
    ensures CountAtMost(a, v) == CountAtMost(b, v) && CountAtLeast(a, v) == CountAtLeast(b, v)
    decreases |a|
  {
    if a == [] {
      assert |multiset(b)| == 0;
    } else {
      var x := a[|a| - 1];
      assert a == a[..|a| - 1] + [x];
      assert x in multiset(b);
      var i :| 0 <= i < |b| && b[i] == x;
      WithoutLast(a);
      WithoutOne(b, i);
      CountsIgnoreOrder(a[..|a| - 1], b[..i] + b[i + 1..], v);
      CountsTakeOut(b, i, v);
    }
  }

  lemma {:induction false} CountsTakeOut(b: seq<real>, i: nat, v: real)
    requires i < |b|
    ensures CountAtMost(b, v) == CountAtMost(b[..i] + b[i + 1..], v) + if b[i] <= v then 1 else 0
    ensures CountAtLeast(b, v) == CountAtLeast(b[..i] + b[i + 1..], v) + if b[i] >= v then 1 else 0
  {
    var n := |b| - 1;
    if i == n {
      assert b[..i] + b[i + 1..] == b[..n];
    } else {
      var c, d := b[..n], b[..i] + b[i + 1..];
      CountsTakeOut(c, i, v);
      assert d[..|d| - 1] == c[..i] + c[i + 1..] && d[|d| - 1] == b[n];
    }
  }

  /** Sorting has only one result, so the statistics do not depend on the order samples came in. */
  lemma {:induction false} SortedUnique(a: seq<real>, b: seq<real>)
    requires Sorted(a) && Sorted(b) && multiset(a) == multiset(b)
    ensures a == b
    decreases |a|
  {
    assert |a| == |multiset(a)| == |multiset(b)| == |b|;
    if a != [] {
      var n := |a| - 1;
      SameLast(a, b);
      WithoutLast(a);
      WithoutLast(b);
      SortedPrefix(a);
      SortedPrefix(b);
      SortedUnique(a[..n], b[..n]);
      SameEnds(a, b);
    }
  }

  lemma SortedPrefix(s: seq<real>)
    requires s != [] && Sorted(s)
    ensures Sorted(s[..|s| - 1])
  {
  }

  lemma SameEnds(a: seq<real>, b: seq<real>)
    requires |a| == |b| > 0 && a[..|a| - 1] == b[..|b| - 1] && a[|a| - 1] == b[|b| - 1]
    ensures a == b
  {
    assert a == a[..|a| - 1] + [a[|a| - 1]] && b == b[..|b| - 1] + [b[|b| - 1]];
  }

  lemma SameLast(a: seq<real>, b: seq<real>)
    requires Sorted(a) && Sorted(b) && multiset(a) == multiset(b) && |a| == |b| > 0
    ensures a[|a| - 1] == b[|a| - 1]
  {
    var n := |a| - 1;
    assert a[n] in multiset(b) && b[n] in multiset(a);
    assert a[n] in b && b[n] in a;
  }

  lemma {:induction false} SumBounds(s: seq<real>, lo: real, hi: real)
    requires forall i :: 0 <= i < |s| ==> lo <= s[i] <= hi
    ensures lo * |s| as real <= SumOf(s) <= hi * |s| as real
  {
    if s != [] {
      SumBounds(s[..|s| - 1], lo, hi);
      var n := (|s| - 1) as real;
      assert lo * (n + 1.0) == lo * n + lo && hi * (n + 1.0) == hi * n + hi;
    }
  }

  lemma AverageBetween(sum: real, n: real, lo: real, hi: real)
    requires n > 0.0 && lo * n <= sum <= hi * n
    ensures lo <= sum / n <= hi
  {
    var q := sum / n;
    assert q * n == sum;
    assert q < lo ==> q * n < lo * n;
    assert q > hi ==> q * n > hi * n;
  }

  /** The average lies between any bounds on the values. */
  lemma AverageInRange(s: seq<real>, lo: real, hi: real)
    requires s != [] && forall i :: 0 <= i < |s| ==> lo <= s[i] <= hi
    ensures lo <= SumOf(s) / |s| as real <= hi
  {
    SumBounds(s, lo, hi);
    AverageBetween(SumOf(s), |s| as real, lo, hi);
  }

  /** For any samples and their sorted list: p95 is a 95% quantile of the samples, and min <= avg <= max. */
  lemma P95IsQuantile(samples: seq<real>, sorted: seq<real>)
    requires samples != [] && Sorted(sorted) && multiset(sorted) == multiset(samples)
    ensures |sorted| == |samples|
    ensures var p95 := sorted[P95Index(|sorted|)];
            95 * |samples| <= 100 * CountAtMost(samples, p95) && 5 * |samples| <= 100 * CountAtLeast(samples, p95)
    ensures sorted[0] <= SumOf(sorted) / |sorted| as real <= sorted[|sorted| - 1]
    ensures SumOf(sorted) == SumOf(samples)
  {
    assert |sorted| == |multiset(sorted)| == |multiset(samples)| == |samples|;
    SumIgnoresOrder(sorted, samples);
    QuantileOfSorted(sorted);
    CountsIgnoreOrder(sorted, samples, sorted[P95Index(|sorted|)]);
    AverageInRange(sorted, sorted[0], sorted[|sorted| - 1]);
  }

  lemma QuantileOfSorted(sorted: seq<real>)
    requires Sorted(sorted) && sorted != []
    ensures var p95 := sorted[P95Index(|sorted|)];
            95 * |sorted| <= 100 * CountAtMost(sorted, p95) && 5 * |sorted| <= 100 * CountAtLeast(sorted, p95)
  {
    P95IndexBounds(|sorted|);
    SortedCounts(sorted, P95Index(|sorted|));
  }
}
