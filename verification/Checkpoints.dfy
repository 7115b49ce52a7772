/** Checkpoints that decide global facts from adjacent pairs (checkpoint_eval.rs: L1-02, L1-03, L1-13). */
module Checkpoints {
  import opened Bytes
  import opened Wrapping
  import opened RtcpObservers
  import opened RecvMetrics

  datatype Outcome = Skipped | Passed | Failed

  // ---- Sender reports, grouped by SSRC ----

  /** One SSRC's reports, in arrival order. */
  function Stream(srs: seq<SrRecord>, ssrc: U32): seq<SrRecord>
  {
    if srs == [] then []
    else
      var last := srs[|srs| - 1];
      Stream(srs[..|srs| - 1], ssrc) + if last.ssrc == ssrc then [last] else []
  }

  lemma {:induction false} StreamsCover(srs: seq<SrRecord>, ssrc: U32)
    ensures Stream(srs, ssrc) == [] <==> forall sr :: sr in srs ==> sr.ssrc != ssrc
  {
    if srs != [] {
      StreamsCover(srs[..|srs| - 1], ssrc);
      assert forall sr :: sr in srs <==> sr in srs[..|srs| - 1] || sr == srs[|srs| - 1];
    }
  }

  /** ix lists, in order, exactly the places in srs where this SSRC reported. */
  ghost predicate Picks(ix: seq<int>, srs: seq<SrRecord>, ssrc: U32)
  {
    && (forall n :: 0 <= n < |ix| ==> 0 <= ix[n] < |srs|)
    && (forall n, o :: 0 <= n < o < |ix| ==> ix[n] < ix[o])
    && (forall i :: 0 <= i < |srs| ==> (i in ix <==> srs[i].ssrc == ssrc))
  }

  /** A stream is the list at those places, in arrival order. */
  lemma {:induction false} StreamIsPicked(srs: seq<SrRecord>, ssrc: U32) returns (ix: seq<int>)
    ensures Picks(ix, srs, ssrc) && |ix| == |Stream(srs, ssrc)|
    ensures forall n :: 0 <= n < |ix| ==> Stream(srs, ssrc)[n] == srs[ix[n]]
  {
    ix := [];
    if srs != [] {
      var last := |srs| - 1;
      ix := StreamIsPicked(srs[..last], ssrc);
      assert forall i :: i in ix ==> i < last;
      if srs[last].ssrc == ssrc {
        assert forall i :: i in ix + [last] <==> i in ix || i == last;
        ix := ix + [last];
      }
    }
  }

  /** i and j are neighbours in the stream of their SSRC: both of it, with none of it in between. */
  predicate Neighbours(srs: seq<SrRecord>, i: int, j: int)
  {
    && 0 <= i < j < |srs| && srs[i].ssrc == srs[j].ssrc
    && forall m :: i < m < j ==> srs[m].ssrc != srs[i].ssrc
  }

  lemma PickedNeighbours(srs: seq<SrRecord>, ssrc: U32, ix: seq<int>, n: nat)
    requires Picks(ix, srs, ssrc) && 1 <= n < |ix|
    ensures srs[ix[n - 1]].ssrc == srs[ix[n]].ssrc == ssrc && Neighbours(srs, ix[n - 1], ix[n])
  {
    assert ix[n - 1] in ix && ix[n] in ix;
    forall m | ix[n - 1] < m < ix[n] ensures srs[m].ssrc != ssrc {
      NotPicked(srs, ssrc, ix, n, m);
    }
  }

  lemma NotPicked(srs: seq<SrRecord>, ssrc: U32, ix: seq<int>, n: nat, m: int)
    requires Picks(ix, srs, ssrc) && 1 <= n < |ix| && ix[n - 1] < m < ix[n]
    ensures m !in ix
  {
    forall o | 0 <= o < |ix| ensures ix[o] != m {
      assert if o < n - 1 then ix[o] < ix[n - 1] else if n < o then ix[n] < ix[o] else o == n - 1 || o == n;
    }
  }

  lemma NeighboursPicked(srs: seq<SrRecord>, ssrc: U32, ix: seq<int>, i: int, j: int) returns (n: nat)
    requires Picks(ix, srs, ssrc) && Neighbours(srs, i, j) && srs[i].ssrc == ssrc
    ensures 1 <= n < |ix| && ix[n - 1] == i && ix[n] == j
  {
    assert i in ix && j in ix;
    var o :| 0 <= o < |ix| && ix[o] == i;
    n :| 0 <= n < |ix| && ix[n] == j;
    assert o + 1 < |ix| ==> ix[o + 1] in ix;
  }

  ghost predicate GroupedAs(groups: map<U32, seq<SrRecord>>, srs: seq<SrRecord>)
  {
    && (forall k :: k in groups <==> Stream(srs, k) != [])
    && (forall k :: k in groups ==> groups[k] == Stream(srs, k))
  }

  ghost predicate IsPicked(s: seq<SrRecord>, srs: seq<SrRecord>, ssrc: U32)
  {
    exists ix :: Picks(ix, srs, ssrc) && |ix| == |s| && forall n :: 0 <= n < |s| ==> s[n] == srs[ix[n]]
  }

  method GroupBySsrc(srs: seq<SrRecord>) returns (groups: map<U32, seq<SrRecord>>)
    ensures GroupedAs(groups, srs)
  {
    groups := map[];
    for i := 0 to |srs|
      invariant GroupedAs(groups, srs[..i])
    {
      var sr := srs[i];
      assert srs[..i + 1][..i] == srs[..i];
      groups := groups[sr.ssrc := (if sr.ssrc in groups then groups[sr.ssrc] else []) + [sr]];
    }
    assert srs[..|srs|] == srs;
  }

  /** Grouped: an entry for each SSRC that reported, with exactly its reports, in arrival order. */
  lemma GroupsInArrivalOrder(groups: map<U32, seq<SrRecord>>, srs: seq<SrRecord>)
    requires GroupedAs(groups, srs)
    ensures forall k: U32 :: k in groups <==> exists sr :: sr in srs && sr.ssrc == k
    ensures forall k: U32 :: k in groups ==> IsPicked(groups[k], srs, k)
  {
    forall k: U32
      ensures IsPicked(Stream(srs, k), srs, k)
      ensures Stream(srs, k) != [] <==> exists sr :: sr in srs && sr.ssrc == k
    {
      var ix := StreamIsPicked(srs, k);
      StreamsCover(srs, k);
    }
  }

  // ---- The shared evaluation ----

  type Advances = (SrRecord, SrRecord) -> bool

  /** Every adjacent pair advances. */
  ghost predicate AdjacentOk(s: seq<SrRecord>, ok: Advances)
  {
    forall i :: 1 <= i < |s| ==> ok(s[i - 1], s[i])
  }

  method CountViolations(s: seq<SrRecord>, ok: Advances) returns (violations: nat)
    ensures violations == 0 <==> AdjacentOk(s, ok)
  {
    violations := 0;
    var i := 1;
    while i < |s|
      invariant 1 <= i && (s != [] ==> i <= |s|)
      invariant violations == 0 <==> forall j :: 1 <= j < i && j < |s| ==> ok(s[j - 1], s[j])
    {
      if !ok(s[i - 1], s[i]) {
        violations := violations + 1;
      }
      i := i + 1;
    }
  }

  ghost predicate StreamOk(srs: seq<SrRecord>, ssrc: U32, ok: Advances) { AdjacentOk(Stream(srs, ssrc), ok) }

  ghost predicate BotOk(srs: seq<SrRecord>, ok: Advances)
  {
    forall k: U32 :: StreamOk(srs, k, ok)
  }

  method CheckBot(srs: seq<SrRecord>, ok: Advances) returns (total: nat, violations: nat)
    ensures total == 0 <==> srs == []
    ensures violations == 0 <==> BotOk(srs, ok)
  {
    var groups := GroupBySsrc(srs);
    var rest := groups.Keys;
    total, violations := 0, 0;
    while rest != {}
      invariant rest <= groups.Keys
      invariant total == 0 <==> rest == groups.Keys
      invariant violations == 0 <==> forall k :: k in groups.Keys - rest ==> AdjacentOk(groups[k], ok)
    {
      var k :| k in rest;
      var v := CountViolations(groups[k], ok);
      total, violations := total + |groups[k]|, violations + v;
      rest := rest - {k};
    }
    GroupsDecide(srs, groups, ok);
  }

  lemma GroupsDecide(srs: seq<SrRecord>, groups: map<U32, seq<SrRecord>>, ok: Advances)
    requires GroupedAs(groups, srs)
    ensures groups.Keys == {} <==> srs == []
    ensures (forall k :: k in groups.Keys ==> AdjacentOk(groups[k], ok)) <==> BotOk(srs, ok)
  {
    forall k: U32 ensures StreamOk(srs, k, ok) <==> (k in groups ==> AdjacentOk(groups[k], ok)) {}
    if srs != [] {
      StreamsCover(srs, srs[0].ssrc);
      assert srs[0] in srs;
    }
  }

  method Evaluate(observations: map<string, seq<SrRecord>>, ok: Advances) returns (r: Outcome)
    ensures r == Skipped <==> forall id :: id in observations ==> observations[id] == []
    ensures r == Failed <==> exists id :: id in observations && !BotOk(observations[id], ok)
  {
    var rest := observations.Keys;
    var total, violations := 0, 0;
    while rest != {}
      invariant rest <= observations.Keys && total >= 0 && violations >= 0
      invariant total == 0 <==> forall id :: id in observations.Keys - rest ==> observations[id] == []
      invariant violations == 0 <==> forall id :: id in observations.Keys - rest ==> BotOk(observations[id], ok)
    {
      var id :| id in rest;
      if observations[id] != [] {
        var t, v := CheckBot(observations[id], ok);
        total, violations := total + t, violations + v;
      }
      rest := rest - {id};
    }
    r := if total == 0 then Skipped else if violations > 0 then Failed else Passed;
  }

  // ---- L1-02: NTP stamps ----

  function Ntp(sr: SrRecord): U64 { sr.ntpSec as int * 0x1_0000_0000 + sr.ntpFrac as int }

  predicate NtpAdvances(a: SrRecord, b: SrRecord) { Ntp(a) < Ntp(b) }

  /** All pairs, not only neighbours, are strictly increasing. */
  ghost predicate NtpIncreasing(s: seq<SrRecord>)
  {
    forall i, j :: 0 <= i < j < |s| ==> Ntp(s[i]) < Ntp(s[j])
  }

  ghost predicate NtpIncreasingIn(srs: seq<SrRecord>, ssrc: U32) { NtpIncreasing(Stream(srs, ssrc)) }

  lemma {:induction false} NeighboursDecideNtp(s: seq<SrRecord>)
    ensures AdjacentOk(s, NtpAdvances) <==> NtpIncreasing(s)
  {
    if AdjacentOk(s, NtpAdvances) {
      forall i, j | 0 <= i < j < |s| ensures Ntp(s[i]) < Ntp(s[j]) {
        NtpChain(s, i, j);
      }
    }
  }

  lemma {:induction false} NtpChain(s: seq<SrRecord>, i: nat, j: nat)
    requires AdjacentOk(s, NtpAdvances) && i < j < |s|
    ensures Ntp(s[i]) < Ntp(s[j])
  {
    assert NtpAdvances(s[j - 1], s[j]);
    if i < j - 1 {
      NtpChain(s, i, j - 1);
    }
  }

  /** The stamp of a comes before that of b: by seconds, then by fraction. */
  predicate StampBefore(a: SrRecord, b: SrRecord)
  {
    a.ntpSec < b.ntpSec || (a.ntpSec == b.ntpSec && a.ntpFrac < b.ntpFrac)
  }

  /** On the bot's own list: a later report of the same SSRC has a later stamp. */
  ghost predicate StampsInOrder(srs: seq<SrRecord>)
  {
    forall i, j :: 0 <= i < j < |srs| && srs[i].ssrc == srs[j].ssrc ==> StampBefore(srs[i], srs[j])
  }

  lemma NtpIsLexicographic(a: SrRecord, b: SrRecord)
    ensures Ntp(a) < Ntp(b) <==> StampBefore(a, b)
  {
  }

  lemma StampsIncreaseIff(srs: seq<SrRecord>)
    ensures (forall k: U32 :: NtpIncreasingIn(srs, k)) <==> StampsInOrder(srs)
  {
    if forall k: U32 :: NtpIncreasingIn(srs, k) {
      forall i, j | 0 <= i < j < |srs| && srs[i].ssrc == srs[j].ssrc ensures StampBefore(srs[i], srs[j]) {
        StreamOrdersStamps(srs, i, j);
      }
    }
    if StampsInOrder(srs) {
      forall k: U32 ensures NtpIncreasingIn(srs, k) {
        ListOrdersStream(srs, k);
      }
    }
  }

  lemma StreamOrdersStamps(srs: seq<SrRecord>, i: int, j: int)
    requires 0 <= i < j < |srs| && srs[i].ssrc == srs[j].ssrc && NtpIncreasingIn(srs, srs[i].ssrc)
    ensures StampBefore(srs[i], srs[j])
  {
    var ix := StreamIsPicked(srs, srs[i].ssrc);
    assert i in ix && j in ix;
    var n :| 0 <= n < |ix| && ix[n] == i;
    var o :| 0 <= o < |ix| && ix[o] == j;
    NtpIsLexicographic(srs[i], srs[j]);
  }

  lemma ListOrdersStream(srs: seq<SrRecord>, ssrc: U32)
    requires StampsInOrder(srs)
    ensures NtpIncreasingIn(srs, ssrc)
  {
    var ix := StreamIsPicked(srs, ssrc);
    var s := Stream(srs, ssrc);
    forall n, o | 0 <= n < o < |s| ensures Ntp(s[n]) < Ntp(s[o]) {
      assert ix[n] in ix && ix[o] in ix;
      NtpIsLexicographic(srs[ix[n]], srs[ix[o]]);
    }
  }

  /** Fails iff for some bot and SSRC the 64-bit stamps are not strictly increasing; skipped iff no report came. */
  method EvalL102(observations: map<string, seq<SrRecord>>) returns (r: Outcome)
    ensures r == Skipped <==> forall id :: id in observations ==> observations[id] == []
    ensures r == Failed <==> exists id :: id in observations && !StampsInOrder(observations[id])
  {
    r := Evaluate(observations, NtpAdvances);
    forall id | id in observations
      ensures BotOk(observations[id], NtpAdvances) <==> StampsInOrder(observations[id])
    {
      BotOkIsNtp(observations[id]);
      StampsIncreaseIff(observations[id]);
    }
  }

  lemma BotOkIsNtp(srs: seq<SrRecord>)
    ensures BotOk(srs, NtpAdvances) <==> forall k: U32 :: NtpIncreasingIn(srs, k)
  {
    forall k: U32 ensures StreamOk(srs, k, NtpAdvances) <==> NtpIncreasingIn(srs, k) {
      NeighboursDecideNtp(Stream(srs, k));
    }
  }

  // ---- L1-03: RTP stamps ----

  predicate TsAdvances(a: SrRecord, b: SrRecord) { AsI32(WrapSub32(b.rtpTs, a.rtpTs)) > 0 }

  /** xs are true times behind the wrapped stamps, each after the last by less than half the range. */
  ghost predicate UnwrapsForward(xs: seq<int>, s: seq<SrRecord>)
  {
    && |xs| == |s| && (forall i :: 0 <= i < |s| ==> xs[i] % 0x1_0000_0000 == s[i].rtpTs)
    && (forall i :: 1 <= i < |s| ==> 0 < xs[i] - xs[i - 1] < 0x8000_0000)
  }

  ghost predicate RunsForward(s: seq<SrRecord>) { exists xs :: UnwrapsForward(xs, s) }

  ghost predicate RunsForwardIn(srs: seq<SrRecord>, ssrc: U32) { RunsForward(Stream(srs, ssrc)) }

  lemma ForwardStep(a: int, b: int)
    requires 0 < b - a < 0x8000_0000
    ensures AsI32(WrapSub32(b % 0x1_0000_0000, a % 0x1_0000_0000)) > 0
  {
    var p, q := a / 0x1_0000_0000, b / 0x1_0000_0000;
    assert a == p * 0x1_0000_0000 + a % 0x1_0000_0000 && b == q * 0x1_0000_0000 + b % 0x1_0000_0000;
    assert WrapSub32(b % 0x1_0000_0000, a % 0x1_0000_0000) == b - a;
  }

  lemma StepForward(x: int, ts: U32) returns (y: int)
    requires AsI32(WrapSub32(ts, x % 0x1_0000_0000)) > 0
    ensures y % 0x1_0000_0000 == ts && 0 < y - x < 0x8000_0000
  {
    var d := WrapSub32(ts, x % 0x1_0000_0000);
    y := x + d;
    var p := x / 0x1_0000_0000;
    assert x == p * 0x1_0000_0000 + x % 0x1_0000_0000;
  }

  lemma {:induction false} UnwrapForward(s: seq<SrRecord>) returns (xs: seq<int>)
    requires AdjacentOk(s, TsAdvances)
    ensures UnwrapsForward(xs, s)
  {
    xs := [];
    if s != [] {
      var n := |s| - 1;
      var before := s[..n];
      assert AdjacentOk(before, TsAdvances);
      xs := UnwrapForward(before);
      if n == 0 {
        xs := [s[0].rtpTs];
      } else {
        assert TsAdvances(s[n - 1], s[n]);
        assert xs[n - 1] % 0x1_0000_0000 == before[n - 1].rtpTs;
        var y := StepForward(xs[n - 1], s[n].rtpTs);
        UnwrapSnoc(xs, before, y, s[n]);
        xs := xs + [y];
        assert s == before + [s[n]];
      }
    }
  }

  lemma UnwrapSnoc(xs: seq<int>, s: seq<SrRecord>, y: int, sr: SrRecord)
    requires UnwrapsForward(xs, s) && s != [] && y % 0x1_0000_0000 == sr.rtpTs && 0 < y - xs[|xs| - 1] < 0x8000_0000
    ensures UnwrapsForward(xs + [y], s + [sr])
  {
  }

  lemma NeighboursDecideTs(s: seq<SrRecord>)
    ensures AdjacentOk(s, TsAdvances) <==> RunsForward(s)
  {
    if AdjacentOk(s, TsAdvances) {
      var xs := UnwrapForward(s);
    }
    if xs :| UnwrapsForward(xs, s) {
      forall i | 1 <= i < |s| ensures TsAdvances(s[i - 1], s[i]) {
        assert xs[i - 1] % 0x1_0000_0000 == s[i - 1].rtpTs && xs[i] % 0x1_0000_0000 == s[i].rtpTs;
        ForwardStep(xs[i - 1], xs[i]);
      }
    }
  }

  /** Modulo 2^32, the stamp of b is ahead of that of a by less than half the range. */
  predicate StepsForward(a: SrRecord, b: SrRecord) { 0 < (b.rtpTs - a.rtpTs) % 0x1_0000_0000 < 0x8000_0000 }

  /** On the bot's own list: every report steps forward from the one before it of the same SSRC. */
  ghost predicate ClocksStepForward(srs: seq<SrRecord>)
  {
    forall i, j :: Neighbours(srs, i, j) ==> StepsForward(srs[i], srs[j])
  }

  lemma ClocksStepForwardIff(srs: seq<SrRecord>)
    ensures (forall k: U32 :: StreamOk(srs, k, TsAdvances)) <==> ClocksStepForward(srs)
  {
    if forall k: U32 :: StreamOk(srs, k, TsAdvances) {
      forall i, j | Neighbours(srs, i, j) ensures StepsForward(srs[i], srs[j]) {
        assert StreamOk(srs, srs[i].ssrc, TsAdvances);
        StreamStepsForward(srs, i, j);
      }
    }
    if ClocksStepForward(srs) {
      forall k: U32 ensures StreamOk(srs, k, TsAdvances) {
        ListStepsForward(srs, k);
      }
    }
  }

  lemma StreamStepsForward(srs: seq<SrRecord>, i: int, j: int)
    requires Neighbours(srs, i, j) && StreamOk(srs, srs[i].ssrc, TsAdvances)
    ensures StepsForward(srs[i], srs[j])
  {
    var ix := StreamIsPicked(srs, srs[i].ssrc);
    var n := NeighboursPicked(srs, srs[i].ssrc, ix, i, j);
    var s := Stream(srs, srs[i].ssrc);
    assert TsAdvances(s[n - 1], s[n]);
  }

  lemma ListStepsForward(srs: seq<SrRecord>, ssrc: U32)
    requires ClocksStepForward(srs)
    ensures StreamOk(srs, ssrc, TsAdvances)
  {
    var ix := StreamIsPicked(srs, ssrc);
    var s := Stream(srs, ssrc);
    forall n | 1 <= n < |s| ensures TsAdvances(s[n - 1], s[n]) {
      PickedNeighbours(srs, ssrc, ix, n);
      assert StepsForward(srs[ix[n - 1]], srs[ix[n]]);
    }
  }

  /** Fails iff for some bot and SSRC the stamps are not those of a strictly increasing clock with steps below 2^31. */
  method EvalL103(observations: map<string, seq<SrRecord>>) returns (r: Outcome)
    ensures r == Skipped <==> forall id :: id in observations ==> observations[id] == []
    ensures r == Failed <==> exists id, k: U32 :: id in observations && !RunsForwardIn(observations[id], k)
    ensures r == Failed <==> exists id :: id in observations && !ClocksStepForward(observations[id])
  {
    r := Evaluate(observations, TsAdvances);
    forall id | id in observations
      ensures BotOk(observations[id], TsAdvances) <==> forall k: U32 :: RunsForwardIn(observations[id], k)
      ensures BotOk(observations[id], TsAdvances) <==> ClocksStepForward(observations[id])
    {
      BotOkIsForward(observations[id]);
      ClocksStepForwardIff(observations[id]);
    }
  }

  lemma BotOkIsForward(srs: seq<SrRecord>)
    ensures BotOk(srs, TsAdvances) <==> forall k: U32 :: RunsForwardIn(srs, k)
  {
    forall k: U32 ensures StreamOk(srs, k, TsAdvances) <==> RunsForwardIn(srs, k) {
      NeighboursDecideTs(Stream(srs, k));
    }
  }

  // ---- L1-13: fan-out integrity ----

  const PRISTINE := "pristine"

  /** Some receiver got n packets of the stream: among the first `upto` entries of a snapshot, or in any of some snapshots. */
  ghost predicate HeardIn(streams: seq<Metrics>, upto: nat, ssrc: U32, n: nat)
    requires upto <= |streams|
  {
    exists i :: 0 <= i < upto && streams[i].ssrc == ssrc && streams[i].received == n
  }

  ghost predicate Heard(snaps: map<string, Snapshot>, ids: set<string>, ssrc: U32, n: nat)
    requires ids <= snaps.Keys
  {
    exists id :: id in ids && HeardIn(snaps[id].streams, |snaps[id].streams|, ssrc, n)
  }

  predicate Listed(groups: map<U32, seq<nat>>, ssrc: U32, n: nat) { ssrc in groups && n in groups[ssrc] }

  ghost predicate Lists(groups: map<U32, seq<nat>>, snaps: map<string, Snapshot>, ids: set<string>)
    requires ids <= snaps.Keys
  {
    forall k: U32, n: nat :: Listed(groups, k, n) <==> Heard(snaps, ids, k, n)
  }

  /** Any two receivers of a stream differ by at most two packets. */
  ghost predicate CountsAgree(snaps: map<string, Snapshot>)
  {
    forall k: U32, a: nat, b: nat :: Heard(snaps, snaps.Keys, k, a) && Heard(snaps, snaps.Keys, k, b) ==> a <= b + 2
  }

  /** Someone reported, nobody lost anything, and the receivers of each stream agree. */
  ghost predicate FanoutIntact(snaps: map<string, Snapshot>)
  {
    snaps != map[] && (forall id :: id in snaps ==> snaps[id].totalLost == 0) && CountsAgree(snaps)
  }

  function Push(groups: map<U32, seq<nat>>, ssrc: U32, n: nat): map<U32, seq<nat>>
  {
    groups[ssrc := (if ssrc in groups then groups[ssrc] else []) + [n]]
  }

  method AddReceivers(groups: map<U32, seq<nat>>, streams: seq<Metrics>) returns (more: map<U32, seq<nat>>)
    ensures forall k: U32, n: nat :: Listed(more, k, n) <==> Listed(groups, k, n) || HeardIn(streams, |streams|, k, n)
  {
    more := groups;
    for i := 0 to |streams|
      invariant forall k: U32, n: nat :: Listed(more, k, n) <==> Listed(groups, k, n) || HeardIn(streams, i, k, n)
    {
      forall k: U32, n: nat
        ensures Listed(Push(more, streams[i].ssrc, streams[i].received), k, n)
           <==> Listed(more, k, n) || (k == streams[i].ssrc && n == streams[i].received)
        ensures HeardIn(streams, i + 1, k, n)
           <==> HeardIn(streams, i, k, n) || (k == streams[i].ssrc && n == streams[i].received)
      {
        PushLists(more, streams[i].ssrc, streams[i].received, k, n);
        HeardNext(streams, i, k, n);
      }
      more := Push(more, streams[i].ssrc, streams[i].received);
    }
  }

  lemma PushLists(groups: map<U32, seq<nat>>, ssrc: U32, m: nat, k: U32, n: nat)
    ensures Listed(Push(groups, ssrc, m), k, n) <==> Listed(groups, k, n) || (k == ssrc && n == m)
  {
  }

  lemma HeardNext(streams: seq<Metrics>, i: nat, k: U32, n: nat)
    requires i < |streams|
    ensures HeardIn(streams, i + 1, k, n)
       <==> HeardIn(streams, i, k, n) || (streams[i].ssrc == k && streams[i].received == n)
  {
  }

  method GroupReceivers(snaps: map<string, Snapshot>) returns (groups: map<U32, seq<nat>>)
    ensures Lists(groups, snaps, snaps.Keys)
  {
    groups := map[];
    var rest := snaps.Keys;
    ghost var done: set<string> := {};
    while rest != {}
      invariant rest <= snaps.Keys && done == snaps.Keys - rest
      invariant Lists(groups, snaps, done)
    {
      var id :| id in rest;
      groups := AddReceivers(groups, snaps[id].streams);
      OneMoreSnapshot(snaps, done, id);
      done, rest := done + {id}, rest - {id};
    }
  }

  lemma OneMoreSnapshot(snaps: map<string, Snapshot>, ids: set<string>, id: string)
    requires ids <= snaps.Keys && id in snaps
    ensures forall k: U32, n: nat :: Heard(snaps, ids + {id}, k, n)
              <==> Heard(snaps, ids, k, n) || HeardIn(snaps[id].streams, |snaps[id].streams|, k, n)
  {
  }

  function MaxOf(s: seq<nat>): (m: nat)
    requires s != []
    ensures m in s && forall x :: x in s ==> x <= m
  {
    if |s| == 1 then s[0] else assert s == [s[0]] + s[1..]; var m := MaxOf(s[1..]); if s[0] > m then s[0] else m
  }

  function MinOf(s: seq<nat>): (m: nat)
    requires s != []
    ensures m in s && forall x :: x in s ==> m <= x
  {
    if |s| == 1 then s[0] else assert s == [s[0]] + s[1..]; var m := MinOf(s[1..]); if s[0] < m then s[0] else m
  }

  /** A list with fewer than two counts is skipped. */
  predicate Mismatch(counts: seq<nat>) { |counts| >= 2 && MaxOf(counts) > MinOf(counts) + 2 }

  lemma MismatchIff(counts: seq<nat>)
    ensures Mismatch(counts) <==> exists a: nat, b: nat :: a in counts && b in counts && a > b + 2
  {
    if |counts| >= 2 {
      assert MaxOf(counts) in counts && MinOf(counts) in counts;
    }
  }

  method AnyMismatch(groups: map<U32, seq<nat>>) returns (found: bool)
    ensures found <==> exists k :: k in groups && Mismatch(groups[k])
  {
    found := false;
    var rest := groups.Keys;
    while rest != {}
      invariant rest <= groups.Keys
      invariant found <==> exists k :: k in groups.Keys - rest && Mismatch(groups[k])
    {
      var k :| k in rest;
      if Mismatch(groups[k]) {
        found := true;
      }
      rest := rest - {k};
    }
  }

  method TotalLost(snaps: map<string, Snapshot>) returns (total: nat)
    ensures total == 0 <==> forall id :: id in snaps ==> snaps[id].totalLost == 0
  {
    total := 0;
    var rest := snaps.Keys;
    while rest != {}
      invariant rest <= snaps.Keys
      invariant total == 0 <==> forall id :: id in snaps.Keys - rest ==> snaps[id].totalLost == 0
    {
      var id :| id in rest;
      if snaps[id].totalLost > 0 {
        total := total + snaps[id].totalLost;
      }
      rest := rest - {id};
    }
  }

  /** On the pristine profile: passes iff someone reported, nothing was lost, and receivers of a stream agree to within two. */
  method EvalL113(snaps: map<string, Snapshot>, profile: string) returns (r: Outcome)
    ensures r == Skipped <==> profile != PRISTINE
    ensures r == Passed <==> profile == PRISTINE && FanoutIntact(snaps)
  {
    if profile != PRISTINE {
      return Skipped;
    }
    if snaps == map[] {
      return Failed;
    }
    var lost := TotalLost(snaps);
    if lost > 0 {
      return Failed;
    }
    var groups := GroupReceivers(snaps);
    var mismatch := AnyMismatch(groups);
    GroupsDecideAgreement(groups, snaps);
    r := if mismatch then Failed else Passed;
  }

  lemma GroupsDecideAgreement(groups: map<U32, seq<nat>>, snaps: map<string, Snapshot>)
    requires Lists(groups, snaps, snaps.Keys)
    ensures (exists k :: k in groups && Mismatch(groups[k])) <==> !CountsAgree(snaps)
  {
    forall k | k in groups ensures Mismatch(groups[k]) <==> exists a: nat, b: nat :: a in groups[k] && b in groups[k] && a > b + 2 {
      MismatchIff(groups[k]);
    }
    if k, a, b :| Heard(snaps, snaps.Keys, k, a) && Heard(snaps, snaps.Keys, k, b) && a > b + 2 {
      assert Listed(groups, k, a) && Listed(groups, k, b);
      assert Mismatch(groups[k]);
    }
    if k :| k in groups && Mismatch(groups[k]) {
      var a, b :| a in groups[k] && b in groups[k] && a > b + 2;
      assert Listed(groups, k, a) && Listed(groups, k, b);
      assert Heard(snaps, snaps.Keys, k, a) && Heard(snaps, snaps.Keys, k, b);
    }
  }
}
