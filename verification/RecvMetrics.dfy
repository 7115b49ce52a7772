/** Wrapping 16-bit sequence arithmetic: what `wrapping_sub(..) as i16` computes. */
module Wrapping {
  import opened Bytes

  function WrapAdd16(a: U16, b: U16): U16 { (a + b) % 0x1_0000 }

  function WrapSub16(a: U16, b: U16): U16 { (a - b) % 0x1_0000 }

  function WrapSub32(a: U32, b: U32): U32 { (a - b) % 0x1_0000_0000 }

  function AsI16(x: U16): int { if x < 0x8000 then x else x - 0x1_0000 }

  function AsI32(x: U32): int { if x < 0x8000_0000 then x else x - 0x1_0000_0000 }

  /** How far `sn` lies beyond the successor of `last`, as the receivers compute it. */
  function SeqGap(sn: U16, last: U16): int
  {
    AsI16(WrapSub16(sn, WrapAdd16(last, 1)))
  }

  /** The wrapped gap is the true gap exactly when the true step fits the signed window. */
  lemma GapIsTrueGap(last: int, next: int)
    ensures SeqGap(next % 0x1_0000, last % 0x1_0000) == next - last - 1 <==> -32767 <= next - last <= 32768
  {
    WrappedGap(last, next);
  }

  lemma WrappedGap(last: int, next: int)
    ensures SeqGap(next % 0x1_0000, last % 0x1_0000) == AsI16((next - last - 1) % 0x1_0000)
  {
    var l, n := last % 0x1_0000, next % 0x1_0000;
    var e := WrapAdd16(l, 1);
    assert e == l + 1 || (l == 0xFFFF && e == 0);
    var ql, qn := last / 0x1_0000, next / 0x1_0000;
    assert last == ql * 0x1_0000 + l && next == qn * 0x1_0000 + n;
    assert (n - e) % 0x1_0000 == (next - last - 1) % 0x1_0000;
  }
}

/** Per-SSRC receive metrics and their store (rtp_subscriber.rs). */
module RecvMetrics {
  import opened Bytes
  import opened Wrapping
  import opened Sums

  /** One packet as the metrics see it; `now` is the arrival clock in seconds. */
  datatype Arrival = Arrival(sn: U16, ts: U32, now: real)

  datatype Packet = Packet(ssrc: U32, pt: Byte, arrival: Arrival)

  datatype Metrics = Metrics(
    ssrc: U32, pt: Byte, received: nat, lost: nat, outOfOrder: nat, jitter: real,
    lastSeq: U16, maxSeq: U16, firstSeq: U16, initialized: bool,
    lastArrival: real, lastTs: U32, clockRate: nat)

  type Table = map<U32, Metrics>

  const AUDIO_PT: Byte := 111

  function ClockRate(pt: Byte): nat { if pt == AUDIO_PT then 48_000 else 90_000 }

  function Fresh(ssrc: U32, pt: Byte, now: real): Metrics
  {
    Metrics(ssrc, pt, 0, 0, 0, 0.0, 0, 0, 0, false, now, 0, ClockRate(pt))
  }

  function Abs(x: real): real { if x < 0.0 then -x else x }

  function Ticks(elapsed: real, clockRate: nat): real
  {
    elapsed * 1000.0 * clockRate as real / 1000.0
  }

  /** |D| of RFC 3550 section 6.4.1: arrival spacing against timestamp spacing, in clock ticks. */
  function Deviation(clockRate: nat, lastArrival: real, lastTs: U32, a: Arrival): real
  {
    var elapsed := if a.now < lastArrival then 0.0 else a.now - lastArrival;
    Abs(Ticks(elapsed, clockRate) - WrapSub32(a.ts, lastTs) as real)
  }

  /** Loss, reordering and the highest sequence number, from the wrapped differences. */
  function CountGap(m: Metrics, sn: U16): Metrics
  {
    var gap := SeqGap(sn, m.lastSeq);
    m.(lost := if gap > 0 then m.lost + gap else m.lost,
       outOfOrder := if gap < -1 then m.outOfOrder + 1 else m.outOfOrder,
       maxSeq := if AsI16(WrapSub16(sn, m.maxSeq)) > 0 then sn else m.maxSeq)
  }

  function Smooth(jitter: real, d: real): real { jitter + (d - jitter) / 16.0 }

  function Step(m: Metrics, a: Arrival): Metrics
  {
    if !m.initialized then
      m.(received := m.received + 1, firstSeq := a.sn, lastSeq := a.sn, maxSeq := a.sn,
         lastArrival := a.now, lastTs := a.ts, initialized := true)
    else
      CountGap(m, a.sn).(
        received := m.received + 1, jitter := Smooth(m.jitter, Deviation(m.clockRate, m.lastArrival, m.lastTs, a)),
        lastSeq := a.sn, lastArrival := a.now, lastTs := a.ts)
  }

  function Run(m: Metrics, arrivals: seq<Arrival>): Metrics
  {
    if arrivals == [] then m
    else Step(Run(m, arrivals[..|arrivals| - 1]), arrivals[|arrivals| - 1])
  }

  /** One update's effect on the counters. */
  lemma StepCounts(m: Metrics, a: Arrival)
    ensures var r, gap := Step(m, a), SeqGap(a.sn, m.lastSeq);
            && r.initialized && r.lastSeq == a.sn && r.received == m.received + 1
            && r.lost == m.lost + (if m.initialized && gap > 0 then gap else 0)
            && r.outOfOrder == m.outOfOrder + (if m.initialized && gap < -1 then 1 else 0)
  {
  }

  class SsrcRecvMetrics {
    const ssrc: U32
    const pt: Byte
    var packetsReceived: nat
    var packetsLost: nat
    var outOfOrder: nat
    var jitter: real
    var lastSeq: U16
    var maxSeqSeen: U16
    var firstSeq: U16
    var initialized: bool
    var lastArrival: real
    var lastRtpTs: U32
    const clockRate: nat

    ghost function View(): Metrics
      reads this
    {
      Metrics(ssrc, pt, packetsReceived, packetsLost, outOfOrder, jitter,
              lastSeq, maxSeqSeen, firstSeq, initialized, lastArrival, lastRtpTs, clockRate)
    }

    constructor (ssrc: U32, pt: Byte, now: real)
      ensures View() == Fresh(ssrc, pt, now)
    {
      this.ssrc, this.pt := ssrc, pt;
      packetsReceived, packetsLost, outOfOrder, jitter := 0, 0, 0, 0.0;
      lastSeq, maxSeqSeen, firstSeq, initialized := 0, 0, 0, false;
      lastArrival, lastRtpTs := now, 0;
      clockRate := if pt == AUDIO_PT then 48_000 else 90_000;
    }

    method Clone() returns (m: Metrics)
      ensures m == View()
    {
      m := Metrics(ssrc, pt, packetsReceived, packetsLost, outOfOrder, jitter,
                   lastSeq, maxSeqSeen, firstSeq, initialized, lastArrival, lastRtpTs, clockRate);
    }

    method Update(sn: U16, ts: U32, now: real)
      modifies this
      ensures View() == Step(old(View()), Arrival(sn, ts, now))
    {
      packetsReceived := packetsReceived + 1;
      if !initialized {
        firstSeq, lastSeq, maxSeqSeen := sn, sn, sn;
        lastArrival, lastRtpTs, initialized := now, ts, true;
        return;
      }
      CountGapOf(sn);
      SmoothJitter(ts, now);
      lastSeq, lastArrival, lastRtpTs := sn, now, ts;
    }

    /** The sequence-gap part of an update. */
    method CountGapOf(sn: U16)
      modifies this`packetsLost, this`outOfOrder, this`maxSeqSeen
      ensures View() == CountGap(old(View()), sn)
    {
      var expected := WrapAdd16(lastSeq, 1);
      var diff := AsI16(WrapSub16(sn, expected));
      if diff > 0 {
        packetsLost := packetsLost + diff;
      } else if diff < -1 {
        outOfOrder := outOfOrder + 1;
      }
      var fwd := WrapSub16(sn, maxSeqSeen);
      if AsI16(fwd) > 0 {
        maxSeqSeen := sn;
      }
    }

    /** The interarrival-jitter part of an update. */
    method SmoothJitter(ts: U32, now: real)
      modifies this`jitter
      ensures jitter == Smooth(old(jitter), Deviation(clockRate, lastArrival, lastRtpTs, Arrival(0, ts, now)))
    {
      var elapsed := if now < lastArrival then 0.0 else now - lastArrival;
      var d := Abs(Ticks(elapsed, clockRate) - WrapSub32(ts, lastRtpTs) as real);
      jitter := Smooth(jitter, d);
    }
  }

  // ---- The store: one metrics record per SSRC ----

  function TableStep(t: Table, p: Packet): Table
  {
    var entry := if p.ssrc in t then t[p.ssrc] else Fresh(p.ssrc, p.pt, p.arrival.now);
    t[p.ssrc := Step(entry, p.arrival)]
  }

  function TableRun(t: Table, packets: seq<Packet>): Table
  {
    if packets == [] then t
    else TableStep(TableRun(t, packets[..|packets| - 1]), packets[|packets| - 1])
  }

  /** The three summed columns of a table. */
  function Received(t: Table): map<U32, nat> { map k | k in t :: t[k].received }

  function Lost(t: Table): map<U32, nat> { map k | k in t :: t[k].lost }

  function Reordered(t: Table): map<U32, nat> { map k | k in t :: t[k].outOfOrder }

  datatype Snapshot = Snapshot(
    totalPackets: nat, totalLost: nat, totalOutOfOrder: nat, ssrcCount: nat, streams: seq<Metrics>)

  class RecvMetricsStore {
    var inner: map<U32, SsrcRecvMetrics>
    ghost var table: Table

    /** `table` is the abstract value; entries are separate records, so no SSRC can touch another. */
    ghost predicate Valid()
      reads this, inner.Values
    {
      && inner.Keys == table.Keys
      && (forall k :: k in inner ==> inner[k].View() == table[k])
      && (forall a, b :: a in inner && b in inner && a != b ==> inner[a] != inner[b])
    }

    constructor ()
      ensures Valid() && table == map[] && inner == map[]
    {
      inner, table := map[], map[];
    }

    method Update(ssrc: U32, pt: Byte, sn: U16, ts: U32, now: real)
      requires Valid()
      modifies this, inner.Values
      ensures Valid() && fresh(inner.Values - old(inner.Values))
      ensures table == TableStep(old(table), Packet(ssrc, pt, Arrival(sn, ts, now)))
    {
      OrInsert(ssrc, pt, now);
      UpdateEntry(ssrc, Arrival(sn, ts, now));
    }

    /** The `entry.update(..)` half: only this SSRC's record changes. */
    method UpdateEntry(ssrc: U32, a: Arrival)
      requires Valid() && ssrc in inner
      modifies this`table, inner[ssrc]
      ensures Valid()
      ensures table == old(table)[ssrc := Step(old(table)[ssrc], a)]
    {
      inner[ssrc].Update(a.sn, a.ts, a.now);
      table := table[ssrc := Step(table[ssrc], a)];
    }

    /** The `entry(..).or_insert_with(..)` half of an update. */
    method OrInsert(ssrc: U32, pt: Byte, now: real)
      requires Valid()
      modifies this
      ensures Valid() && fresh(inner.Values - old(inner.Values))
      ensures table == if ssrc in old(table) then old(table) else old(table)[ssrc := Fresh(ssrc, pt, now)]
    {
      if ssrc !in inner {
        var created := new SsrcRecvMetrics(ssrc, pt, now);
        inner := inner[ssrc := created];
        table := table[ssrc := Fresh(ssrc, pt, now)];
      }
    }

    /** The streams come out in whatever order the hash map yields them; the totals do not depend on it. */
    method TakeSnapshot() returns (s: Snapshot)
      requires Valid()
      ensures Summarises(s, table)
    {
      s := Snapshot(0, 0, 0, 0, []);
      ghost var part: Table := map[];
      var rest := inner.Keys;
      while rest != {}
        invariant rest <= inner.Keys && part == table - rest
        invariant Summarises(s, part)
      {
        var k :| k in rest;
        var m := inner[k].Clone();
        SummaryGrows(s, part, k, m);
        KeepOneMore(table, rest, k);
        s := WithStream(s, m);
        part, rest := part[k := m], rest - {k};
      }
      KeepAll(table);
    }
  }

  function WithStream(s: Snapshot, m: Metrics): Snapshot
  {
    Snapshot(s.totalPackets + m.received, s.totalLost + m.lost, s.totalOutOfOrder + m.outOfOrder,
             s.ssrcCount + 1, s.streams + [m])
  }

  /** The totals are the column sums and the streams list every record once. */
  ghost predicate Summarises(s: Snapshot, t: Table)
  {
    && s.totalPackets == Total(Received(t))
    && s.totalLost == Total(Lost(t))
    && s.totalOutOfOrder == Total(Reordered(t))
    && s.ssrcCount == |s.streams| == |t|
    && forall m :: m in s.streams <==> m in t.Values
  }

  lemma SummaryGrows(s: Snapshot, t: Table, k: U32, m: Metrics)
    requires k !in t && Summarises(s, t)
    ensures Summarises(WithStream(s, m), t[k := m])
  {
    ColumnsPut(t, k, m);
    ValuesGrow(t, k, m);
  }

  /** Replacing or adding one record moves each total by that record's change. */
  lemma ColumnsPut(t: Table, k: U32, m: Metrics)
    ensures Total(Received(t[k := m])) == Total(Received(t)) - (if k in t then t[k].received else 0) + m.received
    ensures Total(Lost(t[k := m])) == Total(Lost(t)) - (if k in t then t[k].lost else 0) + m.lost
    ensures Total(Reordered(t[k := m])) == Total(Reordered(t)) - (if k in t then t[k].outOfOrder else 0) + m.outOfOrder
  {
    PutEachColumn(t, k, m);
    TotalPut(Received(t), k, m.received);
    TotalPut(Lost(t), k, m.lost);
    TotalPut(Reordered(t), k, m.outOfOrder);
  }

  lemma PutEachColumn(t: Table, k: U32, m: Metrics)
    ensures Received(t[k := m]) == Received(t)[k := m.received]
    ensures Lost(t[k := m]) == Lost(t)[k := m.lost]
    ensures Reordered(t[k := m]) == Reordered(t)[k := m.outOfOrder]
  {
  }

  lemma ValuesGrow(t: Table, k: U32, m: Metrics)
    requires k !in t
    ensures t[k := m].Values == t.Values + {m}
  {
    var u := t[k := m];
    assert u[k] == m;
    forall v | v in t.Values ensures v in u.Values {
      var j :| j in t && t[j] == v;
      assert u[j] == v;
    }
  }
}
