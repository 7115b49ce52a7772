/** The capacity bot's receiver: loss from plaintext headers, decryption optional (cap.rs). */
module CapReceiver {
  import opened Bytes
  import opened Wrapping
  import opened Sums
  import opened RecvMetrics

  datatype RtpMini = RtpMini(pt: Byte, sn: U16, ts: U32, ssrc: U32, marker: bool)

  /** `parse_rtp_mini` (rtp_subscriber.rs). */
  function ParseRtpMini(pkt: seq<Byte>): Option<RtpMini>
  {
    if |pkt| < 12 then None
    else Some(RtpMini(pkt[1] % 0x80, ReadBe16(pkt, 2), ReadBe32(pkt, 4), ReadBe32(pkt, 8), pkt[1] >= 0x80))
  }

  predicate IsRtp(b: Byte) { 0x80 <= b <= 0xBF }

  /** RTP proper: long enough, version 2, and not an RTCP type folded into the 7-bit range. */
  predicate Accepted(pkt: seq<Byte>)
  {
    |pkt| >= 12 && IsRtp(pkt[0]) && !(72 <= pkt[1] % 0x80 <= 79)
  }

  datatype RecvMode = Count | Full

  /** One datagram, what SRTP decryption would yield for it, and the clock in microseconds. */
  datatype Datagram = Datagram(pkt: seq<Byte>, plain: Option<seq<Byte>>, nowUs: U64)

  datatype Counters = Counters(
    rxPackets: nat, rxBytes: nat, rxLost: nat, decryptFail: nat, lastSeq: map<U32, U16>, latencies: seq<nat>)

  const NO_TRAFFIC := Counters(0, 0, 0, 0, map[], [])

  const MAX_LATENCY_US := 10_000_000

  /** The latency sample, if any, of a decrypted packet. */
  function Sample(plain: seq<Byte>, nowUs: U64): Option<nat>
  {
    var pt := if |plain| > 1 then plain[1] % 0x80 else 0;
    if pt == AUDIO_PT || |plain| < 8 then None
    else
      var sent := ReadLe64(plain, |plain| - 8);
      if sent > 0 && 0 < nowUs - sent < MAX_LATENCY_US then Some(nowUs - sent) else None
  }

  function CountDatagram(c: Counters, pkt: seq<Byte>): Counters
    requires Accepted(pkt)
  {
    var sn, ssrc := ReadBe16(pkt, 2), ReadBe32(pkt, 8);
    var gap := if ssrc in c.lastSeq then SeqGap(sn, c.lastSeq[ssrc]) else 0;
    c.(rxPackets := c.rxPackets + 1, rxBytes := c.rxBytes + |pkt|,
       rxLost := if gap > 0 then c.rxLost + gap else c.rxLost, lastSeq := c.lastSeq[ssrc := sn])
  }

  function Handle(c: Counters, mode: RecvMode, d: Datagram): Counters
  {
    if !Accepted(d.pkt) then c
    else
      var counted := CountDatagram(c, d.pkt);
      if mode.Count? then counted
      else if d.plain.None? then counted.(decryptFail := c.decryptFail + 1)
      else match Sample(d.plain.value, d.nowUs)
        case Some(lat) => counted.(latencies := c.latencies + [lat])
        case None => counted
  }

  function HandleAll(mode: RecvMode, trace: seq<Datagram>): Counters
  {
    if trace == [] then NO_TRAFFIC
    else Handle(HandleAll(mode, trace[..|trace| - 1]), mode, trace[|trace| - 1])
  }

  class CapSubscriber {
    var rxPackets: nat
    var rxBytes: nat
    var rxLost: nat
    var rxDecryptFail: nat
    var lastSeq: map<U32, U16>
    var localLat: seq<nat>

    ghost function View(): Counters
      reads this
    {
      Counters(rxPackets, rxBytes, rxLost, rxDecryptFail, lastSeq, localLat)
    }

    constructor ()
      ensures View() == NO_TRAFFIC
    {
      rxPackets, rxBytes, rxLost, rxDecryptFail, lastSeq, localLat := 0, 0, 0, 0, map[], [];
    }

    method HandleRtp(pkt: seq<Byte>, mode: RecvMode, plain: Option<seq<Byte>>, nowUs: U64) returns (counted: bool)
      modifies this
      ensures View() == Handle(old(View()), mode, Datagram(pkt, plain, nowUs))
      ensures counted == Accepted(pkt)
    {
      if |pkt| < 12 || !IsRtp(pkt[0]) {
        return false;
      }
      var pt := pkt[1] % 0x80;
      if 72 <= pt <= 79 {
        return false;
      }
      CountHeader(pkt);
      if mode == Full {
        match plain
        case Some(p) => PushLatency(p, nowUs);
        case None => rxDecryptFail := rxDecryptFail + 1;
      }
      return true;
    }

    /** The decrypt-free half: packet, byte and sequence-gap counts from the 12-byte header. */
    method CountHeader(pkt: seq<Byte>)
      requires Accepted(pkt)
      modifies this`rxPackets, this`rxBytes, this`rxLost, this`lastSeq
      ensures View() == CountDatagram(old(View()), pkt)
    {
      var sn, ssrc := ReadBe16(pkt, 2), ReadBe32(pkt, 8);
      rxPackets, rxBytes := rxPackets + 1, rxBytes + |pkt|;
      if ssrc in lastSeq {
        var expected := WrapAdd16(lastSeq[ssrc], 1);
        var diff := AsI16(WrapSub16(sn, expected));
        if diff > 0 {
          rxLost := rxLost + diff;
        }
      }
      lastSeq := lastSeq[ssrc := sn];
    }

    /** The full-decryption half: read the embedded send time and keep a sane latency. */
    method PushLatency(plain: seq<Byte>, nowUs: U64)
      modifies this`localLat
      ensures localLat == match Sample(plain, nowUs) case Some(lat) => old(localLat) + [lat] case None => old(localLat)
    {
      var vpt := if |plain| > 1 then plain[1] % 0x80 else 0;
      if vpt != AUDIO_PT && |plain| >= 8 {
        var sent := ReadLe64(plain, |plain| - 8);
        if sent > 0 {
          var lat := if nowUs < sent then 0 else nowUs - sent;
          if 0 < lat < MAX_LATENCY_US {
            localLat := localLat + [lat];
          }
        }
      }
    }
  }

  // ---- The cheap receiver refines the full metrics ----

  /** The packet the metrics store is fed for an accepted datagram. */
  function ToPacket(d: Datagram): Packet
    requires Accepted(d.pkt)
  {
    var h := ParseRtpMini(d.pkt).value;
    Packet(h.ssrc, h.pt, Arrival(h.sn, h.ts, d.nowUs as real / 1_000_000.0))
  }

  function Feed(trace: seq<Datagram>): seq<Packet>
  {
    if trace == [] then []
    else
      var d := trace[|trace| - 1];
      Feed(trace[..|trace| - 1]) + if Accepted(d.pkt) then [ToPacket(d)] else []
  }

  function WireBytes(trace: seq<Datagram>): nat
  {
    if trace == [] then 0
    else
      var d := trace[|trace| - 1];
      WireBytes(trace[..|trace| - 1]) + if Accepted(d.pkt) then |d.pkt| else 0
  }

  /** What the two receivers must agree on. */
  ghost predicate Agrees(c: Counters, t: Table)
  {
    && c.rxPackets == Total(Received(t))
    && c.rxLost == Total(Lost(t))
    && c.lastSeq == LastSeqs(t)
    && forall k :: k in t ==> t[k].initialized
  }

  function LastSeqs(t: Table): map<U32, U16> { map k | k in t :: t[k].lastSeq }

  /** For any trace of datagrams and either mode, header-only counting gives the totals of the full store. */
  lemma {:induction false} DecryptFreeCountingRefinesMetrics(mode: RecvMode, trace: seq<Datagram>)
    ensures Agrees(HandleAll(mode, trace), TableRun(map[], Feed(trace)))
    ensures HandleAll(mode, trace).rxPackets == |Feed(trace)| && HandleAll(mode, trace).rxBytes == WireBytes(trace)
  {
    if trace != [] {
      var n := |trace| - 1;
      var d, before := trace[n], trace[..n];
      DecryptFreeCountingRefinesMetrics(mode, before);
      var fed := Feed(before);
      if Accepted(d.pkt) {
        var p := ToPacket(d);
        assert Feed(trace) == fed + [p] && (fed + [p])[..|fed|] == fed;
        AgreementStep(HandleAll(mode, before), TableRun(map[], fed), d);
        HandleCounts(HandleAll(mode, before), mode, d);
      } else {
        assert Feed(trace) == fed;
      }
    }
  }

  lemma HandleCounts(c: Counters, mode: RecvMode, d: Datagram)
    requires Accepted(d.pkt)
    ensures var r, s := Handle(c, mode, d), CountDatagram(c, d.pkt);
            r.rxPackets == s.rxPackets && r.rxBytes == s.rxBytes && r.rxLost == s.rxLost && r.lastSeq == s.lastSeq
  {
  }

  lemma AgreementStep(c: Counters, t: Table, d: Datagram)
    requires Accepted(d.pkt) && Agrees(c, t)
    ensures Agrees(CountDatagram(c, d.pkt), TableStep(t, ToPacket(d)))
  {
    var p := ToPacket(d);
    var e := if p.ssrc in t then t[p.ssrc] else Fresh(p.ssrc, p.pt, p.arrival.now);
    StepCounts(e, p.arrival);
    AgreementPut(c, t, p.ssrc, Step(e, p.arrival), CountDatagram(c, d.pkt));
  }

  lemma AgreementPut(c: Counters, t: Table, k: U32, m: Metrics, c': Counters)
    requires Agrees(c, t) && m.initialized
    requires c'.rxPackets == c.rxPackets + 1 && m.received == (if k in t then t[k].received else 0) + 1
    requires c'.rxLost - c.rxLost == m.lost - if k in t then t[k].lost else 0
    requires c'.lastSeq == c.lastSeq[k := m.lastSeq]
    ensures Agrees(c', t[k := m])
  {
    ColumnsPut(t, k, m);
    LastSeqsPut(t, k, m);
  }

  lemma LastSeqsPut(t: Table, k: U32, m: Metrics)
    ensures LastSeqs(t[k := m]) == LastSeqs(t)[k := m.lastSeq]
  {
  }

  /** Skipping decryption loses nothing but latency: every count is the same in both modes. */
  lemma {:induction false} ModesAgree(trace: seq<Datagram>)
    ensures HandleAll(Count, trace) == HandleAll(Full, trace).(decryptFail := 0, latencies := [])
  {
    if trace != [] {
      ModesAgree(trace[..|trace| - 1]);
    }
  }
}
