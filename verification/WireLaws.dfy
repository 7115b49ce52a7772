/** Bytes on the wire, spelled out: what is read from a packet laid out by hand, and how built packets look. */
module WireLaws {
  import opened Bytes
  import opened RtcpObservers
  import opened RtpPublisher
  import opened RtpWire
  import opened CapReceiver
  import Mbcp

  // ---- Byte order ----

  /** Network order has the most significant byte first; a send time the least significant. */
  lemma ByteOrder(x: U16, y: U32, z: U64)
    ensures Be16(x)[0] as int * 0x100 + Be16(x)[1] as int == x
    ensures var b := Be32(y); |b| == 4 && b[0] as int * 0x100_0000 + b[1] as int * 0x1_0000 + b[2] as int * 0x100 + b[3] as int == y
    ensures var b := Le64(z);
            |b| == 8 && b[0] as int + b[1] as int * 0x100 + b[2] as int * 0x1_0000 + b[3] as int * 0x100_0000
              + (b[4] as int + b[5] as int * 0x100 + b[6] as int * 0x1_0000 + b[7] as int * 0x100_0000) * 0x1_0000_0000 == z
  {
    var lo, hi := z % 0x1_0000_0000, z / 0x1_0000_0000;
    assert Le64(z) == Le32(lo) + Le32(hi);
  }

  // ---- RTCP ----

  /** A sender report: packet type 200, then six 32-bit words; too short or of another type, it is none. */
  lemma SenderReportRead(first: Byte, length: U16, r: SrRecord, rest: seq<Byte>, other: seq<Byte>)
    requires |other| < 28 || other[1] != 200
    ensures SrOf([first, 200] + Be16(length) + Be32(r.ssrc) + Be32(r.ntpSec) + Be32(r.ntpFrac)
                 + Be32(r.rtpTs) + Be32(r.packetCount) + Be32(r.octetCount) + rest) == [r]
    ensures SrOf(other) == []
  {
    var head := [first, 200] + Be16(length);
    var tail := Be32(r.rtpTs) + Be32(r.packetCount) + Be32(r.octetCount) + rest;
    var f := head + Be32(r.ssrc) + Be32(r.ntpSec) + Be32(r.ntpFrac) + tail;
    ThreeWords(head, r.ssrc, r.ntpSec, r.ntpFrac, tail);
    ThreeWords(head + Be32(r.ssrc) + Be32(r.ntpSec) + Be32(r.ntpFrac), r.rtpTs, r.packetCount, r.octetCount, rest);
    Regrouped(head + Be32(r.ssrc) + Be32(r.ntpSec) + Be32(r.ntpFrac), Be32(r.rtpTs), Be32(r.packetCount), Be32(r.octetCount), rest);
    assert f[1] == head[1];
  }

  lemma Regrouped(h: seq<Byte>, a: seq<Byte>, b: seq<Byte>, c: seq<Byte>, d: seq<Byte>)
    ensures h + a + b + c + d == h + (a + b + c + d)
  {
  }

  lemma ThreeWords(head: seq<Byte>, a: U32, b: U32, c: U32, rest: seq<Byte>)
    ensures var f, n := head + Be32(a) + Be32(b) + Be32(c) + rest, |head|;
            ReadBe32(f, n) == a && ReadBe32(f, n + 4) == b && ReadBe32(f, n + 8) == c
  {
    var f, n := head + Be32(a) + Be32(b) + Be32(c) + rest, |head|;
    assert f[n..n + 4] == Be32(a) && f[n + 4..n + 8] == Be32(b) && f[n + 8..n + 12] == Be32(c);
    Be32At(f, n, a);
    Be32At(f, n + 4, b);
    Be32At(f, n + 8, c);
  }

  /** A receiver report: packet type 201, then the sender of the report. */
  lemma ReceiverReportRead(first: Byte, length: U16, sender: U32, rest: seq<Byte>, mine: U32)
    ensures FeedbackOf([first, 201] + Be16(length) + Be32(sender) + rest, mine) == [ReceiverReport(sender)]
  {
    var f := [first, 201] + Be16(length) + Be32(sender) + rest;
    assert f[4..8] == Be32(sender);
    Be32At(f, 4, sender);
  }

  /** Payload feedback, type 206: a picture loss for the media SSRC in the third word, if its format is 1 and it is mine. */
  lemma PictureLossRead(first: Byte, length: U16, sender: U32, media: U32, rest: seq<Byte>, mine: U32)
    ensures FeedbackOf([first, 206] + Be16(length) + Be32(sender) + Be32(media) + rest, mine)
         == if first % 32 == 1 && media == mine then [PictureLoss] else []
  {
    var f := [first, 206] + Be16(length) + Be32(sender) + Be32(media) + rest;
    assert f[8..12] == Be32(media);
    Be32At(f, 8, media);
  }

  /** Nothing else is feedback. */
  lemma NoOtherFeedback(f: seq<Byte>, mine: U32)
    requires |f| < 8 || (f[1] == 206 && |f| < 12) || (f[1] != 201 && f[1] != 206)
    ensures FeedbackOf(f, mine) == []
  {
  }

  // ---- MBCP ----

  /** An APP packet named MBCP: version 2, type 204, the length in words less one, the SSRC, the name, the data, zeros. */
  lemma MbcpLayout(subtype: Byte, ssrc: U32, data: Option<seq<Byte>>)
    ensures var p := Mbcp.Packet(subtype, ssrc, data);
            var d := if data.Some? then data.value else [];
            && |p| % 4 == 0 && 12 + |d| <= |p| < 16 + |d|
            && p[0] == 128 + subtype % 32 && p[1] == 204 && p[2..4] == Be16((|p| / 4 - 1) % 0x1_0000)
            && p[4..8] == Be32(ssrc) && p[8..12] == [0x4D, 0x42, 0x43, 0x50] && p[12..12 + |d|] == d
            && forall i :: 12 + |d| <= i < |p| ==> p[i] == 0
  {
    Mbcp.PacketFields(subtype, ssrc, data);
    DataAndPadding(Mbcp.Packet(subtype, ssrc, data), if data.Some? then data.value else []);
  }

  lemma DataAndPadding(p: seq<Byte>, d: seq<Byte>)
    requires |p| >= 12 && p[12..] == d + Zeros(Pad4(|d|))
    ensures |p| % 4 == 0 && 12 + |d| <= |p| < 16 + |d| && p[12..12 + |d|] == d
    ensures forall i :: 12 + |d| <= i < |p| ==> p[i] == 0
  {
    assert |p| == 12 + |d| + Pad4(|d|);
    assert forall i :: 12 <= i < |p| ==> p[i] == p[12..][i - 12];
  }

  /** Exactly those packets are taken for MBCP messages, with the low five bits of the first byte as subtype. */
  lemma MbcpAccepts(buf: seq<Byte>)
    ensures Mbcp.Parse(buf).Some? <==> |buf| >= 12 && buf[1] == 204 && buf[8..12] == [0x4D, 0x42, 0x43, 0x50]
    ensures Mbcp.Parse(buf).Some? ==> Mbcp.Parse(buf).value.subtype == buf[0] % 32
  {
  }

  // ---- RTP ----

  /** RTP is version 2, at least a header, and none of the payload types an RTCP packet would show. */
  lemma AcceptedIs(pkt: seq<Byte>)
    ensures Accepted(pkt) <==> |pkt| >= 12 && pkt[0] / 64 == 2 && (pkt[1] % 128 < 72 || 79 < pkt[1] % 128)
  {
  }

  /** Audio carries three bytes of silence; a video frame one descriptor byte and 800 or 200 bytes, all but the first zero. */
  lemma PayloadsAre(c: Config, sn: U16, ts: U32, key: bool)
    requires c.audioMid != [] && c.videoMid != []
    ensures var a, x := OpusPacket(c, sn, ts), MidExtension(c.midExtmapId, c.audioMid);
            |a| == 12 + |x| + 3 && a[12..12 + |x|] == x && a[12 + |x|..] == [0xF8, 0xFF, 0xFE]
    ensures var v, x := Vp8Packet(c, sn, ts, key), MidExtension(c.midExtmapId, c.videoMid);
            var at := 12 + |x|;
            && |v| == at + 1 + (if key then 800 else 200) && v[12..at] == x
            && v[at] == 0x10 && v[at + 1] == (if key then 0x10 else 0x11)
            && forall i :: at + 2 <= i < |v| ==> v[i] == 0
  {
    var a, x := OpusPacket(c, sn, ts), MidExtension(c.midExtmapId, c.audioMid);
    assert a[12 + |x|..] == OPUS_SILENCE;
  }

  /** Keyframes of any packet: behind the header, its CSRCs and, if there is one, its extension. */
  lemma KeyframeBehindHeader(head: seq<Byte>, csrcs: seq<Byte>, profile: seq<Byte>, extension: seq<Byte>,
                             descriptor: Byte, first: Byte, rest: seq<Byte>)
    requires |head| == 12 && |csrcs| == 4 * (head[0] % 16)
    requires |profile| == 2 && |extension| % 4 == 0 && |extension| / 4 < 0x1_0000
    ensures var payload := [descriptor, first] + rest;
            var x := if head[0] / 16 % 2 == 1 then profile + Be16(|extension| / 4) + extension else [];
            IsVp8Keyframe(head + csrcs + x + payload) <==> descriptor / 16 % 2 == 1 && first % 2 == 0
  {
    var x := if head[0] / 16 % 2 == 1 then profile + Be16(|extension| / 4) + extension else [];
    var pkt := head + csrcs + x + ([descriptor, first] + rest);
    var at := 12 + |csrcs|;
    assert pkt[0] == head[0];
    if head[0] / 16 % 2 == 1 {
      assert pkt[at + 2..at + 4] == Be16(|extension| / 4);
      Be16At(pkt, at + 2, |extension| / 4);
    }
    assert pkt[at + |x|] == descriptor && pkt[at + |x| + 1] == first;
  }

  // ---- The full-mode receiver ----

  /** How many datagrams are taken for RTP but do not decrypt. */
  function Undecryptable(trace: seq<Datagram>): nat
  {
    if trace == [] then 0
    else
      var d := trace[|trace| - 1];
      Undecryptable(trace[..|trace| - 1]) + if Accepted(d.pkt) && d.plain == None then 1 else 0
  }

  /** Each of those is counted once, and nothing else is. */
  lemma {:induction false} FailuresCounted(trace: seq<Datagram>)
    ensures HandleAll(Full, trace).decryptFail == Undecryptable(trace)
  {
    if trace != [] {
      FailuresCounted(trace[..|trace| - 1]);
    }
  }

  /**
   * A decrypted packet that ends in a send time adds the time it took, if it is not audio, was stamped, and took
   * more than nothing and less than ten seconds; and adds nothing otherwise.
   */
  lemma LatencyAppended(trace: seq<Datagram>, pkt: seq<Byte>, head: seq<Byte>, sentUs: U64, nowUs: U64)
    requires Accepted(pkt) && |head| >= 2
    ensures var before := HandleAll(Full, trace).latencies;
            HandleAll(Full, trace + [Datagram(pkt, Some(head + Le64(sentUs)), nowUs)]).latencies
              == if head[1] % 128 != 111 && sentUs > 0 && 0 < nowUs - sentUs < 10_000_000 then before + [nowUs - sentUs]
                 else before
  {
    var d := Datagram(pkt, Some(head + Le64(sentUs)), nowUs);
    assert (trace + [d])[..|trace|] == trace;
    var plain := head + Le64(sentUs);
    assert plain[|head|..|head| + 8] == Le64(sentUs);
    Le64At(plain, |head|, sentUs);
    assert plain[1] == head[1];
  }
}
