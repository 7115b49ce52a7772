/** What the receivers read back out of the publisher's packets. */
module RtpWire {
  import opened Bytes
  import opened RtpPublisher
  import opened CapReceiver
  import RecvMetrics

  // ---- Keyframe detection (rtcp_parser.rs) ----

  /** Where the payload starts: fixed header, CSRCs, then the extension block if X is set. */
  function PayloadOffset(pkt: seq<Byte>): Option<nat>
  {
    if |pkt| < 14 then None
    else
      var afterCsrc := 12 + pkt[0] % 0x10 * 4;
      if pkt[0] / 0x10 % 2 == 0 then Some(afterCsrc)
      else if |pkt| < afterCsrc + 4 then None
      else Some(afterCsrc + 4 + ReadBe16(pkt, afterCsrc + 2) * 4)
  }

  /** S=1 in the payload descriptor, and the inverse-key-frame bit of the next byte clear (section 4 of RFC 7741). */
  predicate IsVp8Keyframe(pkt: seq<Byte>)
  {
    match PayloadOffset(pkt)
    case None => false
    case Some(at) => at + 1 < |pkt| && pkt[at] / 0x10 % 2 == 1 && pkt[at + 1] % 2 == 0
  }

  method DetectVp8Keyframe(pkt: seq<Byte>) returns (key: bool)
    ensures key == IsVp8Keyframe(pkt)
  {
    if |pkt| < 14 {
      return false;
    }
    var offset: nat := 12 + pkt[0] as int % 0x10 * 4;
    if pkt[0] / 0x10 % 2 == 1 {
      if |pkt| < offset + 4 {
        return false;
      }
      var extLen: nat := ReadBe16(pkt, offset + 2);
      offset := offset + 4 + extLen * 4;
    }
    if |pkt| <= offset + 1 {
      return false;
    }
    var sBit := pkt[offset] / 0x10 % 2 == 1;
    if !sBit {
      return false;
    }
    return pkt[offset + 1] % 2 == 0;
  }

  // ---- Layout of a built packet ----

  lemma HeaderFields(second: Byte, sn: U16, ts: U32, ssrc: U32, rest: seq<Byte>)
    ensures var pkt := FixedHeader(second, sn, ts, ssrc) + rest;
            && ParseRtpMini(pkt) == Some(RtpMini(second % 0x80, sn, ts, ssrc, second >= 0x80))
            && pkt[0] == 0x90 && pkt[1] == second
  {
    var h := FixedHeader(second, sn, ts, ssrc);
    var pkt := h + rest;
    assert pkt[2..4] == h[2..4] == Be16(sn);
    assert pkt[4..8] == h[4..8] == Be32(ts);
    assert pkt[8..12] == h[8..12] == Be32(ssrc);
    Be16At(pkt, 2, sn);
    Be32At(pkt, 4, ts);
    Be32At(pkt, 8, ssrc);
  }

  /** The extension length field is right for any MID whose block has fewer than 65536 words. */
  lemma ExtensionSkipped(c: Config, second: Byte, sn: U16, ts: U32, mid: seq<Byte>, payload: seq<Byte>)
    requires mid != [] && MidExtensionWords(mid) < 0x1_0000
    ensures var head := FixedHeader(second, sn, ts, c.videoSsrc) + MidExtension(c.midExtmapId, mid);
            PayloadOffset(head + payload) == Some(|head|)
  {
    var h, x := FixedHeader(second, sn, ts, c.videoSsrc), MidExtension(c.midExtmapId, mid);
    var pkt, words := h + x + payload, MidExtensionWords(mid);
    ExtensionLength(c.midExtmapId, mid);
    assert pkt[14..16] == x[2..4];
    Be16At(pkt, 14, words);
    assert pkt[0] == h[0];
  }

  lemma ExtensionLength(id: Byte, mid: seq<Byte>)
    requires MidFits(mid)
    ensures MidExtension(id, mid)[2..4] == Be16(MidExtensionWords(mid))
  {
  }

  predicate MidFits(mid: seq<Byte>) { mid != [] && MidExtensionWords(mid) < 0x1_0000 }

  // ---- Audio ----

  lemma OpusRoundTrip(c: Config, sn: U16, ts: U32)
    requires c.audioMid != []
    ensures ParseRtpMini(OpusPacket(c, sn, ts)) == Some(RtpMini(OPUS_PT, sn, ts, c.audioSsrc, false))
    ensures Accepted(OpusPacket(c, sn, ts))
  {
    var rest := MidExtension(c.midExtmapId, c.audioMid) + OPUS_SILENCE;
    HeaderFields(OPUS_PT, sn, ts, c.audioSsrc, rest);
    assert OpusPacket(c, sn, ts) == FixedHeader(OPUS_PT, sn, ts, c.audioSsrc) + rest;
  }

  // ---- Video, with or without an embedded send time ----

  lemma Vp8Layout(c: Config, sn: U16, ts: U32, key: bool)
    requires c.videoMid != []
    ensures var second := WithMarker(c.videoPt, key);
            var rest := MidExtension(c.midExtmapId, c.videoMid) + Vp8Payload(key);
            Vp8Packet(c, sn, ts, key) == FixedHeader(second, sn, ts, c.videoSsrc) + rest
  {
  }

  /** The send time overwrites payload filler only. */
  lemma SendTimeSparesHead(pkt: seq<Byte>, nowUs: U64, i: nat)
    requires i + 8 < |pkt|
    ensures WithSendTime(pkt, nowUs)[i] == pkt[i] && |WithSendTime(pkt, nowUs)| == |pkt|
  {
  }

  /** Every header field comes back, and the keyframe bit is exactly the builder's decision. */
  lemma Vp8RoundTrip(c: Config, sn: U16, ts: U32, key: bool)
    requires MidFits(c.videoMid)
    ensures var pkt := Vp8Packet(c, sn, ts, key);
            && ParseRtpMini(pkt) == Some(RtpMini(c.videoPt % 0x80, sn, ts, c.videoSsrc, key || c.videoPt >= 0x80))
            && (Accepted(pkt) <==> !(72 <= c.videoPt % 0x80 <= 79))
            && IsVp8Keyframe(pkt) == key
  {
    var second := WithMarker(c.videoPt, key);
    var rest := MidExtension(c.midExtmapId, c.videoMid) + Vp8Payload(key);
    HeaderFields(second, sn, ts, c.videoSsrc, rest);
    Vp8Layout(c, sn, ts, key);
    ExtensionSkipped(c, second, sn, ts, c.videoMid, Vp8Payload(key));
  }

  /** The same after the send time is embedded. */
  lemma SendTimePreservesReading(c: Config, sn: U16, ts: U32, key: bool, nowUs: U64)
    requires MidFits(c.videoMid)
    ensures var pkt := Vp8Packet(c, sn, ts, key);
            var sent := WithSendTime(pkt, nowUs);
            ParseRtpMini(sent) == ParseRtpMini(pkt) && Accepted(sent) == Accepted(pkt) && IsVp8Keyframe(sent) == key
  {
    var pkt := Vp8Packet(c, sn, ts, key);
    var sent := WithSendTime(pkt, nowUs);
    var second := WithMarker(c.videoPt, key);
    var at := 12 + |MidExtension(c.midExtmapId, c.videoMid)|;
    Vp8RoundTrip(c, sn, ts, key);
    Vp8Layout(c, sn, ts, key);
    ExtensionSkipped(c, second, sn, ts, c.videoMid, Vp8Payload(key));
    assert |pkt| == at + |Vp8Payload(key)|;
    assert sent[..at + 2] == pkt[..at + 2];
    SameHead(pkt, sent, at + 2);
  }

  /** The mini header depends on the first twelve bytes only. */
  lemma SameFixedHeader(a: seq<Byte>, b: seq<Byte>)
    requires |a| >= 12 && |b| >= 12 && a[..12] == b[..12]
    ensures ParseRtpMini(a) == ParseRtpMini(b) && Accepted(a) == Accepted(b)
  {
    var h := a[..12];
    assert h[0] == a[0] == b[0] && h[1] == a[1] == b[1] && h[2] == a[2] == b[2] && h[3] == a[3] == b[3];
    assert a[4..8] == h[4..8] == b[4..8] && a[8..12] == h[8..12] == b[8..12];
    ReadBeSame(a, 4, b, 4, 4);
    ReadBeSame(a, 8, b, 8, 4);
  }

  lemma SameHead(a: seq<Byte>, b: seq<Byte>, n: nat)
    requires 16 <= n <= |a| == |b| && a[..n] == b[..n]
    requires PayloadOffset(a).Some? && PayloadOffset(a).value + 2 == n && a[0] == 0x90
    ensures ParseRtpMini(a) == ParseRtpMini(b) && Accepted(a) == Accepted(b)
    ensures IsVp8Keyframe(a) == IsVp8Keyframe(b)
  {
    assert a[..12] == a[..n][..12] == b[..n][..12] == b[..12];
    SameFixedHeader(a, b);
    forall i | 0 <= i < n ensures a[i] == b[i] {
      assert a[..n][i] == b[..n][i];
    }
  }

  /** The latency sampled for a packet is the clock difference, exactly when it is sane and the stream is not audio. */
  lemma SampledLatencyIsElapsed(c: Config, sn: U16, ts: U32, key: bool, sentUs: U64, nowUs: U64)
    requires c.videoMid != []
    ensures Sample(WithSendTime(Vp8Packet(c, sn, ts, key), sentUs), nowUs)
         == if c.videoPt % 0x80 != RecvMetrics.AUDIO_PT && sentUs > 0 && 0 < nowUs - sentUs < MAX_LATENCY_US
            then Some(nowUs - sentUs) else None
  {
    var pkt := Vp8Packet(c, sn, ts, key);
    var sent := WithSendTime(pkt, sentUs);
    Vp8Layout(c, sn, ts, key);
    SendTimeSparesHead(pkt, sentUs, 1);
    SendTimeReadsBack(pkt, sentUs);
  }

  lemma SendTimeReadsBack(pkt: seq<Byte>, sentUs: U64)
    requires |pkt| >= 8
    ensures ReadLe64(WithSendTime(pkt, sentUs), |pkt| - 8) == sentUs
  {
    var sent := WithSendTime(pkt, sentUs);
    assert sent[|pkt| - 8..|pkt| - 8 + 8] == Le64(sentUs);
    Le64At(sent, |pkt| - 8, sentUs);
  }

  // ---- The MID, read as section 4.2 of RFC 8285 prescribes ----

  datatype Element = Element(id: nat, data: seq<Byte>)

  /** One-byte-header elements: zero bytes pad; ID 15, any other byte with ID 0 and a truncated element end the walk. */
  function Elements(x: seq<Byte>): seq<Element>
  {
    if x == [] || x[0] / 0x10 == 15 || 0 < x[0] < 0x10 then []
    else if x[0] == 0 then Elements(x[1..])
    else
      var len := x[0] % 0x10 + 1;
      if |x| < 1 + len then [] else [Element(x[0] / 0x10, x[1..1 + len])] + Elements(x[1 + len..])
  }

  lemma {:induction false} PaddingHoldsNoElements(n: nat)
    ensures Elements(Zeros(n)) == []
  {
    if n > 0 {
      assert Zeros(n)[1..] == Zeros(n - 1);
      PaddingHoldsNoElements(n - 1);
    }
  }

  /** For 1 to 16 bytes and IDs 1 to 14 the block carries exactly one element, the MID. */
  lemma MidRoundTrip(id: Byte, mid: seq<Byte>)
    requires 1 <= |mid| <= 16 && 1 <= id <= 14
    ensures var x := MidExtension(id, mid);
            && x[..2] == [0xBE, 0xDE] && 4 + ReadBe16(x, 2) * 4 == |x|
            && Elements(x[4..]) == [Element(id, mid)]
  {
    var x, words := MidExtension(id, mid), MidExtensionWords(mid);
    assert x[2..4] == Be16(words);
    Be16At(x, 2, words);
    var pad := words * 4 - 1 - |mid|;
    var h := ElementHeader(id, |mid|);
    ExtensionBody(id, mid, h);
    OneElement(h, id, mid, pad);
  }

  lemma ExtensionBody(id: Byte, mid: seq<Byte>, h: Byte)
    requires mid != [] && h == id % 0x10 * 0x10 + (|mid| - 1) % 0x10
    ensures MidExtension(id, mid)[4..] == [h] + mid + Zeros(MidExtensionWords(mid) * 4 - 1 - |mid|)
  {
  }

  function ElementHeader(id: Byte, len: nat): (h: Byte)
    requires 1 <= len <= 16 && 1 <= id <= 14
    ensures h / 0x10 == id && h % 0x10 == len - 1 && h == id % 0x10 * 0x10 + (len - 1) % 0x10
  {
    id * 0x10 + (len - 1)
  }

  lemma OneElement(h: Byte, id: Byte, mid: seq<Byte>, pad: nat)
    requires 1 <= |mid| <= 16 && 1 <= id <= 14 && h / 0x10 == id && h % 0x10 == |mid| - 1
    ensures Elements([h] + mid + Zeros(pad)) == [Element(id, mid)]
  {
    var body := [h] + mid + Zeros(pad);
    FirstElement(body, id, |mid|);
    assert body[1..1 + |mid|] == mid && body[1 + |mid|..] == Zeros(pad);
    PaddingHoldsNoElements(pad);
  }

  lemma FirstElement(x: seq<Byte>, id: nat, len: nat)
    requires 1 <= id <= 14 && 1 + len <= |x| && x[0] / 0x10 == id && x[0] % 0x10 + 1 == len
    ensures Elements(x) == [Element(id, x[1..1 + len])] + Elements(x[1 + len..])
  {
  }

  /** Whatever the bytes, a reader only ever sees IDs 1 to 14 and at most 16 bytes of data. */
  lemma {:induction false} ElementsAreShort(x: seq<Byte>)
    ensures forall e :: e in Elements(x) ==> 1 <= e.id <= 14 && |e.data| <= 16
    decreases |x|
  {
    if x != [] {
      ElementsAreShort(x[1..]);
      var len := x[0] % 0x10 + 1;
      if 1 + len <= |x| {
        ElementsAreShort(x[1 + len..]);
      }
    }
  }

  /** The writer truncates a longer MID or another ID to four bits; exactly then the reader does not get the MID back. */
  lemma MidReadsBackIff(id: Byte, mid: seq<Byte>)
    requires mid != []
    ensures Elements(MidExtension(id, mid)[4..]) == [Element(id, mid)] <==> |mid| <= 16 && 1 <= id <= 14
  {
    if |mid| <= 16 && 1 <= id <= 14 {
      MidRoundTrip(id, mid);
    } else {
      ElementsAreShort(MidExtension(id, mid)[4..]);
      assert Element(id, mid) in [Element(id, mid)];
    }
  }
}

/** Keyframe cadence over any interleaving of frames and keyframe requests. */
module Keyframes {
  import opened Bytes
  import opened RtpPublisher
  import opened Wrapping

  datatype Event = Request | Frame

  datatype FrameInfo = FrameInfo(key: bool, sn: U16, ts: U32)

  function FrameCount(events: seq<Event>): nat
  {
    if events == [] then 0
    else FrameCount(events[..|events| - 1]) + if events[|events| - 1].Frame? then 1 else 0
  }

  function Play(p: Publisher, events: seq<Event>): Publisher
    requires p.frameCount == 0 && FrameCount(events) < 0x1_0000_0000
    ensures Play(p, events).frameCount == FrameCount(events)
  {
    if events == [] then p
    else
      var q := Play(p, events[..|events| - 1]);
      if events[|events| - 1].Request? then q.(forced := true) else AfterVp8(q)
  }

  /** What each frame of the run looks like on the wire. */
  function Frames(p: Publisher, events: seq<Event>): seq<FrameInfo>
    requires p.frameCount == 0 && FrameCount(events) < 0x1_0000_0000
  {
    if events == [] then []
    else
      var before := events[..|events| - 1];
      var q := Play(p, before);
      Frames(p, before)
      + if events[|events| - 1].Request? then [] else [FrameInfo(IsKeyframe(q), q.videoSeq, q.videoTs)]
  }

  /** Whether a request has come since the last frame. */
  predicate Pending(events: seq<Event>)
  {
    events != [] && events[|events| - 1].Request?
  }

  /** Whether the k-th frame came straight after a pending request. */
  function RequestedAt(events: seq<Event>): seq<bool>
  {
    if events == [] then []
    else
      var before := events[..|events| - 1];
      RequestedAt(before) + if events[|events| - 1].Request? then [] else [Pending(before)]
  }

  lemma {:induction false} PublisherAfter(events: seq<Event>)
    requires FrameCount(events) < 0x1_0000_0000
    ensures Play(NEW_PUBLISHER, events)
         == NEW_PUBLISHER.(forced := Pending(events), frameCount := FrameCount(events),
                          videoSeq := FrameCount(events) % 0x1_0000, videoTs := TimestampOf(FrameCount(events)))
  {
    if events != [] {
      var before := events[..|events| - 1];
      PublisherAfter(before);
      TimestampAdvances(FrameCount(before));
    }
  }

  function TimestampOf(k: nat): U32 { 3000 * k % 0x1_0000_0000 }

  lemma TimestampAdvances(k: nat)
    ensures (TimestampOf(k) + VP8_TICKS_PER_FRAME) % 0x1_0000_0000 == TimestampOf(k + 1)
    ensures WrapAdd16(k % 0x1_0000, 1) == (k + 1) % 0x1_0000
  {
    var q, r := 3000 * k / 0x1_0000_0000, TimestampOf(k);
    assert 3000 * (k + 1) == q * 0x1_0000_0000 + (r + 3000);
    if r + 3000 < 0x1_0000_0000 {
      Quotient(3000 * (k + 1), q, r + 3000);
    } else {
      Quotient(3000 * (k + 1), q + 1, r + 3000 - 0x1_0000_0000);
    }
  }

  lemma Quotient(n: nat, q: nat, r: nat)
    requires n == q * 0x1_0000_0000 + r && r < 0x1_0000_0000
    ensures n % 0x1_0000_0000 == r
  {
  }

  /** Frame k is a keyframe iff a request was pending or k is a multiple of 60; seq and timestamp count frames. */
  lemma {:induction false} KeyframeCadence(events: seq<Event>, k: nat)
    requires FrameCount(events) < 0x1_0000_0000 && k < FrameCount(events)
    ensures |Frames(NEW_PUBLISHER, events)| == |RequestedAt(events)| == FrameCount(events)
    ensures Frames(NEW_PUBLISHER, events)[k]
         == FrameInfo(RequestedAt(events)[k] || k % 60 == 0, k % 0x1_0000, TimestampOf(k))
  {
    var before := events[..|events| - 1];
    PublisherAfter(before);
    if k < FrameCount(before) {
      KeyframeCadence(before, k);
    } else {
      FrameLists(before);
    }
  }

  lemma {:induction false} FrameLists(events: seq<Event>)
    requires FrameCount(events) < 0x1_0000_0000
    ensures |Frames(NEW_PUBLISHER, events)| == |RequestedAt(events)| == FrameCount(events)
  {
    if events != [] {
      FrameLists(events[..|events| - 1]);
    }
  }

  /** Any 60 consecutive frames contain a keyframe. */
  lemma KeyframeInEverySixty(events: seq<Event>, first: nat)
    requires FrameCount(events) < 0x1_0000_0000 && first + 60 <= FrameCount(events)
    ensures |Frames(NEW_PUBLISHER, events)| == FrameCount(events)
    ensures exists k :: first <= k < first + 60 && Frames(NEW_PUBLISHER, events)[k].key
  {
    FrameLists(events);
    var k := NextMultiple(first);
    KeyframeCadence(events, k);
  }

  function NextMultiple(first: nat): (k: nat)
    ensures k % 60 == 0 && first <= k < first + 60
  {
    (first + 59) / 60 * 60
  }

  /** A request is answered by the very next frame, and by that frame only. */
  lemma RequestConsumedOnce(events: seq<Event>)
    requires FrameCount(events + [Frame] + [Frame]) < 0x1_0000_0000 && Pending(events)
    ensures var k, frames := FrameCount(events), Frames(NEW_PUBLISHER, events + [Frame] + [Frame]);
            |frames| == k + 2 && frames[k].key && (frames[k + 1].key <==> (k + 1) % 60 == 0)
  {
    var one, k := events + [Frame], FrameCount(events);
    FrameSnoc(events);
    FrameSnoc(one);
    FrameLists(events);
    KeyframeCadence(one + [Frame], k);
    KeyframeCadence(one + [Frame], k + 1);
  }

  lemma FrameSnoc(events: seq<Event>)
    ensures FrameCount(events + [Frame]) == FrameCount(events) + 1
    ensures RequestedAt(events + [Frame]) == RequestedAt(events) + [Pending(events)]
  {
    assert (events + [Frame])[..|events|] == events;
  }
}
