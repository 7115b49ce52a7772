/** In-place writing into a zeroed buffer. */
module Buffers {
  import opened Bytes

  /** `copy_from_slice` into `dst[at..at + |src|]`. */
  method Put(dst: array<Byte>, at: nat, src: seq<Byte>)
    requires at + |src| <= dst.Length
    modifies dst
    ensures dst[..] == old(dst[..at]) + src + old(dst[at + |src|..])
  {
    forall i | 0 <= i < |src| {
      dst[at + i] := src[i];
    }
    ghost var want := old(dst[..at]) + src + old(dst[at + |src|..]);
    assert |dst[..]| == |want|;
    forall i | 0 <= i < dst.Length ensures dst[..][i] == want[i] {
      if at <= i < at + |src| { assert dst[at + (i - at)] == src[i - at]; }
    }
  }

  /** Writing the next field after what is already written. */
  method Append(dst: array<Byte>, ghost done: seq<Byte>, at: nat, src: seq<Byte>)
    requires at == |done| && at + |src| <= dst.Length
    requires dst[..] == done + Zeros(dst.Length - |done|)
    modifies dst
    ensures dst[..] == done + src + Zeros(dst.Length - |done| - |src|)
  {
    Put(dst, at, src);
    assert old(dst[..at]) == old(dst[..])[..at] == done;
    assert old(dst[at + |src|..]) == old(dst[..])[at + |src|..] == Zeros(dst.Length - |done| - |src|);
  }

  method ZeroBuffer(n: nat) returns (buf: array<Byte>)
    ensures fresh(buf) && buf.Length == n && buf[..] == Zeros(n)
  {
    buf := new Byte[n](_ => 0);
  }
}

/** The fake RTP publisher: packet builders and their state (rtp_publisher.rs). */
module RtpPublisher {
  import opened Bytes
  import opened Buffers
  import opened Wrapping

  const OPUS_PT: Byte := 111
  const OPUS_SAMPLES_PER_FRAME := 960
  const OPUS_SILENCE: seq<Byte> := [0xF8, 0xFF, 0xFE]
  const VP8_TICKS_PER_FRAME := 3_000
  const VP8_KEYFRAME_INTERVAL := 60
  const VP8_KEYFRAME_SIZE := 800
  const VP8_PFRAME_SIZE := 200

  datatype Config = Config(
    audioSsrc: U32, videoSsrc: U32, videoPt: Byte, midExtmapId: Byte, audioMid: seq<Byte>, videoMid: seq<Byte>)

  datatype Publisher = Publisher(
    audioSeq: U16, videoSeq: U16, audioTs: U32, videoTs: U32, frameCount: U32, forced: bool)

  const NEW_PUBLISHER := Publisher(0, 0, 0, 0, 0, false)

  function MidExtensionWords(mid: seq<Byte>): nat { (1 + |mid| + 3) / 4 }

  /** The fixed RTP header with X=1 (section 5.1 of RFC 3550). */
  function FixedHeader(second: Byte, sn: U16, ts: U32, ssrc: U32): (h: seq<Byte>)
    ensures |h| == 12
  {
    [0x90, second] + Be16(sn) + Be32(ts) + Be32(ssrc)
  }

  /** A one-byte-header extension block holding the MID (section 4.2 of RFC 8285). */
  function MidExtension(id: Byte, mid: seq<Byte>): (x: seq<Byte>)
    requires mid != []
    ensures |x| == 4 + MidExtensionWords(mid) * 4
  {
    var words := MidExtensionWords(mid);
    [0xBE, 0xDE] + Be16(words % 0x1_0000) + [id % 0x10 * 0x10 + (|mid| - 1) % 0x10] + mid
    + Zeros(words * 4 - 1 - |mid|)
  }

  function OpusPacket(c: Config, sn: U16, ts: U32): seq<Byte>
    requires c.audioMid != []
  {
    FixedHeader(OPUS_PT, sn, ts, c.audioSsrc) + MidExtension(c.midExtmapId, c.audioMid) + OPUS_SILENCE
  }

  function WithMarker(pt: Byte, marker: bool): Byte { if marker && pt < 0x80 then pt + 0x80 else pt }

  function Vp8Payload(key: bool): (p: seq<Byte>)
    ensures |p| == 1 + if key then VP8_KEYFRAME_SIZE else VP8_PFRAME_SIZE
  {
    [0x10, if key then 0x10 else 0x11] + Zeros((if key then VP8_KEYFRAME_SIZE else VP8_PFRAME_SIZE) - 1)
  }

  function Vp8Packet(c: Config, sn: U16, ts: U32, key: bool): seq<Byte>
    requires c.videoMid != []
  {
    FixedHeader(WithMarker(c.videoPt, key), sn, ts, c.videoSsrc) + MidExtension(c.midExtmapId, c.videoMid)
    + Vp8Payload(key)
  }

  predicate IsKeyframe(p: Publisher) { p.forced || p.frameCount % VP8_KEYFRAME_INTERVAL == 0 }

  function AfterOpus(p: Publisher): Publisher
  {
    p.(audioSeq := WrapAdd16(p.audioSeq, 1), audioTs := (p.audioTs + OPUS_SAMPLES_PER_FRAME) % 0x1_0000_0000)
  }

  function AfterVp8(p: Publisher): Publisher
    requires p.frameCount < 0xFFFF_FFFF
  {
    p.(videoSeq := WrapAdd16(p.videoSeq, 1), videoTs := (p.videoTs + VP8_TICKS_PER_FRAME) % 0x1_0000_0000,
       frameCount := p.frameCount + 1, forced := false)
  }

  /** The keyframe flag, shared with the RTCP listener. */
  class AtomicFlag {
    var value: bool

    constructor ()
      ensures !value
    {
      value := false;
    }

    method Swap(v: bool) returns (was: bool)
      modifies this
      ensures was == old(value) && value == v
    {
      was, value := value, v;
    }
  }

  class RtpPublisherState {
    const config: Config
    var audioSeq: U16
    var videoSeq: U16
    var audioTs: U32
    var videoTs: U32
    var videoFrameCount: U32
    const forceKeyframe: AtomicFlag

    ghost function View(): Publisher
      reads this, forceKeyframe
    {
      Publisher(audioSeq, videoSeq, audioTs, videoTs, videoFrameCount, forceKeyframe.value)
    }

    constructor WithKeyframeFlag(config: Config, flag: AtomicFlag)
      ensures this.config == config && forceKeyframe == flag
      ensures View() == NEW_PUBLISHER.(forced := flag.value)
    {
      this.config, forceKeyframe := config, flag;
      audioSeq, videoSeq, audioTs, videoTs, videoFrameCount := 0, 0, 0, 0, 0;
    }

    method BuildOpusPacket() returns (pkt: array<Byte>)
      requires config.audioMid != []
      modifies this`audioSeq, this`audioTs
      ensures fresh(pkt) && pkt[..] == OpusPacket(config, old(audioSeq), old(audioTs))
      ensures View() == AfterOpus(old(View()))
    {
      var headerLen := 12 + 4 + MidExtensionWords(config.audioMid) * 4;
      pkt := ZeroBuffer(headerLen + |OPUS_SILENCE|);
      WriteFixedHeader(pkt, OPUS_PT, audioSeq, audioTs, config.audioSsrc);
      ghost var header := FixedHeader(OPUS_PT, audioSeq, audioTs, config.audioSsrc);
      WriteMidExtension(pkt, header, 12, config.midExtmapId, config.audioMid);
      Append(pkt, header + MidExtension(config.midExtmapId, config.audioMid), headerLen, OPUS_SILENCE);
      audioSeq := WrapAdd16(audioSeq, 1);
      audioTs := (audioTs + OPUS_SAMPLES_PER_FRAME) % 0x1_0000_0000;
    }

    method BuildVp8Packet() returns (pkt: array<Byte>)
      requires config.videoMid != [] && videoFrameCount < 0xFFFF_FFFF
      modifies this`videoSeq, this`videoTs, this`videoFrameCount, forceKeyframe
      ensures fresh(pkt) && pkt[..] == Vp8Packet(config, old(videoSeq), old(videoTs), IsKeyframe(old(View())))
      ensures View() == AfterVp8(old(View()))
    {
      var forced := forceKeyframe.Swap(false);
      var isKeyframe := forced || videoFrameCount % VP8_KEYFRAME_INTERVAL == 0;
      pkt := EncodeVp8(config, videoSeq, videoTs, isKeyframe);
      videoSeq := WrapAdd16(videoSeq, 1);
      videoTs := (videoTs + VP8_TICKS_PER_FRAME) % 0x1_0000_0000;
      videoFrameCount := videoFrameCount + 1;
    }
  }

  method EncodeVp8(config: Config, sn: U16, ts: U32, isKeyframe: bool) returns (pkt: array<Byte>)
    requires config.videoMid != []
    ensures fresh(pkt) && pkt[..] == Vp8Packet(config, sn, ts, isKeyframe)
  {
    var payloadSize := if isKeyframe then VP8_KEYFRAME_SIZE else VP8_PFRAME_SIZE;
    var headerLen := 12 + 4 + MidExtensionWords(config.videoMid) * 4;
    pkt := ZeroBuffer(headerLen + 1 + payloadSize);
    var second := WithMarker(config.videoPt, isKeyframe);
    WriteFixedHeader(pkt, second, sn, ts, config.videoSsrc);
    ghost var header := FixedHeader(second, sn, ts, config.videoSsrc);
    WriteMidExtension(pkt, header, 12, config.midExtmapId, config.videoMid);
    ghost var head := header + MidExtension(config.midExtmapId, config.videoMid);
    Append(pkt, head, headerLen, [0x10, if isKeyframe then 0x10 else 0x11]);
    assert pkt[..] == head + Vp8Payload(isKeyframe);
  }

  method WriteFixedHeader(pkt: array<Byte>, second: Byte, sn: U16, ts: U32, ssrc: U32)
    requires pkt.Length >= 12 && pkt[..] == Zeros(pkt.Length)
    modifies pkt
    ensures pkt[..] == FixedHeader(second, sn, ts, ssrc) + Zeros(pkt.Length - 12)
  {
    assert pkt[..] == [] + Zeros(pkt.Length);
    Append(pkt, [], 0, [0x90, second]);
    Append(pkt, [0x90, second], 2, Be16(sn));
    Append(pkt, [0x90, second] + Be16(sn), 4, Be32(ts));
    Append(pkt, [0x90, second] + Be16(sn) + Be32(ts), 8, Be32(ssrc));
  }

  method WriteMidExtension(pkt: array<Byte>, ghost done: seq<Byte>, offset: nat, id: Byte, mid: seq<Byte>)
    requires mid != [] && offset == |done| && offset + 4 + MidExtensionWords(mid) * 4 <= pkt.Length
    requires pkt[..] == done + Zeros(pkt.Length - |done|)
    modifies pkt
    ensures pkt[..] == done + MidExtension(id, mid) + Zeros(pkt.Length - |done| - |MidExtension(id, mid)|)
  {
    var words := MidExtensionWords(mid);
    var element := id % 0x10 * 0x10 + (|mid| - 1) % 0x10;
    ghost var head := [0xBE, 0xDE] + Be16(words % 0x1_0000);
    WriteExtensionHeader(pkt, done, offset, words);
    Append(pkt, done + head, offset + 4, [element]);
    Append(pkt, done + head + [element], offset + 5, mid);
    PaddingIsWritten(done + head + [element] + mid, pkt.Length - |done| - 5 - |mid|, words * 4 - 1 - |mid|);
    assert pkt[..] == done + MidExtension(id, mid) + Zeros(pkt.Length - |done| - |MidExtension(id, mid)|);
  }

  /** The profile marker and the length in words. */
  method WriteExtensionHeader(pkt: array<Byte>, ghost done: seq<Byte>, offset: nat, words: nat)
    requires offset == |done| && offset + 4 <= pkt.Length && pkt[..] == done + Zeros(pkt.Length - |done|)
    modifies pkt
    ensures pkt[..] == done + ([0xBE, 0xDE] + Be16(words % 0x1_0000)) + Zeros(pkt.Length - |done| - 4)
  {
    Append(pkt, done, offset, [0xBE, 0xDE]);
    Append(pkt, done + [0xBE, 0xDE], offset + 2, Be16(words % 0x1_0000));
    assert done + [0xBE, 0xDE] + Be16(words % 0x1_0000) == done + ([0xBE, 0xDE] + Be16(words % 0x1_0000));
  }

  /** Padding needs no write: the buffer is zeroed already. */
  lemma PaddingIsWritten(written: seq<Byte>, rest: nat, pad: nat)
    requires pad <= rest
    ensures written + Zeros(rest) == written + Zeros(pad) + Zeros(rest - pad)
  {
  }

  // ---- The send timestamp in the last eight bytes (cap.rs) ----

  function WithSendTime(pkt: seq<Byte>, nowUs: U64): seq<Byte>
  {
    if |pkt| >= 8 then pkt[..|pkt| - 8] + Le64(nowUs) else pkt
  }

  method EmbedSendTs(pkt: array<Byte>, nowUs: U64)
    modifies pkt
    ensures pkt[..] == WithSendTime(old(pkt[..]), nowUs)
  {
    var n := pkt.Length;
    if n >= 8 {
      Put(pkt, n - 8, Le64(nowUs));
      assert old(pkt[n..]) == [];
      assert old(pkt[..n - 8]) == old(pkt[..])[..n - 8];
    }
  }
}
