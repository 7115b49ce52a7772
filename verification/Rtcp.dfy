/** RTCP compound framing, shared by the three walkers (mbcp.rs, rtcp_parser.rs). */
module RtcpFrames {
  import opened Bytes

  /** The length the header at `offset` declares: words minus one (section 6.4.1 of RFC 3550). */
  function LengthAt(buf: seq<Byte>, offset: nat): (n: nat)
    requires offset + 4 <= |buf|
    ensures n >= 4
  {
    (ReadBe16(buf, offset + 2) as nat + 1) * 4
  }

  predicate IsFrame(f: seq<Byte>) { |f| >= 4 && LengthAt(f, 0) == |f| }

  /** The packets of a compound, in order, up to the first that does not fit. */
  function Frames(buf: seq<Byte>): seq<seq<Byte>>
  {
    if |buf| < 4 || LengthAt(buf, 0) > |buf| then []
    else [buf[..LengthAt(buf, 0)]] + Frames(buf[LengthAt(buf, 0)..])
  }

  /** What is left unread behind the last whole packet. */
  function Rest(buf: seq<Byte>): seq<Byte>
  {
    if |buf| < 4 || LengthAt(buf, 0) > |buf| then buf else Rest(buf[LengthAt(buf, 0)..])
  }

  /** The results a walker picks out of a list of packets. */
  function Collect<T>(fs: seq<seq<Byte>>, pick: seq<Byte> -> seq<T>): seq<T>
  {
    if fs == [] then [] else pick(fs[0]) + Collect(fs[1..], pick)
  }

  function Concat(fs: seq<seq<Byte>>): seq<Byte>
  {
    if fs == [] then [] else fs[0] + Concat(fs[1..])
  }

  /** Framing is a stream property: packets already whole stay as they are, whatever follows. */
  lemma {:induction false} FramesExtend(a: seq<Byte>, b: seq<Byte>)
    ensures Frames(a + b) == Frames(a) + Frames(Rest(a) + b)
    decreases |a|
  {
    if |a| >= 4 && LengthAt(a, 0) <= |a| {
      var n := LengthAt(a, 0);
      assert LengthAt(a + b, 0) == n;
      assert (a + b)[..n] == a[..n] && (a + b)[n..] == a[n..] + b;
      FramesExtend(a[n..], b);
    }
  }

  /** The frames and the rest are the buffer, cut up: nothing is skipped, repeated or reordered. */
  lemma {:induction false} FramesPartition(buf: seq<Byte>)
    ensures Concat(Frames(buf)) + Rest(buf) == buf
    ensures forall f :: f in Frames(buf) ==> IsFrame(f)
    ensures Frames(Rest(buf)) == []
    decreases |buf|
  {
    if |buf| >= 4 && LengthAt(buf, 0) <= |buf| {
      var n := LengthAt(buf, 0);
      FramesPartition(buf[n..]);
      assert ([buf[..n]] + Frames(buf[n..]))[1..] == Frames(buf[n..]);
      assert buf == buf[..n] + buf[n..];
      assert IsFrame(buf[..n]);
    }
  }

  /** A compound of whole packets is framed back into exactly those packets. */
  lemma {:induction false} FramesOfConcat(fs: seq<seq<Byte>>)
    requires forall f :: f in fs ==> IsFrame(f)
    ensures Frames(Concat(fs)) == fs
  {
    if fs != [] {
      var f, tail := fs[0], Concat(fs[1..]);
      FramesOfConcat(fs[1..]);
      assert IsFrame(f);
      assert LengthAt(f + tail, 0) == |f|;
      assert (f + tail)[..|f|] == f && (f + tail)[|f|..] == tail;
      assert fs == [f] + fs[1..];
    }
  }

  lemma {:induction false} CollectConcat<T>(a: seq<seq<Byte>>, b: seq<seq<Byte>>, pick: seq<Byte> -> seq<T>)
    ensures Collect(a + b, pick) == Collect(a, pick) + Collect(b, pick)
  {
    if a == [] {
      assert a + b == b;
    } else {
      assert (a + b)[1..] == a[1..] + b;
      CollectConcat(a[1..], b, pick);
    }
  }

  lemma CollectCons<T>(f: seq<Byte>, fs: seq<seq<Byte>>, pick: seq<Byte> -> seq<T>)
    ensures Collect([f] + fs, pick) == pick(f) + Collect(fs, pick)
  {
    assert ([f] + fs)[1..] == fs;
  }

  /** For any walker, bytes appended to a buffer only add results behind those already found. */
  lemma ResultsExtend<T>(a: seq<Byte>, b: seq<Byte>, pick: seq<Byte> -> seq<T>)
    ensures Collect(Frames(a), pick) <= Collect(Frames(a + b), pick)
    ensures Collect(Frames(a + b), pick) == Collect(Frames(a), pick) + Collect(Frames(Rest(a) + b), pick)
  {
    FramesExtend(a, b);
    CollectConcat(Frames(a), Frames(Rest(a) + b), pick);
  }

  // ---- The loop all three walkers run ----

  /** What a walker standing at `offset` still has to find. */
  function Walk<T>(buf: seq<Byte>, offset: nat, pick: seq<Byte> -> seq<T>): seq<T>
    decreases |buf| - offset
  {
    if offset + 4 > |buf| || offset + LengthAt(buf, offset) > |buf| then []
    else pick(buf[offset..offset + LengthAt(buf, offset)]) + Walk(buf, offset + LengthAt(buf, offset), pick)
  }

  lemma WalkStep<T>(found: seq<T>, buf: seq<Byte>, offset: nat, pick: seq<Byte> -> seq<T>)
    requires offset + 4 <= |buf| && offset + LengthAt(buf, offset) <= |buf|
    ensures var n := LengthAt(buf, offset);
            found + Walk(buf, offset, pick) == (found + pick(buf[offset..offset + n])) + Walk(buf, offset + n, pick)
  {
    var n := LengthAt(buf, offset);
    var a, b := pick(buf[offset..offset + n]), Walk(buf, offset + n, pick);
    assert Walk(buf, offset, pick) == a + b;
    assert found + (a + b) == (found + a) + b;
  }

  lemma WalkStops<T>(found: seq<T>, buf: seq<Byte>, offset: nat, pick: seq<Byte> -> seq<T>)
    requires offset + 4 > |buf| || offset + LengthAt(buf, offset) > |buf|
    ensures found + Walk(buf, offset, pick) == found
  {
  }

  lemma {:induction false} WalkFrom<T>(buf: seq<Byte>, offset: nat, pick: seq<Byte> -> seq<T>)
    requires offset <= |buf|
    ensures Walk(buf, offset, pick) == Collect(Frames(buf[offset..]), pick)
    decreases |buf| - offset
  {
    FramesFrom(buf, offset);
    if offset + 4 <= |buf| && offset + LengthAt(buf, offset) <= |buf| {
      var n := LengthAt(buf, offset);
      WalkFrom(buf, offset + n, pick);
      CollectCons(buf[offset..offset + n], Frames(buf[offset + n..]), pick);
    }
  }

  /** The frames of a tail: the packet at its head, if it is all there, and then those behind it. */
  lemma FramesFrom(buf: seq<Byte>, offset: nat)
    requires offset <= |buf|
    ensures Frames(buf[offset..]) ==
              if offset + 4 > |buf| || offset + LengthAt(buf, offset) > |buf| then []
              else [buf[offset..offset + LengthAt(buf, offset)]] + Frames(buf[offset + LengthAt(buf, offset)..])
  {
    var tail := buf[offset..];
    if |tail| >= 4 {
      var n := LengthAt(buf, offset);
      assert LengthAt(tail, 0) == n;
      if n <= |tail| {
        assert tail[..n] == buf[offset..offset + n] && tail[n..] == buf[offset + n..];
      }
    }
  }

  /** Walking a buffer by offset finds what picking over its frames finds. */
  lemma WalkIsCollect<T>(buf: seq<Byte>, pick: seq<Byte> -> seq<T>)
    ensures Walk(buf, 0, pick) == Collect(Frames(buf), pick)
  {
    WalkFrom(buf, 0, pick);
    assert buf[0..] == buf;
  }

  /** Reading a field of a packet in place is reading it in the packet. */
  lemma FieldInPlace(buf: seq<Byte>, offset: nat, n: nat, i: nat)
    requires offset + n <= |buf| && i + 4 <= n
    ensures ReadBe32(buf[offset..offset + n], i) == ReadBe32(buf, offset + i)
  {
    SliceOfSlice(buf, offset, n, i, 4);
    ReadBeSame(buf[offset..offset + n], i, buf, offset + i, 4);
  }
}

/** The two RTCP observers (rtcp_parser.rs) and what they record (observations.rs). */
module RtcpObservers {
  import opened Bytes
  import opened RtcpFrames
  import opened RtpPublisher

  const PT_SR: Byte := 200
  const PT_RR: Byte := 201
  const PT_PSFB: Byte := 206

  datatype SrRecord = SrRecord(ssrc: U32, ntpSec: U32, ntpFrac: U32, rtpTs: U32, packetCount: U32, octetCount: U32)

  /** What the subscriber side picks out of a packet: a sender report. */
  function SrOf(f: seq<Byte>): seq<SrRecord>
  {
    if |f| >= 28 && f[1] == PT_SR then
      [SrRecord(ReadBe32(f, 4), ReadBe32(f, 8), ReadBe32(f, 12), ReadBe32(f, 16), ReadBe32(f, 20), ReadBe32(f, 24))]
    else []
  }

  datatype Feedback = ReceiverReport(sender: U32) | PictureLoss

  /** What the publisher side picks out of a packet: a receiver report, or a PLI for its own video stream. */
  function FeedbackOf(f: seq<Byte>, videoSsrc: U32): seq<Feedback>
  {
    if |f| >= 8 && f[1] == PT_RR then [ReceiverReport(ReadBe32(f, 4))]
    else if |f| >= 12 && f[1] == PT_PSFB && f[0] % 0x20 == 1 && ReadBe32(f, 8) == videoSsrc then [PictureLoss]
    else []
  }

  function FeedbackFor(videoSsrc: U32): seq<Byte> -> seq<Feedback> { f => FeedbackOf(f, videoSsrc) }

  datatype Observed = Observed(rrSenders: set<U32>, rrCount: nat, pliCount: nat, keyframeForced: bool)

  function Note(o: Observed, e: Feedback): Observed
  {
    match e
    case ReceiverReport(s) => o.(rrSenders := o.rrSenders + {s}, rrCount := o.rrCount + 1)
    case PictureLoss => o.(pliCount := o.pliCount + 1, keyframeForced := true)
  }

  function NoteAll(o: Observed, es: seq<Feedback>): Observed
    decreases |es|
  {
    if es == [] then o else NoteAll(Note(o, es[0]), es[1..])
  }

  class BotObservations {
    var rrSenderSsrcs: set<U32>
    var rrReceivedCount: nat
    var pliReceivedCount: nat
    var srReceived: seq<SrRecord>

    method RecordRr(sender: U32)
      modifies this`rrSenderSsrcs, this`rrReceivedCount
      ensures rrSenderSsrcs == old(rrSenderSsrcs) + {sender} && rrReceivedCount == old(rrReceivedCount) + 1
    {
      rrSenderSsrcs := rrSenderSsrcs + {sender};
      rrReceivedCount := rrReceivedCount + 1;
    }

    method RecordPli()
      modifies this`pliReceivedCount
      ensures pliReceivedCount == old(pliReceivedCount) + 1
    {
      pliReceivedCount := pliReceivedCount + 1;
    }

    method RecordSr(r: SrRecord)
      modifies this`srReceived
      ensures srReceived == old(srReceived) + [r]
    {
      srReceived := srReceived + [r];
    }
  }

  ghost function View(o: BotObservations, flag: AtomicFlag): Observed
    reads o, flag
  {
    Observed(o.rrSenderSsrcs, o.rrReceivedCount, o.pliReceivedCount, flag.value)
  }

  // ---- Subscriber side ----

  method ParseRtcpForSr(buf: seq<Byte>, observations: BotObservations)
    modifies observations`srReceived
    ensures observations.srReceived == old(observations.srReceived) + Collect(Frames(buf), SrOf)
  {
    WalkIsCollect(buf, SrOf);
    var offset: nat := 0;
    while offset + 4 <= |buf|
      invariant offset <= |buf|
      invariant observations.srReceived + Walk(buf, offset, SrOf) == old(observations.srReceived) + Walk(buf, 0, SrOf)
    {
      var pktLen := LengthAt(buf, offset);
      if offset + pktLen > |buf| { break; }
      HandleSr(buf, offset, pktLen, observations);
      offset := offset + pktLen;
    }
  }

  /** The loop body for one packet: record it if it is an SR, and leave the rest to be found. */
  method HandleSr(buf: seq<Byte>, offset: nat, pktLen: nat, observations: BotObservations)
    requires offset + 4 <= |buf| && pktLen == LengthAt(buf, offset) && offset + pktLen <= |buf|
    modifies observations`srReceived
    ensures observations.srReceived == old(observations.srReceived) + SrOf(buf[offset..offset + pktLen])
    ensures observations.srReceived + Walk(buf, offset + pktLen, SrOf)
         == old(observations.srReceived) + Walk(buf, offset, SrOf)
  {
    WalkStep(observations.srReceived, buf, offset, SrOf);
    var pt := buf[offset + 1];
    if pt == PT_SR && pktLen >= 28 {
      SrFieldsInPlace(buf, offset, pktLen);
      observations.RecordSr(SrRecord(
        ReadBe32(buf, offset + 4), ReadBe32(buf, offset + 8), ReadBe32(buf, offset + 12),
        ReadBe32(buf, offset + 16), ReadBe32(buf, offset + 20), ReadBe32(buf, offset + 24)));
    }
  }

  lemma SrFieldsInPlace(buf: seq<Byte>, offset: nat, n: nat)
    requires 28 <= n && offset + n <= |buf| && buf[offset + 1] == PT_SR
    ensures SrOf(buf[offset..offset + n]) == [SrRecord(
        ReadBe32(buf, offset + 4), ReadBe32(buf, offset + 8), ReadBe32(buf, offset + 12),
        ReadBe32(buf, offset + 16), ReadBe32(buf, offset + 20), ReadBe32(buf, offset + 24))]
  {
    FieldInPlace(buf, offset, n, 4);
    FieldInPlace(buf, offset, n, 8);
    FieldInPlace(buf, offset, n, 12);
    FieldInPlace(buf, offset, n, 16);
    FieldInPlace(buf, offset, n, 20);
    FieldInPlace(buf, offset, n, 24);
  }

  // ---- Publisher side ----

  method ParseRtcpCompound(buf: seq<Byte>, videoSsrc: U32, forceKeyframe: AtomicFlag, observations: BotObservations)
    modifies forceKeyframe, observations`rrSenderSsrcs, observations`rrReceivedCount, observations`pliReceivedCount
    ensures View(observations, forceKeyframe)
         == NoteAll(old(View(observations, forceKeyframe)), Collect(Frames(buf), FeedbackFor(videoSsrc)))
  {
    ghost var pick := FeedbackFor(videoSsrc);
    WalkIsCollect(buf, pick);
    var offset: nat := 0;
    while offset + 4 <= |buf|
      invariant offset <= |buf|
      invariant NoteAll(View(observations, forceKeyframe), Walk(buf, offset, pick))
             == NoteAll(old(View(observations, forceKeyframe)), Walk(buf, 0, pick))
    {
      var pktLen := LengthAt(buf, offset);
      if offset + pktLen > |buf| { break; }
      HandleFeedback(buf, offset, pktLen, videoSsrc, forceKeyframe, observations);
      offset := offset + pktLen;
    }
  }

  /** The loop body for one packet. */
  method HandleFeedback(buf: seq<Byte>, offset: nat, pktLen: nat, videoSsrc: U32,
                        forceKeyframe: AtomicFlag, observations: BotObservations)
    requires offset + 4 <= |buf| && pktLen == LengthAt(buf, offset) && offset + pktLen <= |buf|
    modifies forceKeyframe, observations`rrSenderSsrcs, observations`rrReceivedCount, observations`pliReceivedCount
    ensures NoteAll(View(observations, forceKeyframe), Walk(buf, offset + pktLen, FeedbackFor(videoSsrc)))
         == NoteAll(old(View(observations, forceKeyframe)), Walk(buf, offset, FeedbackFor(videoSsrc)))
  {
    var b0, pt := buf[offset], buf[offset + 1];
    ghost var f := buf[offset..offset + pktLen];
    NoteAllConcat(View(observations, forceKeyframe), FeedbackOf(f, videoSsrc),
                  Walk(buf, offset + pktLen, FeedbackFor(videoSsrc)));
    if pt == PT_RR && pktLen >= 8 {
      FieldInPlace(buf, offset, pktLen, 4);
      observations.RecordRr(ReadBe32(buf, offset + 4));
    } else if pt == PT_PSFB {
      var fmt := b0 % 0x20;
      if fmt == 1 && pktLen >= 12 {
        FieldInPlace(buf, offset, pktLen, 8);
        var mediaSsrc := ReadBe32(buf, offset + 8);
        if mediaSsrc == videoSsrc {
          var was := forceKeyframe.Swap(true);
          observations.RecordPli();
        }
      }
    }
    assert View(observations, forceKeyframe)
        == NoteAll(old(View(observations, forceKeyframe)), FeedbackOf(f, videoSsrc));
  }

  lemma {:induction false} NoteAllConcat(o: Observed, a: seq<Feedback>, b: seq<Feedback>)
    ensures NoteAll(o, a + b) == NoteAll(NoteAll(o, a), b)
    decreases |a|
  {
    if a == [] {
      assert a + b == b;
    } else {
      assert (a + b)[1..] == a[1..] + b;
      NoteAllConcat(Note(o, a[0]), a[1..], b);
    }
  }

  /** What a compound leaves behind: every RR counted and its sender kept, every own PLI counted, the flag raised iff there was one. */
  lemma {:induction false} NotedFeedback(o: Observed, es: seq<Feedback>)
    ensures var r := NoteAll(o, es);
            && r.rrCount + r.pliCount == o.rrCount + o.pliCount + |es|
            && r.rrSenders == o.rrSenders + (set e | e in es && e.ReceiverReport? :: e.sender)
            && (r.keyframeForced <==> o.keyframeForced || PictureLoss in es)
            && r.pliCount == o.pliCount + multiset(es)[PictureLoss]
    decreases |es|
  {
    if es != [] {
      NotedFeedback(Note(o, es[0]), es[1..]);
      assert es == [es[0]] + es[1..];
    }
  }
}
