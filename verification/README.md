# A verified model of the lab's measuring instruments

The lab loads an SFU with bots and judges what they receive. This project models the parts whose numbers the
verdicts rest on, in Dafny, and proves what those numbers mean. Sockets and cryptography are left out; byte
layouts, modular arithmetic, buffers and state are kept.

| file | models |
|---|---|
| `RecvMetrics.dfy`, `ReceiveTheorems.dfy` | receive accounting: per-SSRC loss, reordering, maximum and jitter, and what they say about unbounded sequences |
| `CapReceiver.dfy` | the capacity subscriber that counts from the header alone |
| `NetFilter.dfy` | token bucket, random drop, jitter, reconfiguration |
| `RtpPublisher.dfy`, `RtpWire.dfy` | RTP packet builders, MID extension, VP8 keyframes, send timestamps, and reading them back |
| `Pipeline.dfy`, `Fanout.dfy` | publisher, filter and receiver composed, up to the verdict of the fan-out checkpoint |
| `Rtcp.dfy`, `Mbcp.dfy` | RTCP framing, its three walkers, and MBCP floor messages |
| `Stun.dfy` | STUN binding requests with back-patched lengths |
| `Signaling.dfy`, `SignalingTheorems.dfy` | the signalling session and what holds under every interleaving of its calls |
| `SignalingOrder.dfy`, `SignalingAnswers.dfy` | which calls keep messages in order, and when a request gets its own answer |
| `Judge.dfy`, `Ratchet.dfy`, `Checkpoints.dfy` | verdicts, the self-updating baseline, and three checkpoints |
| `Capacity.dfy` | splitting subscribers over workers, and the latency summary |
| `WireLaws.dfy`, `StunLaws.dfy`, `FilterLaws.dfy`, `SignalingLaws.dfy`, `JudgeLaws.dfy` | what all this means in bytes, kilobits, frames and percent, told without the model's own functions |
| `Bytes.dfy`, `Lists.dfy`, `Sums.dfy`, `Ordering.dfy` | byte order and padding, lists as multisets, sums over maps, ranking of identifiers |

Where the program updates an object in place the model has a class, and each method is proved against a function
of the old state; the theorems are about runs of those functions. Clocks, random draws, decryption results and
incoming frames are parameters, so every theorem holds for all of them. Byte strings stand for UTF-8 text. `f64`
is modelled by `real`. `Pipeline.dfy` holds the main result: `EndToEndLoss`.

## What the proofs found

Where the code does less than its documentation or its purpose suggests, the model follows the code, and the exact
condition is proved.

- For packets delivered in order, loss is exact iff no more than 32767 packets in a row are lost
  (`ForwardLostIsMissingIff`, `EndToEndLoss`). Reordering inflates it: packets 0, 2, 1, 3 count as two lost
  (`SwapCountsAsLoss`). For every order, with numbers unwrapped by their nearest step, it is exact iff the packets
  skip only positions that stay empty, each once (`LostIsMissingIff`); `LostSurplus` says by how much it is too high.
- A jump of 32768 counts as loss but does not advance the recorded maximum (`LossAndMaximumDisagreeAtHalfWindow`);
  `MaxSeqAlwaysRightIff` says when the maximum is right.
- An answer overtakes a buffered message of its opcode (`AnswerOvertakesMessage`). `InOrderForAllTrafficIff` and
  `FloorInOrderForAllTrafficIff` say which calls keep the order whatever arrives.
- The header comment in `common/src/signaling.rs:12` says an answer has the same pid as its request. The code
  compares the opcode only, so a late answer is taken for the next one (`StaleAnswerIsAccepted`). A request is sure
  of its own answer iff no earlier request for its opcode is still unanswered, or the opcode is an error
  (`OwnAnswerIffNoneOwed`).
- The worker split underflows for some inputs, for example five subscribers over four workers
  (`FiveOverFourUnderflows`); `LastWorkerFitsIff` says for which, and `OneFewerUnderflows` how large the total can be.
- A baseline entry with zero jitter accepts any jitter (`JitterUnguardedIff`), and a rewritten baseline accepts any
  figures for exactly the participants the accepted run went without (`AbsenceForgetsIff`).
- A MID longer than 16 bytes, or an id outside 1 to 14, is truncated to four bits and does not read back
  (`MidReadsBackIff`). MBCP packets and STUN user names too long for a 16-bit length are truncated
  in that field (`WellFramedIffFits`, `RequestDecodesIffFits`).

## Model

| member | source | states |
|---|---|---|
| Pipeline.EndToEndLoss | crates/oxlab-bot/src/bot.rs:380-411 | Any interleaving of audio, video, keyframe requests and filter switches, any random draws, any ciphertext: a stream has a record iff a packet survived; then received counts the survivors, first and last sequence number are theirs, and reported loss never exceeds the packets dropped strictly between them, equals it iff no run of drops exceeds 32767, with no reordering reported; across any number of 16-bit wraps |
| Pipeline.EndToEndTotals | crates/oxlab-bot/src/cap.rs:448-505 | Pairing the filtered publishers of a bot with the header-only receiver, over the same runs: it gets exactly what the filter did not drop, and its loss total equals the drops inside both streams iff neither stream had a run of more than 32767 drops |
| Fanout.FanoutDecidesDrops | crates/oxlab-scenario/src/checkpoint_eval.rs:468-529 | Receivers of the same run pass the fan-out checks if nothing was dropped inside a stream and, when no run of drops exceeds 32767, only then |
| Fanout.PristineFanoutPasses | crates/oxlab-net/src/filter.rs:125-166 | Through the pristine filter, never reconfigured, receivers of the same run always pass them, whatever is sent and whenever |
| Pipeline.ReceiverSeesSurvivors | crates/oxlab-bot/src/bot.rs:496-507 | The arrivals recorded for a stream carry, in order, the positions of its surviving packets modulo 2^16 |
| Pipeline.TimestampsCount | crates/oxlab-bot/src/rtp_publisher.rs:120-122 | Over any run the audio clock stands at 960 ticks a packet and the video clock at 3000 a frame, modulo 2^32 |
| Pipeline.FilterCountsBothStreams | crates/oxlab-net/src/filter.rs:131-166 | The filter counters split into the two streams: every packet offered is either dropped and counted, or delivered |
| Pipeline.SkippedIsDroppedBetween | crates/oxlab-bot/src/rtp_subscriber.rs:78-80 | The integer positions a receiver skips are the packets dropped strictly between first and last survivor |
| Wrapping.GapIsTrueGap | crates/oxlab-bot/src/rtp_subscriber.rs:75-76 | The i16 gap is the true gap iff the true step lies in [-32767, 32768] |
| Wrapping.WrappedGap | crates/oxlab-bot/src/rtp_subscriber.rs:75-76 | In general the i16 gap is the true gap reduced to 16 bits and sign-extended |
| RecvMetrics.SsrcRecvMetrics.constructor | crates/oxlab-bot/src/rtp_subscriber.rs:40-58 | A fresh record: no counts, uninitialised, clock rate 48000 for payload type 111 and 90000 otherwise |
| RecvMetrics.SsrcRecvMetrics.Update | crates/oxlab-bot/src/rtp_subscriber.rs:60-104 | The whole record after one packet: first-packet branch, loss, reordering, forward-only maximum, jitter and the remembered arrival |
| RecvMetrics.StepCounts | crates/oxlab-bot/src/rtp_subscriber.rs:74-84 | One packet adds one received, the positive gap to loss, and one reordering iff the gap is below -1; nothing else on the first packet |
| RecvMetrics.RecvMetricsStore.Update | crates/oxlab-bot/src/rtp_subscriber.rs:133-140 | The packet updates the record of its own SSRC, created on first sight; every other record is unchanged |
| RecvMetrics.RecvMetricsStore.TakeSnapshot | crates/oxlab-bot/src/rtp_subscriber.rs:143-161 | The snapshot holds every record once, and its totals are the sums over all records |
| ReceiveTheorems.RunBookkeeping | crates/oxlab-bot/src/rtp_subscriber.rs:60-72 | After any run: received is the number of packets, the first sequence number and the last packet are remembered, identity is unchanged |
| ReceiveTheorems.RunCounters | crates/oxlab-bot/src/rtp_subscriber.rs:74-84 | Over a whole run the two counters are sums over adjacent wrapped gaps, whatever else the record does |
| ReceiveTheorems.CountersMatchIntegers | crates/oxlab-bot/src/rtp_subscriber.rs:74-84 | If the true steps lie in [-32767, 32768], loss and reordering equal those of the unbounded integer sequence |
| ReceiveTheorems.ForwardLossExactIff | crates/oxlab-bot/src/rtp_subscriber.rs:78-80 | For a forward-only stream reported loss never exceeds the true loss, and equals it iff no step exceeds 32768 |
| ReceiveTheorems.UnwrapFits | crates/oxlab-bot/src/rtp_subscriber.rs:75-76 | Every run has an unwrapping into integers whose steps lie in the window |
| ReceiveTheorems.UnwrappingUnique | crates/oxlab-bot/src/rtp_subscriber.rs:75-76 | That unwrapping is the only one with the same start |
| ReceiveTheorems.Conservation | crates/oxlab-bot/src/rtp_subscriber.rs:60-104 | received + lost = (last - first + 1) + total backward movement, over the unwrapped positions, for every run |
| ReceiveTheorems.LostIsMissingIff | crates/oxlab-bot/src/rtp_subscriber.rs:74-84 | For every run, in whatever order: the reported loss is at least the number of positions strictly between first and last arrival that nothing filled, and equals it iff forward steps passed over only such positions, each once |
| ReceiveTheorems.LostSurplus | crates/oxlab-bot/src/rtp_subscriber.rs:74-84 | How far the loss exceeds that number: the backward movement less the arrivals that filled no new position of the span; and its exact value when the last arrival lies before the first, where nothing is missing |
| ReceiveTheorems.DistinctLostIsMissingIff | crates/oxlab-bot/src/rtp_subscriber.rs:78-84 | Without duplicates or arrivals outside the span, the loss is exact iff the packets came in order |
| ReceiveTheorems.SwapCountsAsLoss | crates/oxlab-bot/src/rtp_subscriber.rs:78-84 | Packets 0, 2, 1, 3 are reported as two lost, although none is missing and every step is small |
| ReceiveTheorems.ForwardLostIsMissingIff | crates/oxlab-bot/src/rtp_subscriber.rs:78-80 | For a stream delivered in order the reported loss never exceeds the number of unfilled positions, and equals it iff no step exceeds 32768 |
| ReceiveTheorems.MaxSeqIsMaximum | crates/oxlab-bot/src/rtp_subscriber.rs:86-90 | If arrivals stay within the half window of the running maximum, the recorded maximum is the true maximum modulo 2^16 |
| ReceiveTheorems.MaxStepTracksIff | crates/oxlab-bot/src/rtp_subscriber.rs:86-90 | One step keeps the recorded maximum right iff, for x the new position and d its distance from the maximum modulo 2^16, x is ahead and d < 32768, or x is not ahead and d is 0 or at least 32768; for any positions |
| ReceiveTheorems.MaxSeqAlwaysRightIff | crates/oxlab-bot/src/rtp_subscriber.rs:86-90 | The recorded maximum is the true maximum modulo 2^16 after every packet of a run iff each packet meets that condition |
| ReceiveTheorems.NearMaximumIsTrackable | crates/oxlab-bot/src/rtp_subscriber.rs:86-90 | Staying within the half window of the maximum is enough for that, and is the exact condition when no packet is 2^16 or more away from the maximum |
| ReceiveTheorems.LossAndMaximumDisagreeAtHalfWindow | crates/oxlab-bot/src/rtp_subscriber.rs:74-90 | A jump of 32768 is counted as 32767 lost packets but does not advance the maximum |
| ReceiveTheorems.JitterClosedForm | crates/oxlab-bot/src/rtp_subscriber.rs:92-99 | Jitter is the exponentially weighted sum of all deviations, the newest with weight 1/16, each older one with 15/16 of the next |
| ReceiveTheorems.JitterLaw | crates/oxlab-bot/src/rtp_subscriber.rs:92-99 | With off the signed distance of a packet from the pace of its predecessor, in ticks of 48000 a second for payload type 111 and 90000 otherwise, and stamps compared modulo 2^32: 16 times the new jitter less 15 times the old is the size of off |
| ReceiveTheorems.NoJitterIffPaced | crates/oxlab-bot/src/rtp_subscriber.rs:92-99 | Jitter is never negative, and is zero after a run iff every packet came exactly at the pace of its predecessor |
| ReceiveTheorems.StoreDemultiplexes | crates/oxlab-bot/src/rtp_subscriber.rs:133-140 | For any multi-SSRC trace, the record of an SSRC is the run of that SSRC alone on its own packets, opened by its first one |
| CapReceiver.CapSubscriber.HandleRtp | crates/oxlab-bot/src/cap.rs:448-505 | The subscriber state after one datagram: what is counted, the loss, the last sequence number, the latency sample or the decrypt failure, and whether it counted as RTP |
| CapReceiver.DecryptFreeCountingRefinesMetrics | crates/oxlab-bot/src/cap.rs:464-479 | For any trace, header-only counting gives the packet and loss totals of the full metrics fed the same packets, and the same last sequence number per SSRC |
| CapReceiver.ModesAgree | crates/oxlab-bot/src/cap.rs:481-503 | Counting with and without decryption agrees in everything but decrypt failures and latencies |
| WireLaws.AcceptedIs | crates/oxlab-bot/src/cap.rs:456-462 | RTP is taken to be version 2, at least twelve bytes, and no payload type from 72 to 79 |
| WireLaws.FailuresCounted | crates/oxlab-bot/src/cap.rs:499-501 | Over any trace, every RTP datagram that does not decrypt is counted as a failure once, and nothing else is |
| WireLaws.LatencyAppended | crates/oxlab-bot/src/cap.rs:481-497 | After any trace, a decrypted packet ending in a send time adds the time it took iff it is not audio, was stamped, and took more than nothing and less than ten seconds |
| NetFilter.TokenBucket.constructor | crates/oxlab-net/src/filter.rs:65-74 | A full bucket holding 100 ms of the configured bandwidth |
| NetFilter.TokenBucket.Consume | crates/oxlab-net/src/filter.rs:77-93 | Admits iff the refilled, capped level covers the packet, and leaves the level less the packet, or the level if refused |
| NetFilter.WindowThroughput | crates/oxlab-net/src/filter.rs:77-93 | In every window of calls the admitted bytes are at most the capacity plus what the rate earns in the window |
| NetFilter.BucketIsWindowPolicer | crates/oxlab-net/src/filter.rs:77-93 | A full bucket admits a packet iff admitting it keeps every window within its allowance |
| NetFilter.NeverThrottledIffConforming | crates/oxlab-net/src/filter.rs:77-93 | A whole stream is admitted iff the stream itself respects the allowance in every window |
| NetFilter.NetFilter.constructor | crates/oxlab-net/src/filter.rs:109-123 | No statistics, and a full bucket iff the bandwidth is limited |
| NetFilter.NetFilter.Filter | crates/oxlab-net/src/filter.rs:131-166 | Verdict and new state for one packet: bandwidth first, then the random draw, then the clamped delay |
| NetFilter.NetFilter.Update | crates/oxlab-net/src/filter.rs:169-176 | The new configuration with a fresh full bucket or none; statistics unchanged |
| NetFilter.NetFilter.DropRate | crates/oxlab-net/src/filter.rs:184-189 | The percentage whose product with the total is a hundred times the drops; never negative, at most 100 when the drops do not exceed the total, and 0 with no packets |
| NetFilter.StatsCountVerdicts | crates/oxlab-net/src/filter.rs:131-151 | Over any run the statistics count the verdicts given, and the drops among them |
| NetFilter.VerdictsStayInBand | crates/oxlab-net/src/filter.rs:143-165 | Loss of 100 percent or more drops everything, the pristine filter drops and delays nothing, and every delay lies in the jitter band, for every valid draw |
| NetFilter.BucketAlwaysInStep | crates/oxlab-net/src/filter.rs:169-176 | After any history the bucket exists iff the current bandwidth is limited, has that bandwidth's rate and capacity, and a level between 0 and capacity |
| NetFilter.ThroughputBetweenResets | crates/oxlab-net/src/filter.rs:131-176 | After any history of packets and reconfigurations, every window up to the next reconfiguration forwards at most a 100 ms burst plus what the bandwidth earns |
| NetFilter.NothingThrottledIffConforming | crates/oxlab-net/src/filter.rs:135-141 | With any random loss, from construction or from any reconfiguration on, the bandwidth stage drops none of the packets that follow iff they respect the allowance in every window |
| NetFilter.LosslessFilterForwardsAllIffConforming | crates/oxlab-net/src/filter.rs:131-166 | If moreover there is no random loss, the filter forwards all of them iff they respect it |
| NetFilter.ResetsSetTheBucket | crates/oxlab-net/src/filter.rs:169-176 | Construction, and a reconfiguration after any history, both leave the filter with a bucket just made for its configuration |
| FilterLaws.NothingRefusedIffWithinBudget | crates/oxlab-net/src/filter.rs:65-93 | From construction or any reconfiguration on, the bandwidth limit refuses nothing iff the bytes offered in every window are at most kbps * 1000 / 8 * 0.1 plus kbps * 1000 / 8 times the length of the window; without random loss exactly then everything is forwarded |
| FilterLaws.DrawsDecide | crates/oxlab-net/src/filter.rs:143-165 | With unlimited bandwidth, a packet is dropped iff its roll is below the loss percentage, and otherwise delayed by the fixed delay plus the drawn shift, but not below zero |
| RtpPublisher.RtpPublisherState.WithKeyframeFlag | crates/oxlab-bot/src/rtp_publisher.rs:83-96 | All counters zero, the given configuration and the shared keyframe flag |
| RtpPublisher.RtpPublisherState.BuildOpusPacket | crates/oxlab-bot/src/rtp_publisher.rs:99-125 | The whole packet and the whole new state of the audio builder |
| RtpPublisher.RtpPublisherState.BuildVp8Packet | crates/oxlab-bot/src/rtp_publisher.rs:128-175 | The whole packet and the whole new state of the video builder, with the keyframe decision and the flag cleared |
| RtpPublisher.WriteMidExtension | crates/oxlab-bot/src/rtp_publisher.rs:190-209 | The extension block is written behind what is already in the buffer and the rest stays zero |
| RtpPublisher.EmbedSendTs | crates/oxlab-bot/src/cap.rs:81-86 | The last eight bytes become the little-endian timestamp if there are eight; nothing else changes |
| RtpWire.DetectVp8Keyframe | crates/oxlab-bot/src/rtcp_parser.rs:11-28 | Keyframe iff the payload behind fixed header, CSRCs and extension is at least two bytes, starts a partition and has frame bit 0 |
| WireLaws.KeyframeBehindHeader | crates/oxlab-bot/src/rtcp_parser.rs:11-28 | For any header, CSRC list and extension, the decision rests on the start bit and the frame bit of the two bytes behind them |
| RtpWire.OpusRoundTrip | crates/oxlab-bot/src/rtp_subscriber.rs:185-193 | Parsing any built audio packet returns payload type 111, sequence number, timestamp, SSRC and no marker, and receivers take it for RTP |
| RtpWire.Vp8RoundTrip | crates/oxlab-bot/src/rtcp_parser.rs:11-28 | Parsing any built video packet returns its fields, the detector returns the builder's keyframe decision, and receivers take it for RTP iff the payload type is not 72 to 79 |
| WireLaws.PayloadsAre | crates/oxlab-bot/src/rtp_publisher.rs:100-167 | An audio packet ends in the three bytes of silence; a video frame has its descriptor, its frame byte and 800 or 200 bytes in all, the rest zero |
| WireLaws.ByteOrder | crates/oxlab-bot/src/rtp_publisher.rs:110-112 | Header fields are written most significant byte first, send times least significant first |
| RtpWire.SendTimePreservesReading | crates/oxlab-bot/src/cap.rs:79-86 | Embedding a timestamp changes neither the parsed header nor the keyframe decision |
| RtpWire.SampledLatencyIsElapsed | crates/oxlab-bot/src/cap.rs:481-497 | The receiver samples exactly the elapsed time between embedding and reception, when that is positive and below ten seconds, and nothing otherwise |
| RtpWire.MidRoundTrip | crates/oxlab-bot/src/rtp_publisher.rs:181-209 | For 1 to 16 bytes and ids 1 to 14, section 4.2 of RFC 8285 reads the block as exactly one element, the MID, and the length field gives the block's size |
| RtpWire.MidReadsBackIff | crates/oxlab-bot/src/rtp_publisher.rs:201-207 | The MID reads back iff it has at most 16 bytes and its id is 1 to 14 |
| Keyframes.PublisherAfter | crates/oxlab-bot/src/rtp_publisher.rs:169-172 | After any interleaving of frames and requests: seq = k mod 2^16 and ts = 3000k mod 2^32 for k frames, and the flag is set iff a request is pending |
| Keyframes.KeyframeCadence | crates/oxlab-bot/src/rtp_publisher.rs:128-131 | Frame k is a keyframe iff a request was pending or 60 divides k, and carries seq k mod 2^16 and ts 3000k mod 2^32 |
| Keyframes.KeyframeInEverySixty | crates/oxlab-bot/src/rtp_publisher.rs:130 | Any 60 consecutive frames contain a keyframe |
| Keyframes.RequestConsumedOnce | crates/oxlab-bot/src/rtp_publisher.rs:129-130 | A pending request makes the very next frame a keyframe and has no effect on the one after |
| RtcpFrames.FramesPartition | common/src/mbcp.rs:122-138 | The framing cuts a buffer into whole packets and a rest that starts no whole packet; nothing is lost or repeated |
| RtcpFrames.FramesExtend | crates/oxlab-bot/src/rtcp_parser.rs:48-81 | The frames of a ++ b are those of a followed by those of the rest of a ++ b |
| RtcpFrames.FramesOfConcat | common/src/mbcp.rs:122-138 | Framing a concatenation of whole packets gives back exactly those packets |
| RtcpFrames.ResultsExtend | crates/oxlab-bot/src/rtcp_parser.rs:91-109 | For any walker, the results on a are a prefix of those on a ++ b, and what follows comes from the unread rest |
| RtcpFrames.WalkIsCollect | crates/oxlab-bot/src/rtcp_parser.rs:47-81 | A walk by offset finds what picking over the frames finds, in order |
| RtcpObservers.ParseRtcpForSr | crates/oxlab-bot/src/rtcp_parser.rs:85-110 | Appends to the records exactly the sender reports of at least 28 bytes among the frames, in order; terminates within bounds on any buffer |
| WireLaws.SenderReportRead | crates/oxlab-bot/src/rtcp_parser.rs:97-104 | Packet type 200 with six words behind the header reads back as those six words; anything shorter or of another type is no sender report |
| RtcpObservers.ParseRtcpCompound | crates/oxlab-bot/src/rtcp_parser.rs:40-82 | Notes exactly the receiver reports and the picture-loss indications for the own video SSRC among the frames |
| WireLaws.ReceiverReportRead | crates/oxlab-bot/src/rtcp_parser.rs:56-63 | Packet type 201 is a receiver report from the SSRC in its first word |
| WireLaws.PictureLossRead | crates/oxlab-bot/src/rtcp_parser.rs:64-77 | Packet type 206 is a picture loss iff its format is 1 and its second word is the own video SSRC |
| WireLaws.NoOtherFeedback | crates/oxlab-bot/src/rtcp_parser.rs:55-79 | No other or shorter packet is feedback |
| RtcpObservers.NotedFeedback | crates/oxlab-bot/src/observations.rs:146-204 | What noting does in total: senders are collected, each report and each indication is counted as what it is, a keyframe is forced iff an indication was noted |
| Mbcp.Build | common/src/mbcp.rs:53-77 | The buffer holds the APP packet: header, truncated length field, SSRC, name, data and zero padding |
| Mbcp.ParseCompound | common/src/mbcp.rs:118-141 | Returns the messages of exactly the MBCP frames of the buffer, in order |
| Mbcp.ParseInvertsBuild | common/src/mbcp.rs:82-115 | Parsing one built packet returns subtype mod 32, the SSRC and the text up to its first NUL, none if empty, for data of any length |
| WireLaws.MbcpLayout | common/src/mbcp.rs:53-77 | Every byte of the packet: version 2 and the low five bits of the subtype, type 204, its length in words less one, SSRC, the name MBCP, the data, zeros to a multiple of four |
| WireLaws.MbcpAccepts | common/src/mbcp.rs:82-96 | A buffer is an MBCP message iff it has twelve bytes, type 204 and the name MBCP |
| Mbcp.WellFramedIffFits | common/src/mbcp.rs:57-66 | A built packet is framed by its own length field iff the length fits 16 bits |
| Mbcp.CompoundRoundTrip | common/src/mbcp.rs:118-141 | Any list of built messages mixed with whole non-MBCP packets parses to exactly the messages in order, and still begins with them whatever bytes follow |
| Utf8.CutAtNulStaysValid | common/src/mbcp.rs:99-109 | Cutting valid UTF-8 at a NUL leaves valid UTF-8, so the cut text always decodes |
| Utf8.ValidIffEncoded | common/src/mbcp.rs:108 | A string counts as well formed iff it is the encoding of some characters as section 3 of RFC 3629 defines it |
| Stun.MessageBuffer.WriteAttr | common/src/stun.rs:71-77 | Appends type, 16-bit length, value and zero padding to a multiple of four |
| Stun.MessageBuffer.PatchLength | common/src/stun.rs:53-54 | Overwrites the length field and nothing else |
| Stun.BuildBindingRequest | common/src/stun.rs:25-69 | The whole message, with the length field as patched at each of the three points |
| Stun.WalkInvertsEncode | common/src/stun.rs:71-77 | Walking encoded attributes as section 14 of RFC 8489 prescribes returns them in order, for any attributes below 2^16 bytes |
| Stun.RequestDecodesIffFits | common/src/stun.rs:25-69 | A reader gets exactly the six attributes in order, with the right type and transaction id, iff the user name leaves the message length within 16 bits; otherwise it rejects the message |
| StunLaws.SixAttributes | common/src/stun.rs:40-66 | A server finds server and client fragment around a colon, priority 0x7effffff, the tie breaker, the empty use-candidate, the HMAC and the fingerprint under their registered types, iff the fragments have fewer than 65472 bytes together |
| StunLaws.RequestHeader | common/src/stun.rs:35-38 | The message starts with type 1, its own length less 20, the magic cookie 2112a442 and the transaction id |
| StunLaws.HashedBytes | common/src/stun.rs:52-57 | The HMAC is taken over the message so far under a header that counts its own 24 bytes |
| StunLaws.CheckedBytes | common/src/stun.rs:59-63 | The checksum is taken over everything before it under a header that counts its own 8 bytes |
| StunLaws.FingerprintBits | common/src/stun.rs:62 | Each bit of the fingerprint is the exclusive or of that bit of the CRC and of 0x5354554e |
| Stun.RequestVerifies | common/src/stun.rs:52-66 | The HMAC verifies over the message with the length that sections 14.5 of RFC 8489 requires, and the CRC over the message with the length section 14.7 requires |
| Signaling.SignalingSession.constructor | common/src/signaling.rs:195-203 | A new session: empty buffers, nothing received, the first id is 1 |
| Signaling.SignalingSession.RecvFrame | common/src/signaling.rs:430-460 | Skips other messages, returns the next frame, and sends one acknowledgement iff the frame is an event message off the floor path |
| Signaling.SignalingSession.BufferFrame | common/src/signaling.rs:406-412 | A floor frame goes to the back of the floor buffer, any other to the back of the event buffer |
| Signaling.SignalingSession.PollEvents | common/src/signaling.rs:348-360 | Buffers every frame received until silence or failure |
| Signaling.SignalingSession.MakeRequest | common/src/signaling.rs:463-488 | Takes a new id; a message that cannot be sent ends the call with the id used up and nothing sent, otherwise the call waits for an answer |
| Signaling.SignalingSession.AwaitAnswerTo | common/src/signaling.rs:471-487 | Buffers frames until an acknowledgement of the opcode or an error frame arrives, and returns that |
| Signaling.SignalingSession.TakeEvent | common/src/signaling.rs:327-332 | Removes and returns the first buffered packet of the opcode, keeping the order of the rest |
| Signaling.SignalingSession.DrainAllEvents | common/src/signaling.rs:334-345 | Returns every buffered packet of the opcode in order and keeps all others in order |
| Signaling.SignalingSession.DrainFloorMbcp | common/src/signaling.rs:321-323 | Returns the whole floor buffer and leaves it empty |
| Signaling.SignalingSession.WaitForEvent | common/src/signaling.rs:363-391 | A buffered packet of the opcode first; otherwise buffers frames until one arrives or time runs out |
| Signaling.SignalingSession.SendFloorMbcp | common/src/signaling.rs:313-318 | Uses up one id and sends one message on the floor opcode, or reports that sending failed |
| Signaling.SignalingSession.NextPid | common/src/signaling.rs:399-403 | Returns the id and moves to the next |
| SignalingTheorems.SessionInvariant | common/src/signaling.rs:321-488 | Under any interleaving of calls and any traffic: each received frame is, as often as it arrived, in exactly one of handed out, event buffer, floor buffer, floor drained; acknowledgements sent are exactly those due, in order; the k-th message attempted has id k |
| SignalingLaws.AcknowledgesMessagesOnly | common/src/signaling.rs:439-451 | After any run, for every opcode and id: as many acknowledgements were sent as messages or undecodable frames with them arrived, if the opcode is an event off the floor path, and none otherwise; no acknowledgement is ever acknowledged |
| SignalingLaws.PollReceivesPrompt | common/src/signaling.rs:348-360 | A poll receives exactly the frames that come before the first silence or failure |
| SignalingLaws.WaitGetsFirstPrompt | common/src/signaling.rs:371-390 | A wait that finds nothing buffered returns something iff a frame of the opcode comes before the first silence or failure |
| SignalingOrder.InOrderForAllTrafficIff | common/src/signaling.rs:327-487 | A list of calls keeps an opcode off the floor path in arrival order, after every call and under all traffic, iff no answer may overtake: iff no request for the opcode is sent or, for an error opcode, no request is sent while an error may be buffered from an earlier poll or wait |
| SignalingOrder.FloorInOrderForAllTrafficIff | common/src/signaling.rs:321-412 | A list of calls keeps floor messages in arrival order under all traffic iff it never waits for the floor opcode and sends no request that a floor message may answer |
| SignalingTheorems.PidsDistinctIff | common/src/signaling.rs:399-403 | The ids used are pairwise different iff at most 2^32 were used |
| SignalingAnswers.RequestReturnsFirstAnswer | common/src/signaling.rs:471-487 | A request returns the first arriving frame that answers it, and every frame before that is buffered in order |
| SignalingLaws.RequestGetsFirstReply | common/src/signaling.rs:471-487 | However long it takes, a request returns the first frame before the stream fails that is an error or has the opcode and an acknowledgement state, with its opcode, id, body and whether it succeeded |
| SignalingAnswers.OwnAnswerIffNoneOwed | common/src/signaling.rs:463-487 | After any run, with any peer that from now on acknowledges only what it owes: the next request is sure of the answer that matching by id would give iff no earlier request for the opcode is unanswered, or the opcode is an error |
| SignalingAnswers.OwedIsUnanswered | common/src/signaling.rs:463-487 | What counts as unanswered, off the floor path, is each id sent more often than an answer with it has arrived; an answer that came before its request counts as well |
| SignalingAnswers.StaleAnswerIsAccepted | common/src/signaling.rs:473-480 | A late answer to the first request is returned as the answer to the second |
| SignalingOrder.AnswerOvertakesMessage | common/src/signaling.rs:473-486 | On a requested opcode an answer is handed out before an earlier buffered message |
| Judge.JudgeLayer1 | crates/oxlab-judge/src/lib.rs:426-437 | Fails iff a checkpoint failed; passed, failed and skipped add up to the applicable number, or nothing is skipped when there are more results than that |
| Judge.LossPercentIs | crates/oxlab-judge/src/lib.rs:450-456 | The loss figure times all packets is a hundred times those lost; it is between 0 and 100, and 0 iff nothing was lost |
| Judge.MaxJitterIs | crates/oxlab-judge/src/lib.rs:457-459 | The jitter figure is zero or one of the jitters, and at least zero and every one of them |
| Judge.JudgeLayer2 | crates/oxlab-judge/src/lib.rs:440-603 | In whatever order the map yields participants: each is judged once, ranked by id, and the verdict is a function of the inputs alone |
| Judge.RankingUnique | crates/oxlab-judge/src/lib.rs:583-590 | Two rankings of the same inputs are the same list |
| Ordering.LessIffSmallerSomewhere | crates/oxlab-judge/src/lib.rs:585 | Ids are ranked by their first difference, a shorter one first if there is none |
| Judge.JudgeRun | crates/oxlab-judge/src/lib.rs:610-671 | Both layers and the overall verdict of the report, for every input |
| Judge.RegressedIffOutOfBounds | crates/oxlab-judge/src/lib.rs:469-557 | A participant regresses iff the baseline knows it and a plain bound is broken: a hundred times its lost packets against the allowed percentage of all, every jitter against the grown baseline, reordering likewise |
| JudgeLaws.KnownVerdict | crates/oxlab-judge/src/lib.rs:563-575 | A participant the baseline knows is Regressed if out of those bounds, else Improved if plainly better in one of them, else Stable |
| JudgeLaws.LayerVerdict | crates/oxlab-judge/src/lib.rs:592-600 | The layer is Regressed if there were errors or someone is out of bounds, else NoBaseline without one, else Improved if someone is better, else Stable |
| JudgeLaws.ReportedFigures | crates/oxlab-judge/src/lib.rs:490-557 | The figures beside the verdicts are the current value, the value of the baseline, their difference or ratio, and the threshold |
| Judge.OverallPassIff | crates/oxlab-judge/src/lib.rs:605-630 | Pass iff no checkpoint failed, no error occurred and every participant the baseline knows keeps its bounds |
| Judge.WorseNeverPasses | crates/oxlab-judge/src/lib.rs:448-563 | Raising loss, jitter or reordering of any participants never turns Fail into Pass |
| Judge.CreatedBaselineFinds | crates/oxlab-judge/src/lib.rs:674-688 | A baseline created from a run holds exactly the participants of that run: looking up an id finds its loss, jitter and reordering as received, and nothing for an id that took no part |
| Judge.SelfBaselineIsStable | crates/oxlab-judge/src/lib.rs:674-688 | Against its own baseline, without errors and with non-negative thresholds, every metric, participant and the whole layer is Stable |
| Ratchet.BaselineStore.RunScenario | crates/oxlab-scenario/src/engine.rs:192-216 | The baseline is rewritten from the report iff the overall verdict is Pass and saving works, and is otherwise untouched |
| Ratchet.TailEntry | crates/oxlab-scenario/src/engine.rs:192-216 | A run leaves a participant's entry alone, or replaces it by the run's own figures, which were within the bounds of the old entry |
| Ratchet.BaselineDrift | crates/oxlab-scenario/src/engine.rs:181-216 | For a participant in every run, after k rewrites: loss at most loss0 + k delta, reordering at most ooo0 (1+r)^k with zero staying zero, and jitter at most jitter0 (1+r)^k while every baseline on the way held positive jitter |
| Ratchet.DriftInFigures | crates/oxlab-scenario/src/engine.rs:181-216 | The same in figures: loss0 + k delta, ooo0 and jitter0 times the k-th power of one plus the ratio |
| Ratchet.AccruedIsLinear | crates/oxlab-judge/src/lib.rs:474-489 | The accrued loss allowance after k rewrites is k times the threshold |
| Ratchet.JitterUnguardedIff | crates/oxlab-judge/src/lib.rs:499-515 | An entry accepts every jitter iff its own jitter is not positive |
| Ratchet.AbsenceForgetsIff | crates/oxlab-scenario/src/engine.rs:192-216 | A rewritten baseline accepts any figures of a participant iff the accepted run went without it |
| Checkpoints.GroupBySsrc | crates/oxlab-scenario/src/checkpoint_eval.rs:128-132 | An entry for each SSRC that reported, with its reports |
| Checkpoints.GroupsInArrivalOrder | crates/oxlab-scenario/src/checkpoint_eval.rs:128-132 | Each entry is the list at exactly the places where its SSRC reported, in increasing order of place |
| Checkpoints.StreamIsPicked | crates/oxlab-scenario/src/checkpoint_eval.rs:185-187 | The reports of an SSRC are the list at strictly increasing places, exactly those with that SSRC |
| Checkpoints.EvalL102 | crates/oxlab-scenario/src/checkpoint_eval.rs:118-167 | Fails iff in the list of some bot a later report of the same SSRC does not have a later stamp, by seconds and then by fraction; skipped iff nobody received a report |
| Checkpoints.NeighboursDecideNtp | crates/oxlab-scenario/src/checkpoint_eval.rs:136-148 | Adjacent pairs are strictly increasing iff all pairs are |
| Checkpoints.EvalL103 | crates/oxlab-scenario/src/checkpoint_eval.rs:174-219 | Fails iff in the list of some bot two successive reports of an SSRC do not step forward by less than half the range, iff its stamps are not those of a strictly increasing integer clock with steps below 2^31 |
| Checkpoints.NeighboursDecideTs | crates/oxlab-scenario/src/checkpoint_eval.rs:191-200 | Adjacent wrapped differences are all positive iff the stamps unwrap to such a clock |
| Checkpoints.EvalL113 | crates/oxlab-scenario/src/checkpoint_eval.rs:468-529 | On the pristine profile, passes iff someone reported, nobody lost anything, and every two receivers of an SSRC differ by at most two packets |
| Checkpoints.GroupsDecideAgreement | crates/oxlab-scenario/src/checkpoint_eval.rs:495-515 | Comparing maximum and minimum in each group of two or more decides agreement of every pair of receivers |
| Capacity.SplitWorkers | crates/oxlab-cli/src/distributed.rs:173-179 | Defined iff the split does not underflow; then the counts add up to the total, all but the last are the rounded-up share, the last is what is left, and none is negative |
| Capacity.LastWorkerFitsIff | crates/oxlab-cli/src/distributed.rs:175-176 | The last remainder is non-negative iff total divides evenly or quotient plus remainder reach workers - 1 |
| Capacity.ManySubscribersSplit | crates/oxlab-cli/src/distributed.rs:135 | (workers - 1) * (workers - 2) subscribers are always enough |
| Capacity.OneFewerUnderflows | crates/oxlab-cli/src/distributed.rs:175-176 | One fewer underflows, from three workers on |
| Capacity.FiveOverFourUnderflows | crates/oxlab-cli/src/distributed.rs:175-176 | Five subscribers over four workers underflow |
| Capacity.LatStats | crates/oxlab-cli/src/capacity.rs:378-387 | Zeros for no samples; otherwise the mean, the element at the p95 index and the last element |
| Capacity.P95IndexIs | crates/oxlab-cli/src/capacity.rs:383 | The p95 index is the last one in range that is not beyond 95% of the count |
| Capacity.SumIsAdditive | crates/oxlab-cli/src/capacity.rs:382 | The sum of one value is that value, and sums of parts add |
| Capacity.P95IsQuantile | crates/oxlab-cli/src/capacity.rs:382-385 | For any samples and their sorted list: at least 95% of the samples are at most p95 and at least 5% at least p95, minimum <= average <= maximum, and the sum averaged is that of the samples |
| Capacity.CountsIgnoreOrder | crates/oxlab-cli/src/capacity.rs:253-255 | How many samples lie on either side of a value does not depend on their order |
| Capacity.SortedUnique | crates/oxlab-cli/src/capacity.rs:253-255 | Sorting has one result, so the statistics do not depend on the order samples came in |

## Left out

- UDP, WebSocket, DTLS and SRTP: transport; the bytes behind an encrypted packet's fixed header are arbitrary, and what decryption yields is a parameter.
- tokio tasks, `select!` and cancellation: receiving one frame is atomic, so a timeout between reading a frame and acknowledging it is not modelled; a timeout is a `Quiet` item in the traffic.
- Failed sends of acknowledgements: the program only logs them, so the model counts each as sent.
- `open`: conservation starts after the handshake, whose HELLO and IDENTIFY_RESULT frames are discarded and whose message has id 0; frames buffered meanwhile are not modelled.
- `do_join` and the other request wrappers of the signalling client: compositions of the modelled calls with JSON.
- JSON bodies: packets keep the raw bytes; decoding failures become null in the program.
- The `oxsig` header layout and opcode table: not part of this model; opcodes are a parameter and headers come decoded.
- HMAC-SHA1, CRC32 and random bytes: arbitrary functions and inputs.
- IEEE rounding: reals stand for floats, so drift and throughput bounds hold up to rounding.
- NaN: the thresholds and jitters are real numbers.
- Overflow of 64-bit counters, and of byte counts as machine words.
- RtpPublisher.RtpPublisherState.BuildVp8Packet: requires fewer than 2^32 - 1 frames so far, because the frame counter's own addition overflows there, and a non-empty MID, because the length computation underflows on an empty one.
- RtpPublisher.RtpPublisherState.BuildOpusPacket: requires a non-empty MID for the same reason.
- Pipeline.EndToEndLoss: requires fewer than 2^32 video frames, different SSRCs, MIDs that fit the extension's length field and a video payload type outside 72 to 79, since others do not reach the receiver as RTP; the scheduler's delays are not modelled, because a stream's own packets are sent in order.
- Signaling.SignalingSession.NextPid: does not model the overflow of the 32-bit id as a failure; ids wrap, as they do in a build without overflow checks, while the frame counter's overflow is excluded by a precondition.
- Judge.SelfBaselineIsStable: says nothing for negative thresholds, where a run regresses against itself.
- Ratchet.BaselineStore.RunScenario: the rest of the scenario engine, the file format and paths are not modelled; whether saving works is a parameter. A failed write is assumed to leave the old file intact, although it truncates the file first, and a file once written is assumed to load.
- Capacity.LatStats: takes the sorted list; the library sort is represented by any sorted list with the same elements.
- Judge.JudgeLayer2: sorts by insertion in place of the library sort; `RankingUnique` makes the choice irrelevant.
- Lock poisoning and relaxed atomics: each counter update is one step.
- Checkpoints that are a single threshold test, the checkpoint registry and the category filter.
- Summaries, details of verdicts, CSV, console output, scenario files and profiles.
- `build_native_freq` and the other native floor messages: nothing here parses them.
- Addition of worker reports in the distributed run: plain sums.
- The bots' floor flags and timing observations in `bot.rs`: shared between tasks without a clean contract.
- `bench/` and `e2e-ptt/`: no longer in the workspace.
