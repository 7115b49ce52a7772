/** Well-formed UTF-8, as `String::from_utf8` decides it (section 4 of RFC 3629). */
module Utf8 {
  import opened Bytes

  predicate Cont(b: Byte) { 0x80 <= b <= 0xBF }

  /** Length of the character at the front, or 0 if the bytes there do not start a well-formed one. */
  function CharLength(s: seq<Byte>): (n: nat)
    requires s != []
    ensures n <= |s| && n <= 4
    ensures n > 1 ==> forall i :: 0 <= i < n ==> s[i] >= 0x80
  {
    var b := s[0];
    if b < 0x80 then 1
    else if |s| < 2 || !Cont(s[1]) then 0
    else if 0xC2 <= b <= 0xDF then 2
    else if |s| < 3 || !Cont(s[2]) then 0
    else if (b == 0xE0 && s[1] >= 0xA0) || 0xE1 <= b <= 0xEC || (b == 0xED && s[1] <= 0x9F) || 0xEE <= b <= 0xEF then 3
    else if |s| < 4 || !Cont(s[3]) then 0
    else if (b == 0xF0 && s[1] >= 0x90) || 0xF1 <= b <= 0xF3 || (b == 0xF4 && s[1] <= 0x8F) then 4
    else 0
  }

  predicate Valid(s: seq<Byte>)
  {
    s == [] || (CharLength(s) > 0 && Valid(s[CharLength(s)..]))
  }

  /** Cutting a string at a NUL cuts between characters. */
  lemma {:induction false} CutAtNulStaysValid(s: seq<Byte>, k: nat)
    requires Valid(s) && k < |s| && s[k] == 0
    ensures Valid(s[..k])
  {
    if k > 0 {
      var n := CharLength(s);
      assert n <= k;
      CutAtNulStaysValid(s[n..], k - n);
      var t := s[..k];
      assert t[n..] == s[n..][..k - n];
      SameCharLength(s, k);
    }
  }

  lemma SameCharLength(s: seq<Byte>, k: nat)
    requires s != [] && 0 < CharLength(s) <= k <= |s|
    ensures CharLength(s[..k]) == CharLength(s)
  {
  }

  // ---- Well-formed means: the encoding of some characters ----

  type Scalar = c: int | 0 <= c < 0xD800 || 0xE000 <= c <= 0x10_FFFF

  /** The encoding of one character (section 3 of RFC 3629). */
  function Encode(c: Scalar): (e: seq<Byte>)
  {
    if c < 0x80 then [c]
    else if c < 0x800 then [0xC0 + c / 0x40, 0x80 + c % 0x40]
    else if c < 0x1_0000 then [0xE0 + c / 0x1000, 0x80 + c / 0x40 % 0x40, 0x80 + c % 0x40]
    else [0xF0 + c / 0x4_0000, 0x80 + c / 0x1000 % 0x40, 0x80 + c / 0x40 % 0x40, 0x80 + c % 0x40]
  }

  function EncodeAll(cs: seq<Scalar>): seq<Byte>
  {
    if cs == [] then [] else Encode(cs[0]) + EncodeAll(cs[1..])
  }

  /** A string is well formed if and only if it is the encoding of some characters. */
  lemma ValidIffEncoded(s: seq<Byte>)
    ensures Valid(s) <==> exists cs: seq<Scalar> :: s == EncodeAll(cs)
  {
    if Valid(s) {
      var cs := Characters(s);
    }
    if cs: seq<Scalar> :| s == EncodeAll(cs) {
      EncodedIsValid(cs);
    }
  }

  lemma {:induction false} Characters(s: seq<Byte>) returns (cs: seq<Scalar>)
    requires Valid(s)
    ensures s == EncodeAll(cs)
  {
    cs := [];
    if s != [] {
      var n := CharLength(s);
      var c := Character(s);
      var rest := Characters(s[n..]);
      cs := [c] + rest;
      OneMoreEncoded(s, n, c, rest);
    }
  }

  lemma OneMoreEncoded(s: seq<Byte>, n: nat, c: Scalar, cs: seq<Scalar>)
    requires n <= |s| && s[..n] == Encode(c) && s[n..] == EncodeAll(cs)
    ensures s == EncodeAll([c] + cs)
  {
    assert ([c] + cs)[1..] == cs;
    assert s == s[..n] + s[n..];
  }

  lemma Character(s: seq<Byte>) returns (c: Scalar)
    requires s != [] && CharLength(s) > 0
    ensures s[..CharLength(s)] == Encode(c)
  {
    var n := CharLength(s);
    if n == 1 {
      c := s[0];
    } else if n == 2 {
      c := TwoBytes(s[0], s[1]);
    } else if n == 3 {
      c := ThreeBytes(s[0], s[1], s[2]);
    } else {
      c := FourBytes(s[0], s[1], s[2], s[3]);
    }
  }

  lemma TwoBytes(a: Byte, b: Byte) returns (c: Scalar)
    requires 0xC2 <= a <= 0xDF && Cont(b)
    ensures Encode(c) == [a, b]
  {
    c := (a - 0xC0) as int * 0x40 + (b - 0x80) as int;
  }

  lemma ThreeBytes(a: Byte, b: Byte, d: Byte) returns (c: Scalar)
    requires (a == 0xE0 && b >= 0xA0) || 0xE1 <= a <= 0xEC || (a == 0xED && b <= 0x9F) || 0xEE <= a <= 0xEF
    requires Cont(b) && Cont(d)
    ensures Encode(c) == [a, b, d]
  {
    var x: int, y: int, z: int := a - 0xE0, b - 0x80, d - 0x80;
    var n := x * 0x1000 + y * 0x40 + z;
    Digits(x * 0x40 + y, z);
    Digits(x, y);
    NestedDivision(n);
    c := n;
  }

  lemma FourBytes(a: Byte, b: Byte, d: Byte, e: Byte) returns (c: Scalar)
    requires (a == 0xF0 && b >= 0x90) || 0xF1 <= a <= 0xF3 || (a == 0xF4 && b <= 0x8F)
    requires Cont(b) && Cont(d) && Cont(e)
    ensures Encode(c) == [a, b, d, e]
  {
    var x: int, y: int, z: int, w: int := a - 0xF0, b - 0x80, d - 0x80, e - 0x80;
    var n := x * 0x4_0000 + y * 0x1000 + z * 0x40 + w;
    Digits(x * 0x1000 + y * 0x40 + z, w);
    Digits(x * 0x40 + y, z);
    Digits(x, y);
    NestedDivision(n);
    c := n;
  }

  lemma Digits(q: int, r: int)
    requires 0 <= r < 0x40
    ensures (q * 0x40 + r) / 0x40 == q && (q * 0x40 + r) % 0x40 == r
  {
  }

  lemma NestedDivision(n: int)
    ensures n / 0x1000 == n / 0x40 / 0x40 && n / 0x4_0000 == n / 0x40 / 0x40 / 0x40
  {
  }

  lemma EncodedLength(c: Scalar, rest: seq<Byte>)
    ensures CharLength(Encode(c) + rest) == |Encode(c)| > 0
  {
  }

  lemma {:induction false} EncodedIsValid(cs: seq<Scalar>)
    ensures Valid(EncodeAll(cs))
  {
    if cs != [] {
      var e, rest := Encode(cs[0]), EncodeAll(cs[1..]);
      EncodedLength(cs[0], rest);
      EncodedIsValid(cs[1..]);
      assert (e + rest)[|e|..] == rest;
    }
  }
}

/** MBCP floor control messages in RTCP APP packets (mbcp.rs; section 6.7 of RFC 3550). */
module Mbcp {
  import opened Bytes
  import opened Buffers
  import opened RtcpFrames
  import Utf8

  const RTCP_PT_APP: Byte := 204
  const APP_NAME: seq<Byte> := [0x4D, 0x42, 0x43, 0x50]

  /** Text is carried as its UTF-8 bytes. */
  datatype Message = Message(subtype: Byte, ssrc: U32, data: Option<seq<Byte>>)

  function DataBytes(data: Option<seq<Byte>>): seq<Byte> { if data.Some? then data.value else [] }

  function TotalLength(d: seq<Byte>): nat { 12 + (|d| + 3) / 4 * 4 }

  function LengthField(d: seq<Byte>): nat { TotalLength(d) / 4 - 1 }

  /** The packet as one concatenation of fields; the 16-bit length field truncates. */
  function Packet(subtype: Byte, ssrc: U32, data: Option<seq<Byte>>): (p: seq<Byte>)
    ensures |p| == TotalLength(DataBytes(data))
  {
    var d := DataBytes(data);
    [0x80 + subtype % 0x20, RTCP_PT_APP] + Be16(LengthField(d) % 0x1_0000) + Be32(ssrc) + APP_NAME + d + Zeros(Pad4(|d|))
  }

  method Build(subtype: Byte, ssrc: U32, data: Option<seq<Byte>>) returns (buf: array<Byte>)
    ensures fresh(buf) && buf[..] == Packet(subtype, ssrc, data)
  {
    var d := match data case Some(s) => s case None => [];
    var totalLen := 12 + (|d| + 3) / 4 * 4;
    var lengthField := totalLen / 4 - 1;
    buf := ZeroBuffer(totalLen);
    WriteHeader(buf, subtype, ssrc, lengthField % 0x1_0000);
    if d != [] {
      Append(buf, Header(subtype, ssrc, lengthField % 0x1_0000), 12, d);
    }
    PacketLayout(subtype, ssrc, data);
    assert buf[..] == Header(subtype, ssrc, lengthField % 0x1_0000) + d + Zeros(Pad4(|d|));
  }

  function Header(subtype: Byte, ssrc: U32, lengthField: U16): (h: seq<Byte>)
    ensures |h| == 12
  {
    [0x80 + subtype % 0x20, RTCP_PT_APP] + Be16(lengthField) + Be32(ssrc) + APP_NAME
  }

  lemma PacketLayout(subtype: Byte, ssrc: U32, data: Option<seq<Byte>>)
    ensures var d := DataBytes(data);
            && Packet(subtype, ssrc, data) == Header(subtype, ssrc, LengthField(d) % 0x1_0000) + d + Zeros(Pad4(|d|))
            && TotalLength(d) - 12 - |d| == Pad4(|d|)
  {
  }

  method WriteHeader(buf: array<Byte>, subtype: Byte, ssrc: U32, lengthField: U16)
    requires buf.Length >= 12 && buf[..] == Zeros(buf.Length)
    modifies buf
    ensures buf[..] == Header(subtype, ssrc, lengthField) + Zeros(buf.Length - 12)
  {
    ghost var start := [0x80 + subtype % 0x20, RTCP_PT_APP] + Be16(lengthField);
    WriteStart(buf, subtype, lengthField);
    Append(buf, start, 4, Be32(ssrc));
    Append(buf, start + Be32(ssrc), 8, APP_NAME);
  }

  method WriteStart(buf: array<Byte>, subtype: Byte, lengthField: U16)
    requires buf.Length >= 4 && buf[..] == Zeros(buf.Length)
    modifies buf
    ensures buf[..] == [0x80 + subtype % 0x20, RTCP_PT_APP] + Be16(lengthField) + Zeros(buf.Length - 4)
  {
    var first := [0x80 + subtype % 0x20, RTCP_PT_APP];
    assert buf[..] == [] + Zeros(buf.Length);
    Append(buf, [], 0, first);
    Append(buf, first, 2, Be16(lengthField));
  }

  function CutAtNul(raw: seq<Byte>): (t: seq<Byte>)
    ensures t <= raw && 0 !in t && (|t| < |raw| ==> raw[|t|] == 0)
  {
    if raw == [] || raw[0] == 0 then [] else [raw[0]] + CutAtNul(raw[1..])
  }

  function TextOf(raw: seq<Byte>): Option<seq<Byte>>
  {
    var t := CutAtNul(raw);
    if t != [] && Utf8.Valid(t) then Some(t) else None
  }

  function Parse(buf: seq<Byte>): Option<Message>
  {
    if |buf| < 12 || buf[1] != RTCP_PT_APP || buf[8..12] != APP_NAME then None
    else Some(Message(buf[0] % 0x20, ReadBe32(buf, 4), if |buf| > 12 then TextOf(buf[12..]) else None))
  }

  /** What `parse_compound` picks out of one packet. */
  function MessageOf(f: seq<Byte>): seq<Message>
  {
    if |f| >= 4 && f[1] == RTCP_PT_APP && Parse(f).Some? then [Parse(f).value] else []
  }

  /** With `results` found and the loop at `offset`, what is still to come completes the result. */
  ghost predicate Pending(results: seq<Message>, buf: seq<Byte>, offset: nat)
  {
    results + Walk(buf, offset, MessageOf) == Collect(Frames(buf), MessageOf)
  }

  method ParseCompound(buf: seq<Byte>) returns (results: seq<Message>)
    ensures results == Collect(Frames(buf), MessageOf)
  {
    results := [];
    var offset: nat := 0;
    WalkIsCollect(buf, MessageOf);
    assert Pending(results, buf, offset);
    while offset + 4 <= |buf|
      invariant offset <= |buf| && Pending(results, buf, offset)
    {
      var pktLen := LengthAt(buf, offset);
      if pktLen == 0 || offset + pktLen > |buf| { break; }
      results := ParsePacket(results, buf, offset, pktLen);
      offset := offset + pktLen;
    }
    WalkStops(results, buf, offset, MessageOf);
  }

  /** The loop body for one packet. */
  method ParsePacket(results: seq<Message>, buf: seq<Byte>, offset: nat, pktLen: nat) returns (more: seq<Message>)
    requires offset + 4 <= |buf| && offset + pktLen <= |buf| && pktLen == LengthAt(buf, offset)
    requires Pending(results, buf, offset)
    ensures more == results + MessageOf(buf[offset..offset + pktLen]) && Pending(more, buf, offset + pktLen)
  {
    WalkStep(results, buf, offset, MessageOf);
    more := PushMessage(results, buf[offset + 1], buf[offset..offset + pktLen]);
  }

  method PushMessage(results: seq<Message>, pt: Byte, pkt: seq<Byte>) returns (more: seq<Message>)
    requires |pkt| >= 4 && pkt[1] == pt
    ensures more == results + MessageOf(pkt)
  {
    more := results;
    if pt == RTCP_PT_APP {
      var msg := Parse(pkt);
      if msg.Some? {
        more := more + [msg.value];
      }
    }
  }

  // ---- Round trips ----

  /** What a receiver should get: subtype mod 32, and the text up to the first NUL. */
  function Sent(subtype: Byte, ssrc: U32, data: Option<seq<Byte>>): Message
  {
    var t := CutAtNul(DataBytes(data));
    Message(subtype % 0x20, ssrc, if t == [] then None else Some(t))
  }

  lemma {:induction false} PaddingCutsNothing(d: seq<Byte>, n: nat)
    ensures CutAtNul(d + Zeros(n)) == CutAtNul(d)
  {
    if d == [] {
      assert d + Zeros(n) == Zeros(n);
    } else {
      assert (d + Zeros(n))[1..] == d[1..] + Zeros(n);
      PaddingCutsNothing(d[1..], n);
    }
  }

  lemma TextReadsBack(d: seq<Byte>, n: nat)
    requires Utf8.Valid(d)
    ensures var t := CutAtNul(d); TextOf(d + Zeros(n)) == if t == [] then None else Some(t)
  {
    PaddingCutsNothing(d, n);
    CutTextIsValid(d);
  }

  lemma CutTextIsValid(d: seq<Byte>)
    requires Utf8.Valid(d)
    ensures Utf8.Valid(CutAtNul(d))
  {
    var t := CutAtNul(d);
    if |t| < |d| {
      Utf8.CutAtNulStaysValid(d, |t|);
    }
    assert t == d[..|t|];
    assert |t| == |d| ==> t == d;
  }

  /** Parsing one built packet returns the message, whatever its length. */
  lemma ParseInvertsBuild(subtype: Byte, ssrc: U32, data: Option<seq<Byte>>)
    requires Utf8.Valid(DataBytes(data))
    ensures Parse(Packet(subtype, ssrc, data)) == Some(Sent(subtype, ssrc, data))
  {
    var p, d := Packet(subtype, ssrc, data), DataBytes(data);
    PacketFields(subtype, ssrc, data);
    TextReadsBack(d, Pad4(|d|));
    Be32At(p, 4, ssrc);
  }

  lemma PacketFields(subtype: Byte, ssrc: U32, data: Option<seq<Byte>>)
    ensures var p, d := Packet(subtype, ssrc, data), DataBytes(data);
            && p[0] % 0x20 == subtype % 0x20 && p[1] == RTCP_PT_APP
            && p[2..4] == Be16(LengthField(d) % 0x1_0000) && p[4..8] == Be32(ssrc)
            && p[8..12] == APP_NAME && p[12..] == d + Zeros(Pad4(|d|))
  {
  }

  predicate Fits(data: Option<seq<Byte>>) { LengthField(DataBytes(data)) < 0x1_0000 }

  /** A built packet is a well-framed RTCP packet exactly when its length fits the 16-bit field. */
  lemma WellFramedIffFits(subtype: Byte, ssrc: U32, data: Option<seq<Byte>>)
    ensures IsFrame(Packet(subtype, ssrc, data)) <==> Fits(data)
  {
    var p, field := Packet(subtype, ssrc, data), LengthField(DataBytes(data));
    PacketFields(subtype, ssrc, data);
    Be16At(p, 2, field % 0x1_0000);
    assert |p| == (field + 1) * 4;
  }

  datatype Item = Built(subtype: Byte, ssrc: U32, data: Option<seq<Byte>>) | Foreign(frame: seq<Byte>)

  predicate Sendable(x: Item)
  {
    match x
    case Built(_, _, data) => Utf8.Valid(DataBytes(data)) && Fits(data)
    case Foreign(f) => IsFrame(f) && Parse(f).None?
  }

  function BytesOf(x: Item): seq<Byte>
  {
    match x
    case Built(subtype, ssrc, data) => Packet(subtype, ssrc, data)
    case Foreign(f) => f
  }

  function Packets(items: seq<Item>): seq<seq<Byte>>
  {
    if items == [] then [] else [BytesOf(items[0])] + Packets(items[1..])
  }

  function Messages(items: seq<Item>): seq<Message>
  {
    if items == [] then []
    else
      (match items[0] case Built(subtype, ssrc, data) => [Sent(subtype, ssrc, data)] case Foreign(_) => [])
      + Messages(items[1..])
  }

  /** Any compound of built messages and other whole packets, followed by anything, yields the messages first and in order. */
  lemma CompoundRoundTrip(items: seq<Item>, trailer: seq<Byte>)
    requires forall x :: x in items ==> Sendable(x)
    ensures Collect(Frames(Concat(Packets(items))), MessageOf) == Messages(items)
    ensures Messages(items) <= Collect(Frames(Concat(Packets(items)) + trailer), MessageOf)
  {
    PacketsYieldMessages(items);
    FramesOfConcat(Packets(items));
    ResultsExtend(Concat(Packets(items)), trailer, MessageOf);
  }

  lemma {:induction false} PacketsYieldMessages(items: seq<Item>)
    requires forall x :: x in items ==> Sendable(x)
    ensures forall f :: f in Packets(items) ==> IsFrame(f)
    ensures Collect(Packets(items), MessageOf) == Messages(items)
  {
    if items != [] {
      var x := items[0];
      PacketsYieldMessages(items[1..]);
      OneItem(x);
      assert Packets(items)[1..] == Packets(items[1..]);
    }
  }

  lemma OneItem(x: Item)
    requires Sendable(x)
    ensures IsFrame(BytesOf(x))
    ensures MessageOf(BytesOf(x)) == match x case Built(subtype, ssrc, data) => [Sent(subtype, ssrc, data)] case Foreign(_) => []
  {
    if x.Built? {
      ParseInvertsBuild(x.subtype, x.ssrc, x.data);
      WellFramedIffFits(x.subtype, x.ssrc, x.data);
    }
  }
}
