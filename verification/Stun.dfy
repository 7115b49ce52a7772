/** The STUN binding request builder (stun.rs), read back as RFC 8489 prescribes. */
module Stun {
  import opened Bytes

  const MAGIC_COOKIE: U32 := 0x2112_A442
  const HEADER_SIZE := 20
  const BINDING_REQUEST: U16 := 0x0001
  const ATTR_USERNAME: U16 := 0x0006
  const ATTR_MESSAGE_INTEGRITY: U16 := 0x0008
  const ATTR_PRIORITY: U16 := 0x0024
  const ATTR_USE_CANDIDATE: U16 := 0x0025
  const ATTR_ICE_CONTROLLING: U16 := 0x802A
  const ATTR_FINGERPRINT: U16 := 0x8028
  const PRIORITY: U32 := 2_130_706_431
  const COLON: seq<Byte> := [0x3A]

  type Tid = s: seq<Byte> | |s| == 12 witness Zeros(12)
  type TieBreaker = s: seq<Byte> | |s| == 8 witness Zeros(8)
  type Digest = s: seq<Byte> | |s| == 20 witness Zeros(20)

  /** The keyed hash and the checksum are whatever they are; only their result sizes matter. */
  type Hmac = (seq<Byte>, seq<Byte>) -> Digest
  type Crc = seq<Byte> -> U32

  const FINGERPRINT_XOR: U32 := 0x5354_554E

  /** Bitwise exclusive or of the bits below `limit`, a power of two. */
  function XorBelow(a: nat, b: nat, limit: nat): (r: nat)
    requires limit >= 1
    ensures r < limit
  {
    if limit == 1 then 0 else (a + b) % 2 + 2 * XorBelow(a / 2, b / 2, limit / 2)
  }

  function Fingerprint(crc: U32): U32 { XorBelow(crc, FINGERPRINT_XOR, 0x1_0000_0000) }

  /** One attribute: type, length, value, padding to four bytes (section 14). */
  function Attr(kind: U16, value: seq<Byte>): (a: seq<Byte>)
    ensures |a| == 4 + |value| + Pad4(|value|) && |a| % 4 == 0
  {
    FourMore(|value| + Pad4(|value|));
    Be16(kind) + Be16(|value| % 0x1_0000) + value + Zeros(Pad4(|value|))
  }

  lemma FourMore(n: nat)
    requires n % 4 == 0
    ensures (4 + n) % 4 == 0
  {
  }

  function Header(length: nat, tid: Tid): (h: seq<Byte>)
    ensures |h| == HEADER_SIZE
  {
    Be16(BINDING_REQUEST) + Be16(length % 0x1_0000) + Be32(MAGIC_COOKIE) + tid
  }

  function WithLength(buf: seq<Byte>, length: nat): seq<Byte>
    requires |buf| >= 4
  {
    buf[..2] + Be16(length % 0x1_0000) + buf[4..]
  }

  function Username(server: seq<Byte>, client: seq<Byte>): seq<Byte> { server + COLON + client }

  datatype Attribute = Attribute(kind: U16, value: seq<Byte>)

  function Encode(attrs: seq<Attribute>): seq<Byte>
  {
    if attrs == [] then [] else Attr(attrs[0].kind, attrs[0].value) + Encode(attrs[1..])
  }

  /** The attributes before MESSAGE-INTEGRITY. */
  function Credentials(username: seq<Byte>, tie: TieBreaker): seq<Attribute>
  {
    [Attribute(ATTR_USERNAME, username), Attribute(ATTR_PRIORITY, Be32(PRIORITY)),
     Attribute(ATTR_ICE_CONTROLLING, tie), Attribute(ATTR_USE_CANDIDATE, [])]
  }

  /** The finished request, stage by stage: each hash covers a header already counting its own attribute. */
  function Mac(body: seq<Byte>, tid: Tid, key: seq<Byte>, hmac: Hmac): Digest
  {
    hmac(Header(|body| + 24, tid) + body, key)
  }

  function Signed(body: seq<Byte>, tid: Tid, key: seq<Byte>, hmac: Hmac): seq<Byte>
  {
    body + Attr(ATTR_MESSAGE_INTEGRITY, Mac(body, tid, key, hmac))
  }

  function Check(signed: seq<Byte>, tid: Tid, crc: Crc): seq<Byte>
  {
    Be32(Fingerprint(crc(Header(|signed| + 8, tid) + signed)))
  }

  function Request(body: seq<Byte>, tid: Tid, key: seq<Byte>, hmac: Hmac, crc: Crc): seq<Byte>
  {
    var signed := Signed(body, tid, key, hmac);
    Header(|signed| + 8, tid) + signed + Attr(ATTR_FINGERPRINT, Check(signed, tid, crc))
  }

  /** The growing buffer that attributes are appended to and whose length field is patched. */
  class MessageBuffer {
    var buf: seq<Byte>

    constructor (tid: Tid)
      ensures buf == Header(0, tid)
    {
      buf := Be16(BINDING_REQUEST) + Be16(0) + Be32(MAGIC_COOKIE) + tid;
    }

    method WriteAttr(kind: U16, value: seq<Byte>)
      modifies this
      ensures buf == old(buf) + Attr(kind, value)
    {
      buf := buf + Be16(kind);
      buf := buf + Be16(|value| % 0x1_0000);
      buf := buf + value;
      var padding := (4 - |value| % 4) % 4;
      buf := buf + Zeros(padding);
      assert buf == old(buf) + Attr(kind, value);
    }

    method PatchLength(length: nat)
      requires |buf| >= 4
      modifies this
      ensures buf == WithLength(old(buf), length)
    {
      buf := buf[..2] + Be16(length % 0x1_0000) + buf[4..];
    }
  }

  method BuildBindingRequest(serverUfrag: seq<Byte>, clientUfrag: seq<Byte>, serverPwd: seq<Byte>,
                             tid: Tid, tie: TieBreaker, hmac: Hmac, crc: Crc) returns (msg: seq<Byte>)
    ensures msg == Request(Encode(Credentials(Username(serverUfrag, clientUfrag), tie)), tid, serverPwd, hmac, crc)
  {
    var m := new MessageBuffer(tid);
    var username := serverUfrag + COLON + clientUfrag;
    m.WriteAttr(ATTR_USERNAME, username);
    m.WriteAttr(ATTR_PRIORITY, Be32(PRIORITY));
    m.WriteAttr(ATTR_ICE_CONTROLLING, tie);
    m.WriteAttr(ATTR_USE_CANDIDATE, []);
    CredentialBytes(Header(0, tid), username, tie);
    Finish(m, Encode(Credentials(username, tie)), tid, serverPwd, hmac, crc);
    msg := m.buf;
  }

  /** The integrity tag and the fingerprint, each behind a length field patched to cover it. */
  method Finish(m: MessageBuffer, ghost body: seq<Byte>, ghost tid: Tid, key: seq<Byte>, hmac: Hmac, crc: Crc)
    requires m.buf == Header(0, tid) + body
    modifies m
    ensures m.buf == Request(body, tid, key, hmac, crc)
  {
    PatchedHeader(0, |body| + 24, tid, body);
    m.PatchLength(|m.buf| - HEADER_SIZE + 24);
    var mac := hmac(m.buf, key);
    m.WriteAttr(ATTR_MESSAGE_INTEGRITY, mac);
    ghost var signed := Signed(body, tid, key, hmac);
    assert m.buf == Header(|body| + 24, tid) + signed;

    PatchedHeader(|body| + 24, |signed| + 8, tid, signed);
    m.PatchLength(|m.buf| - HEADER_SIZE + 8);
    var check := Fingerprint(crc(m.buf));
    m.WriteAttr(ATTR_FINGERPRINT, Be32(check));
    ghost var full := signed + Attr(ATTR_FINGERPRINT, Be32(check));
    assert m.buf == Header(|signed| + 8, tid) + full;

    PatchedHeader(|signed| + 8, |full|, tid, full);
    m.PatchLength(|m.buf| - HEADER_SIZE);
    assert Header(|full|, tid) + full == Header(|full|, tid) + signed + Attr(ATTR_FINGERPRINT, Be32(check));
  }

  lemma CredentialBytes(h: seq<Byte>, username: seq<Byte>, tie: TieBreaker)
    ensures h + Attr(ATTR_USERNAME, username) + Attr(ATTR_PRIORITY, Be32(PRIORITY))
            + Attr(ATTR_ICE_CONTROLLING, tie) + Attr(ATTR_USE_CANDIDATE, [])
         == h + Encode(Credentials(username, tie))
    ensures |Encode(Credentials(username, tie))| == 28 + |username| + Pad4(|username|)
  {
    var c := Credentials(username, tie);
    assert c[1..][1..] == c[2..] && c[2..][1..] == c[3..] && c[3..][1..] == [];
    assert Encode(c[3..]) == Attr(ATTR_USE_CANDIDATE, []) + [];
    assert Encode(c[2..]) == Attr(ATTR_ICE_CONTROLLING, tie) + Encode(c[3..]);
    assert Encode(c[1..]) == Attr(ATTR_PRIORITY, Be32(PRIORITY)) + Encode(c[2..]);
  }

  lemma PatchedHeader(was: nat, length: nat, tid: Tid, body: seq<Byte>)
    ensures WithLength(Header(was, tid) + body, length) == Header(length, tid) + body
  {
    var h := Header(was, tid);
    assert (h + body)[..2] == Be16(BINDING_REQUEST);
    assert (h + body)[4..] == Be32(MAGIC_COOKIE) + tid + body;
  }

  // ---- Reading a message as RFC 8489 prescribes ----

  function AttributeSize(b: seq<Byte>): nat
    requires |b| >= 4
  {
    4 + ReadBe16(b, 2) + Pad4(ReadBe16(b, 2))
  }

  /** The TLV walk of section 14; fails unless the bytes are exactly a list of attributes. */
  function Attributes(b: seq<Byte>): Option<seq<Attribute>>
  {
    if b == [] then Some([])
    else if |b| < 4 || AttributeSize(b) > |b| then None
    else
      match Attributes(b[AttributeSize(b)..])
      case None => None
      case Some(rest) => Some([Attribute(ReadBe16(b, 0), b[4..4 + ReadBe16(b, 2)])] + rest)
  }

  datatype Message = Message(kind: U16, tid: seq<Byte>, attributes: seq<Attribute>)

  /** Section 5: the magic cookie, and a length field that covers exactly what follows the header. */
  function Decode(msg: seq<Byte>): Option<Message>
  {
    if |msg| < HEADER_SIZE || ReadBe32(msg, 4) != MAGIC_COOKIE || ReadBe16(msg, 2) != |msg| - HEADER_SIZE then None
    else
      match Attributes(msg[HEADER_SIZE..])
      case None => None
      case Some(attrs) => Some(Message(ReadBe16(msg, 0), msg[8..20], attrs))
  }

  /** Where the first attribute of a kind starts within a list of attributes. */
  function OffsetOf(b: seq<Byte>, kind: U16): Option<nat>
  {
    if |b| < 4 || AttributeSize(b) > |b| then None
    else if ReadBe16(b, 0) == kind then Some(0)
    else
      match OffsetOf(b[AttributeSize(b)..], kind)
      case None => None
      case Some(n) => Some(AttributeSize(b) + n)
  }

  /** Section 14.5: the HMAC covers the message before the attribute, with the length set to end just after it. */
  predicate IntegrityHolds(msg: seq<Byte>, key: seq<Byte>, hmac: Hmac)
  {
    && |msg| >= HEADER_SIZE
    && match OffsetOf(msg[HEADER_SIZE..], ATTR_MESSAGE_INTEGRITY)
       case None => false
       case Some(n) =>
         && HEADER_SIZE + n + 24 <= |msg|
         && msg[HEADER_SIZE + n + 4..HEADER_SIZE + n + 24] == hmac(WithLength(msg[..HEADER_SIZE + n], n + 24), key)
  }

  /** Section 14.7: the last attribute is the checksum of the message before it, length field as sent. */
  predicate FingerprintHolds(msg: seq<Byte>, crc: Crc)
  {
    && |msg| >= HEADER_SIZE + 8
    && msg[|msg| - 8..] == Attr(ATTR_FINGERPRINT, Be32(Fingerprint(crc(msg[..|msg| - 8]))))
  }

  // ---- The walk over built attributes ----

  lemma AttrReadsBack(kind: U16, value: seq<Byte>, rest: seq<Byte>)
    requires |value| < 0x1_0000
    ensures var b := Attr(kind, value) + rest;
            && AttributeSize(b) == |Attr(kind, value)|
            && ReadBe16(b, 0) == kind && ReadBe16(b, 2) == |value| && b[4..4 + |value|] == value
            && b[AttributeSize(b)..] == rest
  {
    var a := Attr(kind, value);
    var b := a + rest;
    assert b[0..2] == a[0..2] == Be16(kind);
    assert b[2..4] == a[2..4] == Be16(|value|);
    Be16At(b, 0, kind);
    Be16At(b, 2, |value|);
    assert b[4..4 + |value|] == a[4..4 + |value|] == value;
  }

  predicate Encodable(attrs: seq<Attribute>) { forall a :: a in attrs ==> |a.value| < 0x1_0000 }

  /** The walk inverts the encoding of any list of attributes. */
  lemma {:induction false} WalkInvertsEncode(attrs: seq<Attribute>)
    requires Encodable(attrs)
    ensures Attributes(Encode(attrs)) == Some(attrs)
  {
    if attrs != [] {
      WalkInvertsEncode(attrs[1..]);
      WalkOne(attrs[0], Encode(attrs[1..]), attrs[1..]);
      assert attrs == [attrs[0]] + attrs[1..];
    }
  }

  lemma WalkOne(a: Attribute, rest: seq<Byte>, more: seq<Attribute>)
    requires |a.value| < 0x1_0000 && Attributes(rest) == Some(more)
    ensures Attributes(Attr(a.kind, a.value) + rest) == Some([a] + more)
  {
    AttrReadsBack(a.kind, a.value, rest);
  }

  lemma OffsetHere(kind: U16, value: seq<Byte>, rest: seq<Byte>)
    requires |value| < 0x1_0000
    ensures OffsetOf(Attr(kind, value) + rest, kind) == Some(0)
  {
    AttrReadsBack(kind, value, rest);
  }

  lemma OffsetPast(b: seq<Byte>, a: Attribute, rest: seq<Byte>, kind: U16, n: nat)
    requires |a.value| < 0x1_0000 && a.kind != kind && OffsetOf(rest, kind) == Some(n)
    requires b == Attr(a.kind, a.value) + rest
    ensures OffsetOf(b, kind) == Some(|Attr(a.kind, a.value)| + n)
  {
    AttrReadsBack(a.kind, a.value, rest);
  }

  lemma {:induction false} EncodeConcat(a: seq<Attribute>, b: seq<Attribute>)
    ensures Encode(a + b) == Encode(a) + Encode(b)
  {
    if a == [] {
      assert a + b == b;
    } else {
      assert (a + b)[1..] == a[1..] + b;
      EncodeConcat(a[1..], b);
    }
  }

  /** The walk finds an attribute behind others of different kinds. */
  lemma {:induction false} OffsetBehind(before: seq<Attribute>, kind: U16, value: seq<Byte>, rest: seq<Byte>)
    requires Encodable(before) && |value| < 0x1_0000 && forall a :: a in before ==> a.kind != kind
    ensures OffsetOf(Encode(before) + (Attr(kind, value) + rest), kind) == Some(|Encode(before)|)
  {
    var found := Attr(kind, value) + rest;
    if before == [] {
      OffsetHere(kind, value, rest);
      assert Encode(before) + found == found;
    } else {
      assert before[0] in before;
      OffsetBehind(before[1..], kind, value, rest);
      OffsetOneFurther(before, found, kind);
    }
  }

  lemma OffsetOneFurther(before: seq<Attribute>, found: seq<Byte>, kind: U16)
    requires before != [] && |before[0].value| < 0x1_0000 && before[0].kind != kind
    requires OffsetOf(Encode(before[1..]) + found, kind) == Some(|Encode(before[1..])|)
    ensures OffsetOf(Encode(before) + found, kind) == Some(|Encode(before)|)
  {
    EncodedFront(before, found);
    OffsetPast(Encode(before) + found, before[0], Encode(before[1..]) + found, kind, |Encode(before[1..])|);
  }

  lemma EncodedFront(attrs: seq<Attribute>, rest: seq<Byte>)
    requires attrs != []
    ensures Encode(attrs) + rest == Attr(attrs[0].kind, attrs[0].value) + (Encode(attrs[1..]) + rest)
  {
  }

  // ---- The main results ----

  /** The attributes of a request together fit the 16-bit length field. */
  predicate Fits(username: seq<Byte>) { 60 + |username| + Pad4(|username|) < 0x1_0000 }

  /** The six attributes, in order. */
  function AllAttributes(username: seq<Byte>, tid: Tid, tie: TieBreaker, key: seq<Byte>, hmac: Hmac, crc: Crc): seq<Attribute>
  {
    var body := Encode(Credentials(username, tie));
    Credentials(username, tie)
    + [Attribute(ATTR_MESSAGE_INTEGRITY, Mac(body, tid, key, hmac)),
       Attribute(ATTR_FINGERPRINT, Check(Signed(body, tid, key, hmac), tid, crc))]
  }

  lemma HeaderReadsBack(length: nat, tid: Tid, body: seq<Byte>)
    ensures var msg := Header(length, tid) + body;
            && ReadBe16(msg, 0) == BINDING_REQUEST && ReadBe16(msg, 2) == length % 0x1_0000
            && ReadBe32(msg, 4) == MAGIC_COOKIE && msg[8..20] == tid && msg[HEADER_SIZE..] == body
  {
    var h := Header(length, tid);
    var msg := h + body;
    assert msg[0..2] == h[0..2] == Be16(BINDING_REQUEST);
    assert msg[2..4] == h[2..4] == Be16(length % 0x1_0000);
    assert msg[4..8] == h[4..8] == Be32(MAGIC_COOKIE);
    assert msg[8..20] == h[8..20] == tid;
    Be16At(msg, 0, BINDING_REQUEST);
    Be16At(msg, 2, length % 0x1_0000);
    Be32At(msg, 4, MAGIC_COOKIE);
  }

  lemma RequestShape(username: seq<Byte>, tid: Tid, tie: TieBreaker, key: seq<Byte>, hmac: Hmac, crc: Crc)
    ensures var body := Encode(Credentials(username, tie));
            var tail := Attr(ATTR_MESSAGE_INTEGRITY, Mac(body, tid, key, hmac))
                      + Attr(ATTR_FINGERPRINT, Check(Signed(body, tid, key, hmac), tid, crc));
            && |body| == 28 + |username| + Pad4(|username|) && |tail| == 32
            && Request(body, tid, key, hmac, crc) == Header(|body| + 32, tid) + (body + tail)
            && Encode(AllAttributes(username, tid, tie, key, hmac, crc)) == body + tail
  {
    var c, body := Credentials(username, tie), Encode(Credentials(username, tie));
    var mac, check := Mac(body, tid, key, hmac), Check(Signed(body, tid, key, hmac), tid, crc);
    CredentialBytes([], username, tie);
    EncodeConcat(c, [Attribute(ATTR_MESSAGE_INTEGRITY, mac), Attribute(ATTR_FINGERPRINT, check)]);
    TwoEncoded(ATTR_MESSAGE_INTEGRITY, mac, ATTR_FINGERPRINT, check);
    Regroup(Header(|body| + 32, tid), body, Attr(ATTR_MESSAGE_INTEGRITY, mac), Attr(ATTR_FINGERPRINT, check));
  }

  lemma TwoEncoded(k: U16, v: seq<Byte>, l: U16, w: seq<Byte>)
    ensures Encode([Attribute(k, v), Attribute(l, w)]) == Attr(k, v) + Attr(l, w)
  {
    var two := [Attribute(k, v), Attribute(l, w)];
    assert two[1..] == [Attribute(l, w)] && two[1..][1..] == [];
    assert Encode(two[1..]) == Attr(l, w) + [];
  }

  lemma Regroup(h: seq<Byte>, a: seq<Byte>, b: seq<Byte>, c: seq<Byte>)
    ensures h + (a + b) + c == h + (a + (b + c))
  {
  }

  lemma DecodeInvertsEncode(attrs: seq<Attribute>, tid: Tid)
    ensures |Encode(attrs)| >= 0x1_0000 ==> Decode(Header(|Encode(attrs)|, tid) + Encode(attrs)) == None
    ensures |Encode(attrs)| < 0x1_0000 && Encodable(attrs) ==>
              Decode(Header(|Encode(attrs)|, tid) + Encode(attrs)) == Some(Message(BINDING_REQUEST, tid, attrs))
  {
    if Encodable(attrs) {
      WalkInvertsEncode(attrs);
    }
    DecodeSized(Encode(attrs), attrs, tid);
  }

  lemma DecodeSized(body: seq<Byte>, attrs: seq<Attribute>, tid: Tid)
    ensures |body| >= 0x1_0000 ==> Decode(Header(|body|, tid) + body) == None
    ensures |body| < 0x1_0000 && Attributes(body) == Some(attrs) ==>
              Decode(Header(|body|, tid) + body) == Some(Message(BINDING_REQUEST, tid, attrs))
  {
    HeaderReadsBack(|body|, tid, body);
    DecodeFields(Header(|body|, tid) + body, body, attrs, tid);
  }

  lemma DecodeFields(msg: seq<Byte>, body: seq<Byte>, attrs: seq<Attribute>, tid: Tid)
    requires |msg| == HEADER_SIZE + |body| && msg[8..20] == tid && msg[HEADER_SIZE..] == body
    requires ReadBe16(msg, 0) == BINDING_REQUEST && ReadBe16(msg, 2) == |body| % 0x1_0000 && ReadBe32(msg, 4) == MAGIC_COOKIE
    ensures |body| >= 0x1_0000 ==> Decode(msg) == None
    ensures |body| < 0x1_0000 && Attributes(body) == Some(attrs) ==> Decode(msg) == Some(Message(BINDING_REQUEST, tid, attrs))
  {
  }

  /** A request decodes to exactly the six attributes in order if and only if they fit the length field. */
  lemma RequestDecodesIffFits(username: seq<Byte>, tid: Tid, tie: TieBreaker, key: seq<Byte>, hmac: Hmac, crc: Crc)
    ensures Decode(Request(Encode(Credentials(username, tie)), tid, key, hmac, crc))
         == if Fits(username) then Some(Message(BINDING_REQUEST, tid, AllAttributes(username, tid, tie, key, hmac, crc)))
            else None
  {
    RequestShape(username, tid, tie, key, hmac, crc);
    DecodeInvertsEncode(AllAttributes(username, tid, tie, key, hmac, crc), tid);
  }

  /** A server that follows sections 14.5 and 14.7 accepts both the integrity tag and the fingerprint. */
  lemma RequestVerifies(username: seq<Byte>, tid: Tid, tie: TieBreaker, key: seq<Byte>, hmac: Hmac, crc: Crc)
    requires Fits(username)
    ensures IntegrityHolds(Request(Encode(Credentials(username, tie)), tid, key, hmac, crc), key, hmac)
    ensures FingerprintHolds(Request(Encode(Credentials(username, tie)), tid, key, hmac, crc), crc)
  {
    RequestIntegrity(Credentials(username, tie), tid, key, hmac, crc);
    RequestFingerprint(Encode(Credentials(username, tie)), tid, key, hmac, crc);
  }

  lemma RequestFingerprint(body: seq<Byte>, tid: Tid, key: seq<Byte>, hmac: Hmac, crc: Crc)
    ensures FingerprintHolds(Request(body, tid, key, hmac, crc), crc)
  {
    var signed := Signed(body, tid, key, hmac);
    FingerprintBytes(Header(|signed| + 8, tid), signed, Attr(ATTR_FINGERPRINT, Check(signed, tid, crc)));
  }

  lemma RequestIntegrity(before: seq<Attribute>, tid: Tid, key: seq<Byte>, hmac: Hmac, crc: Crc)
    requires Encodable(before) && forall a :: a in before ==> a.kind != ATTR_MESSAGE_INTEGRITY
    ensures IntegrityHolds(Request(Encode(before), tid, key, hmac, crc), key, hmac)
  {
    var body := Encode(before);
    var signed := Signed(body, tid, key, hmac);
    var h, mac, f := Header(|signed| + 8, tid), Mac(body, tid, key, hmac), Attr(ATTR_FINGERPRINT, Check(signed, tid, crc));
    assert mac == hmac(WithLength(h + body, |body| + 24), key) by { PatchedHeader(|signed| + 8, |body| + 24, tid, body); }
    assert Request(body, tid, key, hmac, crc) == h + (body + (Attr(ATTR_MESSAGE_INTEGRITY, mac) + f)) by {
      RequestParts(body, tid, key, hmac, crc);
    }
    OffsetBehind(before, ATTR_MESSAGE_INTEGRITY, mac, f);
    SignedVerifies(Request(body, tid, key, hmac, crc), h, body, mac, f, key, hmac);
  }

  lemma RequestParts(body: seq<Byte>, tid: Tid, key: seq<Byte>, hmac: Hmac, crc: Crc)
    ensures var signed := Signed(body, tid, key, hmac);
            Request(body, tid, key, hmac, crc)
              == Header(|signed| + 8, tid) + (body + (Attr(ATTR_MESSAGE_INTEGRITY, Mac(body, tid, key, hmac))
                                                      + Attr(ATTR_FINGERPRINT, Check(signed, tid, crc))))
  {
    var signed := Signed(body, tid, key, hmac);
    Regroup(Header(|signed| + 8, tid), body, Attr(ATTR_MESSAGE_INTEGRITY, Mac(body, tid, key, hmac)),
            Attr(ATTR_FINGERPRINT, Check(signed, tid, crc)));
  }

  lemma SignedVerifies(msg: seq<Byte>, h: seq<Byte>, body: seq<Byte>, mac: Digest, f: seq<Byte>, key: seq<Byte>, hmac: Hmac)
    requires msg == h + (body + (Attr(ATTR_MESSAGE_INTEGRITY, mac) + f))
    requires |h| == HEADER_SIZE && mac == hmac(WithLength(h + body, |body| + 24), key)
    requires OffsetOf(body + (Attr(ATTR_MESSAGE_INTEGRITY, mac) + f), ATTR_MESSAGE_INTEGRITY) == Some(|body|)
    ensures IntegrityHolds(msg, key, hmac)
  {
    IntegrityBytes(h, body, mac, f);
    IntegrityAt(msg, |body|, key, hmac);
  }

  lemma IntegrityAt(msg: seq<Byte>, n: nat, key: seq<Byte>, hmac: Hmac)
    requires HEADER_SIZE + n + 24 <= |msg| && OffsetOf(msg[HEADER_SIZE..], ATTR_MESSAGE_INTEGRITY) == Some(n)
    requires msg[HEADER_SIZE + n + 4..HEADER_SIZE + n + 24] == hmac(WithLength(msg[..HEADER_SIZE + n], n + 24), key)
    ensures IntegrityHolds(msg, key, hmac)
  {
  }

  lemma IntegrityBytes(h: seq<Byte>, body: seq<Byte>, mac: Digest, f: seq<Byte>)
    requires |h| == HEADER_SIZE
    ensures var msg := h + (body + (Attr(ATTR_MESSAGE_INTEGRITY, mac) + f));
            && HEADER_SIZE + |body| + 24 <= |msg| && msg[..HEADER_SIZE + |body|] == h + body
            && msg[HEADER_SIZE..] == body + (Attr(ATTR_MESSAGE_INTEGRITY, mac) + f)
            && msg[HEADER_SIZE + |body| + 4..HEADER_SIZE + |body| + 24] == mac
  {
  }

  lemma FingerprintBytes(h: seq<Byte>, signed: seq<Byte>, f: seq<Byte>)
    requires |f| == 8
    ensures var msg := h + signed + f; msg[|msg| - 8..] == f && msg[..|msg| - 8] == h + signed
  {
  }
}
