/** The binding request spelled out, as a server finds it. */
module StunLaws {
  import opened Bytes
  import opened Stun

  // ---- Exclusive or, bit by bit ----

  function Bit(n: nat, k: nat): nat { if k == 0 then n % 2 else Bit(n / 2, k - 1) }

  function Pow2(n: nat): (p: nat)
    ensures p >= 1
  {
    if n == 0 then 1 else 2 * Pow2(n - 1)
  }

  /** Below the limit, a bit is set exactly if it is set in one of the two numbers. */
  lemma {:induction false} XorBits(a: nat, b: nat, n: nat, k: nat)
    requires k < n
    ensures Bit(XorBelow(a, b, Pow2(n)), k) == (Bit(a, k) + Bit(b, k)) % 2
  {
    assert Pow2(n) / 2 == Pow2(n - 1) && Pow2(n) > 1;
    var low, high := (a + b) % 2, XorBelow(a / 2, b / 2, Pow2(n - 1));
    assert XorBelow(a, b, Pow2(n)) == low + 2 * high;
    Halves(low, high);
    if k == 0 {
      assert low == (a % 2 + b % 2) % 2;
    } else {
      XorBits(a / 2, b / 2, n - 1, k - 1);
    }
  }

  lemma Halves(low: nat, high: nat)
    requires low < 2
    ensures (low + 2 * high) / 2 == high && (low + 2 * high) % 2 == low
  {
  }

  lemma LimitIsPow2()
    ensures Pow2(32) == 0x1_0000_0000
  {
    assert Pow2(8) == 0x100;
    DoublePow(8, 8);
    DoublePow(16, 16);
  }

  lemma {:induction false} DoublePow(m: nat, n: nat)
    ensures Pow2(m + n) == Pow2(m) * Pow2(n)
  {
    if n > 0 {
      DoublePow(m, n - 1);
      assert Pow2(m + n) == 2 * Pow2(m + n - 1);
      assert Pow2(m) * (2 * Pow2(n - 1)) == 2 * (Pow2(m) * Pow2(n - 1));
    }
  }

  /** Section 14.7: the checksum is combined with 0x5354554e by exclusive or. */
  lemma FingerprintBits(crc: U32, k: nat)
    requires k < 32
    ensures Bit(Fingerprint(crc), k) == (Bit(crc, k) + Bit(0x5354_554E, k)) % 2
  {
    LimitIsPow2();
    XorBits(crc, 0x5354_554E, 32, k);
  }

  // ---- The request ----

  /** The message starts as a binding request with the magic cookie and the transaction id. */
  lemma RequestHeader(body: seq<Byte>, tid: Tid, key: seq<Byte>, hmac: Hmac, crc: Crc)
    ensures var msg := Request(body, tid, key, hmac, crc);
            && |msg| == 20 + |body| + 32
            && msg[..2] == [0, 1] && msg[2..4] == Be16((|msg| - 20) % 0x1_0000)
            && msg[4..8] == [0x21, 0x12, 0xA4, 0x42] && msg[8..20] == tid && msg[20..20 + |body|] == body
  {
    var signed := Signed(body, tid, key, hmac);
    var h := Header(|signed| + 8, tid);
    RequestParts(body, tid, key, hmac, crc);
    HeaderBytes(|signed| + 8, tid);
    assert Request(body, tid, key, hmac, crc)[..20] == h;
  }

  lemma HeaderBytes(length: nat, tid: Tid)
    ensures var h := Header(length, tid);
            h[..2] == [0, 1] && h[2..4] == Be16(length % 0x1_0000) && h[4..8] == [0x21, 0x12, 0xA4, 0x42] && h[8..20] == tid
  {
    assert Be16(0x0001) == [0, 1] && Be32(0x2112_A442) == [0x21, 0x12, 0xA4, 0x42];
  }

  /** A server finds: USERNAME server:client, PRIORITY, ICE-CONTROLLING, USE-CANDIDATE, MESSAGE-INTEGRITY, FINGERPRINT. */
  lemma SixAttributes(server: seq<Byte>, client: seq<Byte>, tid: Tid, tie: TieBreaker, key: seq<Byte>, hmac: Hmac, crc: Crc)
    ensures var body := Encode(Credentials(Username(server, client), tie));
            var msg, mac := Request(body, tid, key, hmac, crc), Mac(body, tid, key, hmac);
            var check := Check(Signed(body, tid, key, hmac), tid, crc);
            Decode(msg) == if |server| + |client| < 65472 then Some(Message(0x0001, tid, Listed(server, client, tie, mac, check)))
                           else None
  {
    RequestDecodesIffFits(Username(server, client), tid, tie, key, hmac, crc);
    FitsIff(server, client);
    AllAreListed(server, client, tid, tie, key, hmac, crc);
  }

  lemma FitsIff(server: seq<Byte>, client: seq<Byte>)
    ensures Fits(Username(server, client)) <==> |server| + |client| < 65472
  {
  }

  function Listed(server: seq<Byte>, client: seq<Byte>, tie: TieBreaker, mac: Digest, check: seq<Byte>): seq<Attribute>
  {
    [Attribute(0x0006, server + [0x3A] + client), Attribute(0x0024, [0x7E, 0xFF, 0xFF, 0xFF]), Attribute(0x802A, tie),
     Attribute(0x0025, []), Attribute(0x0008, mac), Attribute(0x8028, check)]
  }

  lemma AllAreListed(server: seq<Byte>, client: seq<Byte>, tid: Tid, tie: TieBreaker, key: seq<Byte>, hmac: Hmac, crc: Crc)
    ensures var body := Encode(Credentials(Username(server, client), tie));
            AllAttributes(Username(server, client), tid, tie, key, hmac, crc)
              == Listed(server, client, tie, Mac(body, tid, key, hmac), Check(Signed(body, tid, key, hmac), tid, crc))
  {
    assert Be32(2_130_706_431) == [0x7E, 0xFF, 0xFF, 0xFF];
  }

  /** The checksum sent is over the header, already counting the checksum's own attribute, and all before it. */
  lemma CheckedBytes(signed: seq<Byte>, tid: Tid, crc: Crc)
    ensures exists h: seq<Byte> ::
              && |h| == 20 && h[..2] == [0, 1] && h[2..4] == Be16((|signed| + 8) % 0x1_0000)
              && h[4..8] == [0x21, 0x12, 0xA4, 0x42] && h[8..20] == tid
              && Check(signed, tid, crc) == Be32(Fingerprint(crc(h + signed)))
  {
    HeaderBytes(|signed| + 8, tid);
    assert Check(signed, tid, crc) == Be32(Fingerprint(crc(Header(|signed| + 8, tid) + signed)));
  }

  /** What is hashed: the message so far, its length field already counting the attribute that will hold the hash. */
  lemma HashedBytes(body: seq<Byte>, tid: Tid, key: seq<Byte>, hmac: Hmac, crc: Crc)
    ensures exists h: seq<Byte> ::
              && |h| == 20 && h[..2] == [0, 1] && h[2..4] == Be16((|body| + 24) % 0x1_0000)
              && h[4..8] == [0x21, 0x12, 0xA4, 0x42] && h[8..20] == tid && Mac(body, tid, key, hmac) == hmac(h + body, key)
  {
    HeaderBytes(|body| + 24, tid);
    assert Mac(body, tid, key, hmac) == hmac(Header(|body| + 24, tid) + body, key);
  }
}
