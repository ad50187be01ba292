/** Relay tokens (nat/relay_auth.go): their byte format and the HMAC path of generation and verification. */
module RelayAuth {
  import opened Base

  const ID_SIZE := 16
  const MAC_SIZE := 32
  const TOKEN_HEADER := 41

  /** HMAC-SHA256: key and message to 32 bytes. */
  type Mac = (Bytes, Bytes) -> Bytes

  ghost predicate MacSized(mac: Mac) {
    forall key: Bytes, message: Bytes :: |mac(key, message)| == MAC_SIZE
  }

  datatype Token = Token(srcID: Bytes, dstID: Bytes, timestamp: int, signature: Bytes)

  /** What the fixed-size fields of the source's struct can hold. */
  predicate WellFormed(t: Token) {
    |t.srcID| == ID_SIZE && |t.dstID| == ID_SIZE && -TWO_63 <= t.timestamp < TWO_63
  }

  /** An int64 as eight big-endian bytes of its two's complement. */
  function Int64Bytes(x: int): (r: Bytes)
    ensures |r| == 8
  {
    ToBigEndian(x % TWO_64, 8)
  }

  lemma {:induction false} Int64RoundTrip(x: int)
    requires -TWO_63 <= x < TWO_63
    ensures Wrap64(FromBigEndian(Int64Bytes(x))) == x
  {
    assert Pow256(8) == TWO_64 by {
      assert Pow256(4) == 0x1_0000_0000;
      assert Pow256(8) == 256 * 256 * 256 * 256 * Pow256(4);
    }
    BigEndianRoundTrip(x % TWO_64, 8);
  }

  lemma {:induction false} Int64BytesBack(s: Bytes)
    requires |s| == 8
    ensures Int64Bytes(Wrap64(FromBigEndian(s))) == s
  {
    var n := FromBigEndian(s);
    BigEndianBack(s);
    assert Pow256(8) == TWO_64 by {
      assert Pow256(4) == 0x1_0000_0000;
      assert Pow256(8) == 256 * 256 * 256 * 256 * Pow256(4);
    }
    assert Wrap64(n) % TWO_64 == n;
  }

  function Encode(t: Token): Bytes {
    t.srcID + t.dstID + Int64Bytes(t.timestamp) + [|t.signature| % 256] + t.signature
  }

  function Decode(data: Bytes): Option<Token> {
    if |data| < TOKEN_HEADER then None
    else
      var sigLen := data[40] as int;
      if |data| < TOKEN_HEADER + sigLen then None
      else
        Some(Token(data[0..16], data[16..32], Wrap64(FromBigEndian(data[32..40])),
                   data[TOKEN_HEADER..TOKEN_HEADER + sigLen]))
  }

  lemma {:induction false} EncodedParts(t: Token)
    requires WellFormed(t)
    ensures var data := Encode(t);
            && |data| == TOKEN_HEADER + |t.signature|
            && data[0..16] == t.srcID && data[16..32] == t.dstID && data[32..40] == Int64Bytes(t.timestamp)
            && data[40] == |t.signature| % 256 && data[TOKEN_HEADER..] == t.signature
  {
  }

  /** Decoding returns the token with its signature cut to the length its length byte says. */
  lemma {:induction false} DecodeEncoded(t: Token)
    requires WellFormed(t)
    ensures Decode(Encode(t)) == Some(t.(signature := t.signature[..|t.signature| % 256]))
  {
    EncodedParts(t);
    Int64RoundTrip(t.timestamp);
    var data, n := Encode(t), |t.signature| % 256;
    assert data[TOKEN_HEADER..TOKEN_HEADER + n] == data[TOKEN_HEADER..][..n];
  }

  /** A token survives its encoding exactly when the signature is at most 255 bytes long. */
  lemma {:induction false} TokenRoundTrip(t: Token)
    requires WellFormed(t)
    ensures Decode(Encode(t)) == Some(t) <==> |t.signature| <= 255
  {
    DecodeEncoded(t);
    assert |t.signature| <= 255 ==> t.signature[..|t.signature|] == t.signature;
  }

  /** What is signed. */
  function Message(srcID: Bytes, dstID: Bytes, timestamp: int): Bytes {
    srcID + dstID + Int64Bytes(timestamp)
  }

  /** The signed bytes determine both ids and the timestamp. */
  lemma {:induction false} MessageCovers(s: Bytes, d: Bytes, t: int, s': Bytes, d': Bytes, t': int)
    requires |s| == |d| == |s'| == |d'| == ID_SIZE
    requires -TWO_63 <= t < TWO_63 && -TWO_63 <= t' < TWO_63
    ensures Message(s, d, t) == Message(s', d', t') <==> s == s' && d == d' && t == t'
  {
    var m, m' := Message(s, d, t), Message(s', d', t');
    assert m[..16] == s && m[16..32] == d && m[32..] == Int64Bytes(t);
    assert m'[..16] == s' && m'[16..32] == d' && m'[32..] == Int64Bytes(t');
    Int64RoundTrip(t);
    Int64RoundTrip(t');
  }

  /** sharedKey is None when no network password is set; ttl is in seconds. */
  datatype Authenticator = Authenticator(enabled: bool, ttl: int, sharedKey: Option<Bytes>)

  function Generate(mac: Mac, a: Authenticator, srcID: Bytes, dstID: Bytes, now: int): Option<Token> {
    if a.sharedKey.None? || |a.sharedKey.value| == 0 then None
    else Some(Token(srcID, dstID, now, mac(a.sharedKey.value, Message(srcID, dstID, now))))
  }

  datatype Verdict = Valid | Expired | BadSignature | NoMethod

  /** Clocks read as non-negative seconds well inside the 64-bit range. */
  predicate Clock(now: int) {
    0 <= now < TWO_62
  }

  /** The age of a token in 64-bit arithmetic. */
  function Age(now: int, timestamp: int): int {
    var age := Wrap64(now - timestamp);
    if age < 0 then Wrap64(-age) else age
  }

  /**
    Expiry for every timestamp a token can carry: within the lifetime exactly when the clocks differ by at most
    the lifetime, or when the token is dated 2^63 seconds back, whose age overflows to a negative number.
  */
  lemma {:induction false} AgeLaw(now: int, timestamp: int, ttl: int)
    requires Clock(now) && Clock(ttl) && -TWO_63 <= timestamp < TWO_63
    ensures Age(now, timestamp) <= ttl <==> -ttl <= now - timestamp <= ttl || now - timestamp == TWO_63
  {
  }

  /** VerifyToken without a public key. */
  function Verify(mac: Mac, a: Authenticator, t: Token, now: int): Verdict {
    if !a.enabled then Valid
    else if Age(now, t.timestamp) > a.ttl then Expired
    else if a.sharedKey.Some? && |a.sharedKey.value| > 0 && |t.signature| == MAC_SIZE then
      if t.signature == mac(a.sharedKey.value, Message(t.srcID, t.dstID, t.timestamp)) then Valid else BadSignature
    else NoMethod
  }

  /**
    Whatever bytes arrive as a token, an enabled node accepts them exactly when its key signs them and they are
    dated within the lifetime, or 2^63 seconds back.
  */
  lemma {:induction false} AcceptedExactly(mac: Mac, b: Authenticator, data: Bytes, now: int)
    requires MacSized(mac) && Clock(now) && Clock(b.ttl) && b.enabled && Decode(data).Some?
    ensures var t := Decode(data).value;
            Verify(mac, b, t, now) == Valid
            <==> (&& (-b.ttl <= now - t.timestamp <= b.ttl || now - t.timestamp == TWO_63)
                  && b.sharedKey.Some? && |b.sharedKey.value| > 0
                  && t.signature == mac(b.sharedKey.value, Message(t.srcID, t.dstID, t.timestamp)))
  {
    AgeLaw(now, Decode(data).value.timestamp, b.ttl);
  }

  /**
    A generated token presented with any fields, under its own signature, is accepted by an enabled node with the
    same password exactly when no field was changed and the date passes, unless the changed fields happen to have
    the same code.
  */
  lemma {:induction false} TamperedRejected(mac: Mac, a: Authenticator, b: Authenticator, t: Token, shown: Token,
                                            t1: int, now: int)
    requires MacSized(mac) && Clock(now) && Clock(b.ttl) && b.enabled && a.sharedKey == b.sharedKey
    requires WellFormed(t) && Generate(mac, a, t.srcID, t.dstID, t1) == Some(t)
    requires WellFormed(shown) && shown.signature == t.signature
    requires var m, m' := Message(t.srcID, t.dstID, t.timestamp), Message(shown.srcID, shown.dstID, shown.timestamp);
             m != m' ==> mac(a.sharedKey.value, m) != mac(a.sharedKey.value, m')
    ensures Verify(mac, b, shown, now) == Valid
            <==> shown == t && (-b.ttl <= now - t1 <= b.ttl || now - t1 == TWO_63)
  {
    AgeLaw(now, shown.timestamp, b.ttl);
    MessageCovers(t.srcID, t.dstID, t.timestamp, shown.srcID, shown.dstID, shown.timestamp);
  }

  /** Decoding reads the encoding of its result off the front of the data, and fails only on data too short for one. */
  lemma {:induction false} DecodedIsPrefix(data: Bytes)
    ensures match Decode(data)
            case Some(t) => WellFormed(t) && |t.signature| <= 255 && Encode(t) <= data
            case None => |data| < TOKEN_HEADER || |data| < TOKEN_HEADER + data[40] as int
  {
    if Decode(data).Some? {
      var t := Decode(data).value;
      Int64BytesBack(data[32..40]);
      assert data == data[0..16] + data[16..32] + data[32..40] + [data[40]] + data[TOKEN_HEADER..];
    }
  }

  /**
    A generated token is accepted by another node exactly when that node does not check, or its clock is
    within the lifetime and its key gives the same code.
  */
  lemma {:induction false} GeneratedAccepted(mac: Mac, a: Authenticator, b: Authenticator, srcID: Bytes, dstID: Bytes,
                                             t1: int, t2: int)
    requires MacSized(mac) && Clock(t1) && Clock(t2) && Generate(mac, a, srcID, dstID, t1).Some?
    ensures var message := Message(srcID, dstID, t1);
            Verify(mac, b, Generate(mac, a, srcID, dstID, t1).value, t2) == Valid
            <==> (!b.enabled
                  || (-b.ttl <= t2 - t1 <= b.ttl
                      && b.sharedKey.Some? && |b.sharedKey.value| > 0
                      && mac(b.sharedKey.value, message) == mac(a.sharedKey.value, message)))
  {
  }
}
