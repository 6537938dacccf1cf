/** What accepting a token means, for every token, and what an issued token consists of, byte by byte. */
module TokenAcceptance {
  import opened Bytes
  import opened Claims
  import opened Issuance
  import opened Ratchet
  import opened Token
  import opened TokenVerify
  import opened Wrappers

  // ---------- every token ----------

  /** At most five seconds early and not past its lifetime, in u64 sums. */
  predicate InLifetime(h: Header, now: Word64) {
    h.issuedAt <= (now + 5_000_000) % U64 && now <= (h.issuedAt + h.ttl * 1_000_000) % U64
  }

  /** What the cipher gets out of the payload with the nonce derived from the header's. */
  function Plain(c: Crypto, t: RawToken, key: Digest): Option<ByteString> {
    c.aead.open(key, c.sha(t.header.nonce)[..24], t.payload)
  }

  /** The public key accepts the signature of exactly the bytes a signer signs. */
  predicate SignedBy(s: Scheme, t: RawToken, vk: ByteString) {
    s.verify(vk, Signed(t.header, t.payload), t.signature)
  }

  /** Everything a token must satisfy to be accepted with output `o`. */
  predicate Genuine(c: Crypto, s: Scheme, t: RawToken, vk: ByteString, key: Digest, chain: nat, now: Word64, o: Output) {
    && SignedBy(s, t, vk)
    && Certified(t.header.nonce)
    && InLifetime(t.header, now)
    && t.header.mutationCtr > chain
    && Plain(c, t, key).Some? && Decoded(c.utf8, Plain(c, t, key).value) == Ok(o.claims)
    && o.issuedAt == t.header.issuedAt && o.ttl == t.header.ttl && o.mutationCtr == t.header.mutationCtr
  }

  /**
   For every token whatsoever: either order accepts it, with output `o`, if and only if the public key accepts the signature
   of its bytes, its nonce is certified, the time lies in its lifetime, its counter is beyond the verifier's, the cipher
   opens its payload under the key, and `o` is the claims that decode from there with the header's own fields; the Falcon
   order moreover wants its own suite.
   */
  lemma AcceptsIff(c: Crypto, s: Scheme, suite: Suite, t: RawToken, vk: ByteString, key: Digest, chain: nat, now: Word64, o: Output)
    ensures VerifyToken(c, s, t, vk, key, chain, now) == Ok(o) <==> Genuine(c, s, t, vk, key, chain, now, o)
    ensures VerifyFalcon(c, s, suite, t, vk, key, chain, now) == Ok(o)
       <==> t.header.suite == suite && Genuine(c, s, t, vk, key, chain, now, o)
  {
    hide Certified, Signed, Decoded;
  }

  /** A signature that the public key does not accept, on whatever else: never accepted. */
  lemma ForgedIsRefused(c: Crypto, s: Scheme, suite: Suite, t: RawToken, vk: ByteString, key: Digest, chain: nat, now: Word64)
    requires !SignedBy(s, t, vk)
    ensures VerifyToken(c, s, t, vk, key, chain, now).Err? && VerifyFalcon(c, s, suite, t, vk, key, chain, now).Err?
  {
    if VerifyToken(c, s, t, vk, key, chain, now).Ok? {
      AcceptsIff(c, s, suite, t, vk, key, chain, now, VerifyToken(c, s, t, vk, key, chain, now).value);
    }
    if VerifyFalcon(c, s, suite, t, vk, key, chain, now).Ok? {
      AcceptsIff(c, s, suite, t, vk, key, chain, now, VerifyFalcon(c, s, suite, t, vk, key, chain, now).value);
    }
    hide VerifyToken, VerifyFalcon;
  }

  /** Which fault a refused token is told: the first layer, in the order of the path, that it fails. */
  lemma FaultIsFirstFailure(c: Crypto, s: Scheme, suite: Suite, t: RawToken, vk: ByteString, key: Digest, chain: nat, now: Word64)
    ensures var r, h := VerifyToken(c, s, t, vk, key, chain, now), t.header;
      && (r == Err(BadEntropy) <==> !Certified(h.nonce))
      && (r == Err(NotYetValid) <==> Certified(h.nonce) && h.issuedAt > (now + 5_000_000) % U64)
      && (r == Err(SignatureInvalid) <==> Certified(h.nonce) && InLifetime(h, now) && !SignedBy(s, t, vk))
    ensures var r, h := VerifyFalcon(c, s, suite, t, vk, key, chain, now), t.header;
      && (h.suite != suite <==> r.Err? && r.error.WrongSuite?)
      && (r == Err(SignatureInvalid) <==> h.suite == suite && !SignedBy(s, t, vk))
      && (r == Err(BadEntropy) <==> h.suite == suite && SignedBy(s, t, vk) && !Certified(h.nonce))
    ensures Certified(t.header.nonce) && SignedBy(s, t, vk) && InLifetime(t.header, now) && t.header.suite == suite ==>
      var r := VerifyToken(c, s, t, vk, key, chain, now);
      && r == VerifyFalcon(c, s, suite, t, vk, key, chain, now)
      && (r == Err(DecryptionFailed) <==> Plain(c, t, key).None?)
      && (r == Err(ReplayDetected(t.header.mutationCtr, chain)) <==> Plain(c, t, key).Some? && t.header.mutationCtr <= chain)
  {
    hide Certified, Signed, Decoded;
  }

  // ---------- which requests are issued ----------

  /**
   A token is issued if and only if the nonce is certified, there are at most 15 claims of at most 255 bytes each way, and
   the cipher and the signer do their part; otherwise the first of these that fails is named. The chain has advanced by one
   step unless it was the nonce.
   */
  lemma IssuesIff(c: Crypto, s: Scheme, q: Request, p: Position)
    requires p.counter < U64 - 1 && Walk(q.claims, q.order)
    ensures
      var (p', r) := Issued(c, s, q, p);
      var caps := |q.claims| <= 15 && forall k | k in q.claims :: |k| <= 255 && |q.claims[k]| <= 255;
      var plain := Encoded(q.claims, q.order);
      && p' == (if Certified(q.nonce) then Advanced(c.sha, p) else p)
      && (plain.Ok? <==> caps)
      && (r == Err(LowEntropy) <==> !Certified(q.nonce))
      && (r.Err? && r.error.BadClaims? <==> Certified(q.nonce) && !caps)
      && (caps && Certified(q.nonce) ==> SealsAndSigns(c, s, q, p.counter + 1, plain.value, r))
  {
    EncodesIff(q.claims, q.order);
    hide Certified, Signed, Encoded, DeriveNext, SealsAndSigns, HeaderOf, AeadNonce;
    if Certified(q.nonce) && Encoded(q.claims, q.order).Ok? {
      SealedAndSigned(c, s, q, p);
    }
  }

  /** The claims sealed with the nonce's hash, and the bytes of header and payload signed; or which of the two failed. */
  predicate SealsAndSigns(c: Crypto, s: Scheme, q: Request, counter: Word64, plain: ByteString, r: Result<RawToken, IssueError>) {
    match c.aead.seal(q.key, c.sha(q.nonce)[..24], plain)
    case None => r == Err(SealFailed)
    case Some(payload) =>
      var h := HeaderOf(c, q, counter);
      match s.sign(q.sk, Signed(h, payload), q.coins)
      case None => r == Err(SignFailed)
      case Some(sig) => r == Ok(RawToken(h, payload, sig))
  }

  lemma SealedAndSigned(c: Crypto, s: Scheme, q: Request, p: Position)
    requires p.counter < U64 - 1 && WalksItsClaims(q) && Certified(q.nonce) && Encoded(q.claims, q.order).Ok?
    ensures SealsAndSigns(c, s, q, p.counter + 1, Encoded(q.claims, q.order).value, Issued(c, s, q, p).1)
  {
    hide Certified, Signed, Encoded, DeriveNext, HeaderOf;
  }

  // ---------- what an issued token carries ----------

  /**
   An issued token carries what was asked for: suite, type, lifetime and the moment of issuing, the fresh nonce, the given
   device fingerprint or, without one, the hash of the nonce, and the counter after the advance; its payload is the sealed
   claims, and its signature is the signer's, of exactly these bytes.
   */
  lemma IssuedCarries(c: Crypto, s: Scheme, q: Request, p: Position)
    requires p.counter < U64 - 1 && WalksItsClaims(q) && Issued(c, s, q, p).1.Ok?
    ensures
      var t := Issued(c, s, q, p).1.value;
      && t.header.suite == q.suite && t.header.tokenType == q.tokenType && t.header.ttl == q.ttl
      && t.header.issuedAt == q.now && t.header.nonce == q.nonce && t.header.mutationCtr == p.counter + 1
      && (forall fp :: q.deviceFp == Some(fp) ==> t.header.deviceFp == fp)
      && (q.deviceFp == None ==> t.header.deviceFp == c.sha(q.nonce))
      && Encoded(q.claims, q.order).Ok?
      && c.aead.seal(q.key, c.sha(q.nonce)[..24], Encoded(q.claims, q.order).value) == Some(t.payload)
      && s.sign(q.sk, Signed(t.header, t.payload), q.coins) == Some(t.signature)
  {
    hide Certified, Signed, Encoded;
  }

  /** The bytes that stand for a suite and for a token type. */
  lemma SuiteAndTypeBytes()
    ensures SuiteByte(Dilithium5) == 0x05 && SuiteByte(Dual) == 0x09 && SuiteByte(Falcon512) == 0x10
    ensures SuiteByte(Falcon1024) == 0x11 && SuiteByte(Triple) == 0xFF
    ensures TypeByte(Access) == 1 && TypeByte(Refresh) == 2 && TypeByte(Service) == 3
  {
  }

  /** The first six bytes of every token: "QVLT" and version 3.0. */
  lemma MagicAndVersionBytes()
    ensures BigEndian(MAGIC, 4) == [0x51, 0x56, 0x4C, 0x54] && BigEndian(VERSION, 2) == [0x03, 0x00]
  {
    assert BigEndian(0, 0) == [] && BigEndian(0x51, 1) == [0x51] && BigEndian(0x5156, 2) == [0x51, 0x56];
    assert BigEndian(0x51_564C, 3) == [0x51, 0x56, 0x4C] && BigEndian(0x03, 1) == [0x03];
  }

  /**
   The bytes a signer signs, at their offsets: the token without its signature. The payload's length is written modulo 2^32
   and its counter comes last.
   */
  lemma SignedLayout(h: Header, payload: ByteString, d: ByteString)
    requires d == Signed(h, payload)
    ensures |d| == 96 + |payload|
    ensures d[0..4] == [0x51, 0x56, 0x4C, 0x54] && d[4..6] == [0x03, 0x00]
    ensures d[6] == SuiteByte(h.suite) && d[7] == TypeByte(h.tokenType)
    ensures FromBigEndian(d[8..16]) == h.issuedAt && FromBigEndian(d[16..20]) == h.ttl
    ensures d[20..52] == h.nonce && d[52..84] == h.deviceFp
    ensures FromBigEndian(d[84..88]) == |payload| % U32 && d[88..88 + |payload|] == payload
    ensures FromBigEndian(d[88 + |payload|..]) == h.mutationCtr
    ensures forall sig :: Wire(RawToken(h, payload, sig)) == d + sig
  {
    var n := |payload| % U32;
    MagicAndVersionBytes();
    FieldWords(h, n);
    hide BigEndian, Front, Pow256, SuiteByte, TypeByte, FromBigEndian;
    assert d[..88] == Front(h, n) && d[88..88 + |payload|] == payload && d[88 + |payload|..] == BigEndian(h.mutationCtr, 8);
    hide Signed;
    FrontFields(h, n, d);
  }

  /** Why bytes do not parse: the first check, in the order of the layout, that they fail. */
  lemma FromBytesFault(d: ByteString)
    ensures var r := FromBytes(d);
      && (r == Err(Token.BufferTooShort(88, |d|)) <==> |d| < 88)
      && (r == Err(InvalidMagic) <==> |d| >= 88 && d[0..4] != [0x51, 0x56, 0x4C, 0x54])
      && ((r.Err? && r.error.UnsupportedVersion?) <==>
            |d| >= 88 && d[0..4] == [0x51, 0x56, 0x4C, 0x54] && d[4..6] != [0x03, 0x00])
      && (r.Err? && r.error.UnknownSuite? ==> d[6] !in [0x05, 0x09, 0x10, 0x11, 0xFF])
      && (r.Err? && r.error.UnknownTokenType? ==> d[6] in [0x05, 0x09, 0x10, 0x11, 0xFF] && d[7] !in [1, 2, 3])
  {
    if |d| >= 88 {
      Front6(d);
    }
    hide Word;
  }

  lemma Front6(d: ByteString)
    requires |d| >= 88
    ensures Word(d[0..4]) == MAGIC <==> d[0..4] == [0x51, 0x56, 0x4C, 0x54]
    ensures Word(d[4..6]) == VERSION <==> d[4..6] == [0x03, 0x00]
  {
    MagicAndVersionBytes();
    BytesOf(d[0..4]);
    BytesOf(d[4..6]);
    Pow256Values();
    hide BigEndian, Word, Pow256;
    WordOf(MAGIC, 4);
    WordOf(VERSION, 2);
  }
}
