/** Verifying a token, on the ML-DSA and on the Falcon order of the layers, and what issuing and verifying make together. */
module TokenVerify {
  import opened Bytes
  import opened Claims
  import opened Issuance
  import opened Ratchet
  import opened Token
  import opened Wrappers

  datatype VerifyError =
    | WrongSuite(suite: Byte)
    | BadEntropy
    | NotYetValid
    | Expired
    | SignatureInvalid
    | DecryptionFailed
    | ReplayDetected(token: nat, chain: nat)
    | Malformed(error: ClaimsError)

  datatype Output = Output(claims: ClaimMap, issuedAt: Word64, ttl: Word32, mutationCtr: Word64)

  const SKEW_US: nat := 5_000_000
  const US_PER_SEC: nat := 1_000_000

  /** The sums as u64 arithmetic computes them. */
  function Latest(now: Word64): Word64 {
    (now + SKEW_US) % U64
  }

  function Expiry(h: Header): Word64 {
    (h.issuedAt + h.ttl * US_PER_SEC) % U64
  }

  function CheckTime(h: Header, now: Word64): Option<VerifyError> {
    if h.issuedAt > Latest(now) then Some(NotYetValid)
    else if now > Expiry(h) then Some(Expired)
    else None
  }

  function CheckCounter(token: nat, chain: nat): Option<VerifyError> {
    if token <= chain then Some(ReplayDetected(token, chain)) else None
  }

  function Open(c: Crypto, t: RawToken, key: Digest): Option<ByteString> {
    c.aead.open(key, AeadNonce(c.sha, t.header.nonce), t.payload)
  }

  /** The layers after the signature: decryption, replay, claims. */
  function InnerLayers(c: Crypto, t: RawToken, key: Digest, chain: nat): Result<Output, VerifyError> {
    var plain := Open(c, t, key);
    if plain.None? then Err(DecryptionFailed)
    else if CheckCounter(t.header.mutationCtr, chain).Some? then Err(CheckCounter(t.header.mutationCtr, chain).value)
    else
      var claims := Decoded(c.utf8, plain.value);
      if claims.Err? then Err(Malformed(claims.error))
      else Ok(Output(claims.value, t.header.issuedAt, t.header.ttl, t.header.mutationCtr))
  }

  /** The ML-DSA order: entropy and time come before the signature, and the suite byte is not looked at. */
  function VerifyToken(c: Crypto, s: Scheme, t: RawToken, vk: ByteString, key: Digest, chain: nat, now: Word64)
    : Result<Output, VerifyError>
  {
    if !Certified(t.header.nonce) then Err(BadEntropy)
    else if CheckTime(t.header, now).Some? then Err(CheckTime(t.header, now).value)
    else if !s.verify(vk, Signed(t.header, t.payload), t.signature) then Err(SignatureInvalid)
    else InnerLayers(c, t, key, chain)
  }

  /** The Falcon order: suite and signature first, then the rest. */
  function VerifyFalcon(c: Crypto, s: Scheme, suite: Suite, t: RawToken, vk: ByteString, key: Digest, chain: nat, now: Word64)
    : Result<Output, VerifyError>
  {
    if t.header.suite != suite then Err(WrongSuite(SuiteByte(t.header.suite)))
    else if !s.verify(vk, Signed(t.header, t.payload), t.signature) then Err(SignatureInvalid)
    else if !Certified(t.header.nonce) then Err(BadEntropy)
    else if CheckTime(t.header, now).Some? then Err(CheckTime(t.header, now).value)
    else InnerLayers(c, t, key, chain)
  }

  // ---------- the clock ----------

  /** No future date passes, so the expiry sum stays within u64 for every token exactly when the clock is this far from its end. */
  lemma ExpirySumFitsIff(now: Word64)
    requires now + SKEW_US < U64
    ensures (forall h: Header | h.issuedAt <= Latest(now) :: h.issuedAt + h.ttl * US_PER_SEC == Expiry(h))
       <==> now + SKEW_US + (U32 - 1) * US_PER_SEC < U64
  {
    if now + SKEW_US + (U32 - 1) * US_PER_SEC >= U64 {
      var zero: Digest := seq(32, _ => 0);
      var h := Header(Dilithium5, Access, now + SKEW_US, U32 - 1, zero, zero, 0);
      assert h.issuedAt + h.ttl * US_PER_SEC != Expiry(h);
    }
  }

  /** The years a real clock can show: sums below 2^64 microseconds. */
  predicate ClockInRange(now: Word64) {
    now + SKEW_US + (U32 - 1) * US_PER_SEC < U64
  }

  /** From five seconds before it was issued until its lifetime is over. */
  predicate Alive(h: Header, now: Word64) {
    h.issuedAt <= now + SKEW_US && now <= h.issuedAt + h.ttl * US_PER_SEC
  }

  lemma TimeIff(h: Header, now: Word64)
    requires ClockInRange(now)
    ensures CheckTime(h, now).None? <==> Alive(h, now)
  {}

  // ---------- the two orders ----------

  /** The orders differ in which fault they name, never in what they accept. */
  lemma OrdersAcceptTheSame(c: Crypto, s: Scheme, suite: Suite, t: RawToken, vk: ByteString, key: Digest, chain: nat, now: Word64, o: Output)
    ensures VerifyFalcon(c, s, suite, t, vk, key, chain, now) == Ok(o)
       <==> t.header.suite == suite && VerifyToken(c, s, t, vk, key, chain, now) == Ok(o)
  {}

  // ---------- end to end ----------

  /** Claims within the caps encode to at most 7,711 bytes, so the sealed payload always fits its length field. */
  lemma {:induction false} EncodedLength(m: ClaimMap, order: seq<ByteString>)
    requires (forall k | k in order :: k in m) && EncodePairs(m, order).Ok?
    ensures |EncodePairs(m, order).value| <= 514 * |order|
  {
    hide EncodeStr;
    if order != [] { EncodedLength(m, order[1..]); }
  }

  /** An issued token: what it carries, and that it survives the wire. */
  lemma IssuedTravels(c: Crypto, s: Scheme, q: Request, p: Position)
    requires Signs(s) && Seals(c.aead) && WellFormed(c, q) && p.counter < U64 - 1
    requires Issued(c, s, q, p).1.Ok?
    ensures
      var t := Issued(c, s, q, p).1.value;
      && FromBytes(Wire(t)) == Ok(t)
      && t.header == HeaderOf(c, q, p.counter + 1) && Certified(t.header.nonce)
      && s.verify(s.public(q.sk), Signed(t.header, t.payload), t.signature)
      && Encoded(q.claims, q.order).Ok? && Open(c, t, q.key) == Some(Encoded(q.claims, q.order).value)
  {
    var t := Issued(c, s, q, p).1.value;
    IssuedParts(c, s, q, p);
    hide Issued, Certified, Signed, Wire, FromBytes, Encoded, EncodePairs;
    RoundTripIff(t);
  }

  /** An issued token is its header, the sealed claims and a signature that verifies. */
  lemma IssuedParts(c: Crypto, s: Scheme, q: Request, p: Position)
    requires Signs(s) && Seals(c.aead) && WellFormed(c, q) && p.counter < U64 - 1
    requires Issued(c, s, q, p).1.Ok?
    ensures
      var t := Issued(c, s, q, p).1.value;
      && t.header == HeaderOf(c, q, p.counter + 1) && Certified(t.header.nonce)
      && |t.payload| < U32 && t.signature != []
      && s.verify(s.public(q.sk), Signed(t.header, t.payload), t.signature)
      && Encoded(q.claims, q.order).Ok? && Open(c, t, q.key) == Some(Encoded(q.claims, q.order).value)
  {
    hide Certified, Signed, Encoded;
    if Encoded(q.claims, q.order).Ok? { EncodedFits(q.claims, q.order); }
  }

  lemma EncodedFits(m: ClaimMap, order: seq<ByteString>)
    requires Walk(m, order) && Encoded(m, order).Ok?
    ensures |Encoded(m, order).value| <= 1 + 514 * 15
  {
    EncodedLength(m, order);
    hide EncodePairs;
  }

  /**
   A token that was issued, serialised, parsed and verified while it is alive yields exactly the issued claims if its
   counter is beyond the verifier's, and is a replay otherwise.
   */
  lemma IssuedVerifiesIff(c: Crypto, s: Scheme, q: Request, p: Position, chain: nat, now: Word64)
    requires Signs(s) && Seals(c.aead) && WellFormed(c, q) && p.counter < U64 - 1 && ClockInRange(now)
    requires Issued(c, s, q, p).1.Ok? && Alive(HeaderOf(c, q, p.counter + 1), now)
    ensures
      var d := Wire(Issued(c, s, q, p).1.value);
      && FromBytes(d).Ok?
      && VerifyToken(c, s, FromBytes(d).value, s.public(q.sk), q.key, chain, now)
         == (if p.counter + 1 > chain then Ok(Output(q.claims, q.now, q.ttl, p.counter + 1))
             else Err(ReplayDetected(p.counter + 1, chain)))
      && VerifyFalcon(c, s, q.suite, FromBytes(d).value, s.public(q.sk), q.key, chain, now)
         == VerifyToken(c, s, FromBytes(d).value, s.public(q.sk), q.key, chain, now)
  {
    IssuedTravels(c, s, q, p);
    var t := Issued(c, s, q, p).1.value;
    TimeIff(t.header, now);
    EncodesIff(q.claims, q.order);
    RoundTrip(c.utf8, q.claims, q.order, []);
    var plain := Encoded(q.claims, q.order).value;
    assert plain + [] == plain;
    hide Issued, Certified, Signed, Wire, FromBytes, Encoded, Decoded, CheckTime, AeadNonce;
  }

  lemma TimeFault(h: Header, now: Word64)
    requires ClockInRange(now) && !Alive(h, now)
    ensures CheckTime(h, now) == Some(if h.issuedAt > now + SKEW_US then NotYetValid else Expired)
  {}

  lemma RefusedByTime(c: Crypto, s: Scheme, t: RawToken, vk: ByteString, key: Digest, chain: nat, now: Word64)
    requires Certified(t.header.nonce) && s.verify(vk, Signed(t.header, t.payload), t.signature)
    requires CheckTime(t.header, now).Some?
    ensures VerifyToken(c, s, t, vk, key, chain, now) == Err(CheckTime(t.header, now).value)
    ensures VerifyFalcon(c, s, t.header.suite, t, vk, key, chain, now) == Err(CheckTime(t.header, now).value)
  {
    hide Certified, Signed, CheckTime, InnerLayers;
  }

  /** Outside its lifetime the same token is refused in both orders, whatever its counter, and the fault says on which side. */
  lemma IssuedExpires(c: Crypto, s: Scheme, q: Request, p: Position, chain: nat, now: Word64)
    requires Signs(s) && Seals(c.aead) && WellFormed(c, q) && p.counter < U64 - 1 && ClockInRange(now)
    requires Issued(c, s, q, p).1.Ok? && !Alive(HeaderOf(c, q, p.counter + 1), now)
    ensures
      var t := Issued(c, s, q, p).1.value;
      var fault := if q.now > now + SKEW_US then NotYetValid else Expired;
      && VerifyToken(c, s, t, s.public(q.sk), q.key, chain, now) == Err(fault)
      && VerifyFalcon(c, s, q.suite, t, s.public(q.sk), q.key, chain, now) == Err(fault)
  {
    var t := Issued(c, s, q, p).1.value;
    IssuedTravels(c, s, q, p);
    assert HeaderOf(c, q, p.counter + 1).suite == q.suite && HeaderOf(c, q, p.counter + 1).issuedAt == q.now;
    hide Issued, Certified, Signed, Wire, FromBytes, Encoded, InnerLayers, VerifyToken, VerifyFalcon, CheckTime, Alive, HeaderOf;
    TimeFault(t.header, now);
    RefusedByTime(c, s, t, s.public(q.sk), q.key, chain, now);
  }

  /** Over a run of issues: a verifier that has moved to one token's counter refuses it and every earlier one and takes every later one. */
  lemma RunVerifies(c: Crypto, s: Scheme, qs: seq<Request>, p: Position, i: nat, j: nat, now: Word64)
    requires Signs(s) && Seals(c.aead) && p.counter + |qs| < U64 && i < |qs| && j < |qs| && ClockInRange(now)
    requires forall q | q in qs :: WalksItsClaims(q) && WellFormed(c, q)
    requires Reply(c, s, qs, p, i).Ok? && Reply(c, s, qs, p, j).Ok?
    requires Alive(Reply(c, s, qs, p, j).value.header, now)
    ensures
      var seen, t := Reply(c, s, qs, p, i).value.header.mutationCtr, Reply(c, s, qs, p, j).value;
      && (VerifyToken(c, s, t, s.public(qs[j].sk), qs[j].key, seen, now).Ok? <==> i < j)
      && (VerifyFalcon(c, s, qs[j].suite, t, s.public(qs[j].sk), qs[j].key, seen, now).Ok? <==> i < j)
  {
    var pj := ChainAfter(c, s, qs[..j], p);
    var seen := Reply(c, s, qs, p, i).value.header.mutationCtr;
    VerifiesWhenNewer(c, s, qs[j], pj, seen, now);
    hide Issued, VerifyToken, VerifyFalcon, ChainAfter, WellFormed, Signs, Seals, Alive;
    if i < j {
      CountersIncrease(c, s, qs, p, i, j);
    } else if j < i {
      CountersIncrease(c, s, qs, p, j, i);
    }
  }

  lemma VerifiesWhenNewer(c: Crypto, s: Scheme, q: Request, p: Position, chain: nat, now: Word64)
    requires Signs(s) && Seals(c.aead) && WellFormed(c, q) && p.counter < U64 - 1 && ClockInRange(now)
    requires Issued(c, s, q, p).1.Ok? && Alive(Issued(c, s, q, p).1.value.header, now)
    ensures
      var t := Issued(c, s, q, p).1.value;
      && (VerifyToken(c, s, t, s.public(q.sk), q.key, chain, now).Ok? <==> t.header.mutationCtr > chain)
      && (VerifyFalcon(c, s, q.suite, t, s.public(q.sk), q.key, chain, now).Ok? <==> t.header.mutationCtr > chain)
  {
    IssuedTravels(c, s, q, p);
    IssuedVerifiesIff(c, s, q, p, chain, now);
    assert HeaderOf(c, q, p.counter + 1).mutationCtr == p.counter + 1;
    hide Issued, VerifyToken, VerifyFalcon, FromBytes, Wire;
  }
}
