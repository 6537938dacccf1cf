/** Issuing a token over abstract cryptography. */
module Issuance {
  import opened Bytes
  import opened Claims
  import opened Ratchet
  import opened Token
  import opened Wrappers

  // ---------- the cryptography, by its laws ----------

  /** A signature scheme; `coins` is the randomness a signer draws. */
  datatype Scheme = Scheme(
    public: ByteString -> ByteString,
    sign: (ByteString, ByteString, ByteString) -> Option<ByteString>,
    verify: (ByteString, ByteString, ByteString) -> bool)

  /** An authenticated cipher: key, nonce and text. */
  datatype Aead = Aead(
    seal: (Digest, ByteString, ByteString) -> Option<ByteString>,
    open: (Digest, ByteString, ByteString) -> Option<ByteString>)

  /** What one signs, the matching public key accepts, and no signature is empty. */
  ghost predicate Signs(s: Scheme) {
    forall sk, msg, coins | s.sign(sk, msg, coins).Some? ::
      s.sign(sk, msg, coins).value != [] && s.verify(s.public(sk), msg, s.sign(sk, msg, coins).value)
  }

  /** What is sealed opens, and sealing adds the 16-byte tag. */
  ghost predicate Seals(a: Aead) {
    forall key, nonce, text | a.seal(key, nonce, text).Some? ::
      |a.seal(key, nonce, text).value| == |text| + 16 && a.open(key, nonce, a.seal(key, nonce, text).value) == Some(text)
  }

  datatype Crypto = Crypto(sha: Sha3, aead: Aead, utf8: Utf8)

  // ---------- entropy ----------

  function Gram(data: ByteString, i: nat): ByteString
    requires i + 4 <= |data|
  {
    data[i..i + 4]
  }

  /** The distinct windows among the first `n`. */
  function Grams(data: ByteString, n: nat): set<ByteString>
    requires n + 3 <= |data| || n == 0
  {
    set i | 0 <= i < n :: Gram(data, i)
  }

  /** At least 85 of every 100 four-byte windows are distinct; short inputs pass. */
  predicate Certified(data: ByteString) {
    |data| < 8 || 100 * |Grams(data, |data| - 3)| >= 85 * (|data| - 3)
  }

  method CertifyEntropy(data: ByteString) returns (ok: bool)
    ensures ok == Certified(data)
  {
    if |data| < 8 { return true; }
    var total := |data| - 3;
    var seen: set<ByteString> := {};
    for i := 0 to total
      invariant seen == Grams(data, i)
    {
      seen := seen + {Gram(data, i)};
    }
    var ratio := Ratio(|seen|, total);
    ok := !(ratio < 0.85);
  }

  function Ratio(seen: nat, total: nat): (r: real)
    requires total > 0
    ensures r < 0.85 <==> 100 * seen < 85 * total
  {
    RatioBelow(seen, total);
    seen as real / total as real
  }

  lemma RatioBelow(seen: nat, total: nat)
    requires total > 0
    ensures seen as real / total as real < 0.85 <==> 100 * seen < 85 * total
  {
    Scaled(seen as real, total as real, seen as real / total as real);
    assert (100 * seen) as real == 100.0 * seen as real && (85 * total) as real == 85.0 * total as real;
  }

  lemma Scaled(s: real, t: real, r: real)
    requires t > 0.0 && r * t == s
    ensures r < 0.85 <==> 100.0 * s < 85.0 * t
  {
    assert (0.85 - r) * t == 0.85 * t - s;
  }

  // ---------- issuing ----------

  datatype IssueError = LowEntropy | BadClaims(error: ClaimsError) | SealFailed | SignFailed

  /** Everything an issue draws from outside: parameters, clock, randomness and the walk over the claims. */
  datatype Request = Request(
    suite: Suite, tokenType: TokenType, ttl: Word32, deviceFp: Option<Digest>, claims: ClaimMap, order: seq<ByteString>,
    key: Digest, sk: ByteString, now: Word64, nonce: Digest, coins: ByteString)

  predicate WalksItsClaims(q: Request) {
    forall k | k in q.order :: k in q.claims
  }

  ghost predicate WellFormed(c: Crypto, q: Request) {
    WalksItsClaims(q) && Walk(q.claims, q.order) && AllUtf8(c.utf8, q.claims)
  }

  function AeadNonce(sha: Sha3, nonce: Digest): ByteString {
    sha(nonce)[..24]
  }

  function HeaderOf(c: Crypto, q: Request, counter: Word64): Header {
    Header(q.suite, q.tokenType, q.now, q.ttl, q.nonce, if q.deviceFp.Some? then q.deviceFp.value else c.sha(q.nonce), counter)
  }

  /** The unsigned token for a chain that has just advanced to `counter`. */
  function Unsigned(c: Crypto, q: Request, counter: Word64): Result<RawToken, IssueError>
    requires WalksItsClaims(q)
  {
    var plain := Encoded(q.claims, q.order);
    if plain.Err? then Err(BadClaims(plain.error))
    else
      var sealed := c.aead.seal(q.key, AeadNonce(c.sha, q.nonce), plain.value);
      if sealed.None? then Err(SealFailed) else Ok(RawToken(HeaderOf(c, q, counter), sealed.value, []))
  }

  /** Where the chain is and what the caller gets. The chain advances before anything that can still fail but entropy. */
  function Issued(c: Crypto, s: Scheme, q: Request, p: Position): (Position, Result<RawToken, IssueError>)
    requires p.counter < U64 && WalksItsClaims(q)
  {
    if !Certified(q.nonce) then (p, Err(LowEntropy))
    else
      var p' := Stepped(c.sha, p);
      var shell := Unsigned(c, q, p'.counter);
      if shell.Err? then (p', shell)
      else
        var sig := s.sign(q.sk, Signed(shell.value.header, shell.value.payload), q.coins);
        if sig.None? then (p', Err(SignFailed))
        else (p', Ok(RawToken(shell.value.header, shell.value.payload, sig.value)))
  }

  method IssueToken(c: Crypto, s: Scheme, q: Request, chain: MutationChain) returns (r: Result<RawToken, IssueError>)
    requires Walk(q.claims, q.order) && chain.sha == c.sha
    modifies chain
    ensures (chain.At(), r) == Issued(c, s, q, old(chain.At()))
  {
    var certified := CertifyEntropy(q.nonce);
    if !certified { return Err(LowEntropy); }
    var deviceFp := if q.deviceFp.Some? then q.deviceFp.value else c.sha(q.nonce);
    var _ := chain.Advance();
    var counter := chain.counter;
    var plain := Encode(q.claims, q.order);
    if plain.Err? { return Err(BadClaims(plain.error)); }
    var sealed := c.aead.seal(q.key, AeadNonce(c.sha, q.nonce), plain.value);
    if sealed.None? { return Err(SealFailed); }
    var header := Header(q.suite, q.tokenType, q.now, q.ttl, q.nonce, deviceFp, counter);
    var msg := SignedBytes(RawToken(header, sealed.value, []));
    var sig := s.sign(q.sk, msg, q.coins);
    if sig.None? { return Err(SignFailed); }
    r := Ok(RawToken(header, sealed.value, sig.value));
  }

  // ---------- runs of issues ----------

  /** The chain after serving the requests in order. */
  function ChainAfter(c: Crypto, s: Scheme, qs: seq<Request>, p: Position): Position
    requires p.counter + |qs| < U64
    requires forall q | q in qs :: WalksItsClaims(q)
    ensures ChainAfter(c, s, qs, p).counter <= p.counter + |qs|
  {
    if qs == [] then p
    else Issued(c, s, qs[|qs| - 1], ChainAfter(c, s, qs[..|qs| - 1], p)).0
  }

  function Reply(c: Crypto, s: Scheme, qs: seq<Request>, p: Position, i: nat): Result<RawToken, IssueError>
    requires p.counter + |qs| < U64 && i < |qs|
    requires forall q | q in qs :: WalksItsClaims(q)
  {
    Issued(c, s, qs[i], ChainAfter(c, s, qs[..i], p)).1
  }

  lemma IssuedMoves(c: Crypto, s: Scheme, q: Request, p: Position)
    requires p.counter < U64 - 1 && WalksItsClaims(q)
    ensures var (p', r) := Issued(c, s, q, p);
            p.counter <= p'.counter <= p.counter + 1 && (p' == p || p' == Advanced(c.sha, p))
    ensures Issued(c, s, q, p).1.Ok? ==> Issued(c, s, q, p).1.value.header.mutationCtr == Issued(c, s, q, p).0.counter == p.counter + 1
  {
    hide Certified, Encoded, Signed;
  }

  /** The chain stays on its ratchet and only moves forward, whatever fails. */
  lemma {:induction false} ChainOnlyAdvances(c: Crypto, s: Scheme, qs: seq<Request>, p: Position, i: nat)
    requires p.counter + |qs| < U64 && i <= |qs|
    requires forall q | q in qs :: WalksItsClaims(q)
    ensures ChainAfter(c, s, qs[..i], p).counter <= ChainAfter(c, s, qs, p).counter
    ensures forall seed | OnChain(c.sha, seed, p) :: OnChain(c.sha, seed, ChainAfter(c, s, qs, p))
    decreases |qs|
  {
    if |qs| == i {
      assert qs[..i] == qs;
    }
    hide Issued, OnChain, Advanced;
    if qs != [] {
      IssuedMoves(c, s, qs[|qs| - 1], ChainAfter(c, s, qs[..|qs| - 1], p));
      KeepsChain(c.sha, p, ChainAfter(c, s, qs[..|qs| - 1], p));
      var init := qs[..|qs| - 1];
      ChainOnlyAdvances(c, s, init, p, if i < |qs| then i else |init|);
      if i < |qs| { assert init[..i] == qs[..i]; }
    }
  }

  lemma KeepsChain(sha: Sha3, p: Position, p': Position)
    ensures forall seed | OnChain(sha, seed, p) && OnChain(sha, seed, p') :: OnChain(sha, seed, Advanced(sha, p'))
  {}

  /** Issued counters strictly increase, even across issues that failed after the chain had advanced. */
  lemma CountersIncrease(c: Crypto, s: Scheme, qs: seq<Request>, p: Position, i: nat, j: nat)
    requires p.counter + |qs| < U64 && i < j < |qs|
    requires forall q | q in qs :: WalksItsClaims(q)
    requires Reply(c, s, qs, p, i).Ok? && Reply(c, s, qs, p, j).Ok?
    ensures p.counter < Reply(c, s, qs, p, i).value.header.mutationCtr < Reply(c, s, qs, p, j).value.header.mutationCtr
  {
    hide Issued;
    ChainOnlyAdvances(c, s, qs[..i], p, 0);
    assert qs[..i][..0] == [];
    IssuedMoves(c, s, qs[i], ChainAfter(c, s, qs[..i], p));
    IssuedMoves(c, s, qs[j], ChainAfter(c, s, qs[..j], p));
    ChainOnlyAdvances(c, s, qs[..j], p, i + 1);
    assert qs[..j][..i + 1] == qs[..i + 1] && qs[..i + 1][..i] == qs[..i];
  }
}
