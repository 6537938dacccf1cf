/** The token wire format. */
module Token {
  import opened Bytes
  import opened Ratchet
  import opened Wrappers

  datatype Suite = Dilithium5 | Dual | Falcon512 | Falcon1024 | Triple

  datatype TokenType = Access | Refresh | Service

  datatype TokenError =
    | InvalidMagic
    | UnsupportedVersion(version: nat)
    | UnknownSuite(suite: Byte)
    | UnknownTokenType(tokenType: Byte)
    | BufferTooShort(need: nat, have: nat)

  const MAGIC: nat := 0x5156_4C54
  const VERSION: nat := 0x0300

  datatype Header = Header(suite: Suite, tokenType: TokenType, issuedAt: Word64, ttl: Word32,
                           nonce: Digest, deviceFp: Digest, mutationCtr: Word64)

  datatype RawToken = RawToken(header: Header, payload: ByteString, signature: ByteString)

  function SuiteByte(s: Suite): Byte {
    match s case Dilithium5 => 0x05 case Dual => 0x09 case Falcon512 => 0x10 case Falcon1024 => 0x11 case Triple => 0xFF
  }

  function SuiteFrom(b: Byte): (r: Result<Suite, TokenError>)
    ensures r.Ok? ==> SuiteByte(r.value) == b
    ensures forall s | SuiteByte(s) == b :: r == Ok(s)
    ensures r.Err? ==> r.error == UnknownSuite(b)
  {
    if b == 0x05 then Ok(Dilithium5) else if b == 0x09 then Ok(Dual) else if b == 0x10 then Ok(Falcon512)
    else if b == 0x11 then Ok(Falcon1024) else if b == 0xFF then Ok(Triple) else Err(UnknownSuite(b))
  }

  function TypeByte(t: TokenType): Byte {
    match t case Access => 1 case Refresh => 2 case Service => 3
  }

  function TypeFrom(b: Byte): (r: Result<TokenType, TokenError>)
    ensures r.Ok? ==> TypeByte(r.value) == b
    ensures forall t | TypeByte(t) == b :: r == Ok(t)
    ensures r.Err? ==> r.error == UnknownTokenType(b)
  {
    if b == 1 then Ok(Access) else if b == 2 then Ok(Refresh) else if b == 3 then Ok(Service) else Err(UnknownTokenType(b))
  }

  // ---------- writing ----------

  /** The 88 bytes before the payload. */
  function Front(h: Header, payloadLen: nat): (b: ByteString)
    ensures |b| == 88
  {
    BigEndian(MAGIC, 4) + BigEndian(VERSION, 2) + [SuiteByte(h.suite)] + [TypeByte(h.tokenType)]
    + BigEndian(h.issuedAt, 8) + BigEndian(h.ttl, 4) + h.nonce + h.deviceFp + BigEndian(payloadLen, 4)
  }

  /** All that the signature covers. The payload length is cut to 32 bits. */
  function Signed(h: Header, payload: ByteString): (b: ByteString)
    ensures |b| == 96 + |payload|
  {
    Front(h, |payload| % U32) + payload + BigEndian(h.mutationCtr, 8)
  }

  function Wire(t: RawToken): ByteString {
    Signed(t.header, t.payload) + t.signature
  }

  method SignedBytes(t: RawToken) returns (buf: ByteString)
    ensures buf == Signed(t.header, t.payload)
  {
    var pl := |t.payload| % U32;
    buf := BigEndian(MAGIC, 4);
    buf := buf + BigEndian(VERSION, 2);
    buf := buf + [SuiteByte(t.header.suite)];
    buf := buf + [TypeByte(t.header.tokenType)];
    buf := buf + BigEndian(t.header.issuedAt, 8);
    buf := buf + BigEndian(t.header.ttl, 4);
    buf := buf + t.header.nonce;
    buf := buf + t.header.deviceFp;
    buf := buf + BigEndian(pl, 4);
    buf := buf + t.payload;
    buf := buf + BigEndian(t.header.mutationCtr, 8);
  }

  method ToBytes(t: RawToken) returns (buf: ByteString)
    ensures buf == Wire(t)
  {
    var pl := |t.payload| % U32;
    buf := BigEndian(MAGIC, 4);
    buf := buf + BigEndian(VERSION, 2);
    buf := buf + [SuiteByte(t.header.suite)];
    buf := buf + [TypeByte(t.header.tokenType)];
    buf := buf + BigEndian(t.header.issuedAt, 8);
    buf := buf + BigEndian(t.header.ttl, 4);
    buf := buf + t.header.nonce;
    buf := buf + t.header.deviceFp;
    buf := buf + BigEndian(pl, 4);
    buf := buf + t.payload;
    buf := buf + BigEndian(t.header.mutationCtr, 8);
    buf := buf + t.signature;
  }

  // ---------- reading ----------

  function Word(b: ByteString): (v: nat)
    ensures |b| == 4 ==> v < U32
    ensures |b| == 8 ==> v < U64
  {
    Pow256Values();
    FromBigEndian(b)
  }

  function FromBytes(d: ByteString): Result<RawToken, TokenError> {
    if |d| < 88 then Err(BufferTooShort(88, |d|))
    else if Word(d[0..4]) != MAGIC then Err(InvalidMagic)
    else if Word(d[4..6]) != VERSION then Err(UnsupportedVersion(Word(d[4..6])))
    else if SuiteFrom(d[6]).Err? then Err(SuiteFrom(d[6]).error)
    else if TypeFrom(d[7]).Err? then Err(TypeFrom(d[7]).error)
    else
      var pl := Word(d[84..88]);
      if |d| < 96 + pl then Err(BufferTooShort(96 + pl, |d|))
      else if |d| < 97 + pl then Err(BufferTooShort(97 + pl, |d|))
      else
        Ok(RawToken(Header(SuiteFrom(d[6]).value, TypeFrom(d[7]).value, Word(d[8..16]), Word(d[16..20]),
                           d[20..52], d[52..84], Word(d[88 + pl..96 + pl])),
                    d[88..88 + pl], d[96 + pl..]))
  }

  lemma WordOf(v: nat, n: nat)
    requires v < Pow256(n)
    ensures Word(BigEndian(v, n)) == v
  {
    BigEndianRoundTrip(v, n);
  }

  lemma BytesOf(b: ByteString)
    ensures BigEndian(Word(b), |b|) == b
  {
    FromBigEndianRoundTrip(b);
  }

  /** Where each field sits in the front. */
  lemma FrontFields(h: Header, n: nat, d: ByteString)
    requires |d| >= 88
    ensures d[..88] == Front(h, n) <==>
      && d[0..4] == BigEndian(MAGIC, 4) && d[4..6] == BigEndian(VERSION, 2)
      && d[6] == SuiteByte(h.suite) && d[7] == TypeByte(h.tokenType)
      && d[8..16] == BigEndian(h.issuedAt, 8) && d[16..20] == BigEndian(h.ttl, 4)
      && d[20..52] == h.nonce && d[52..84] == h.deviceFp && d[84..88] == BigEndian(n, 4)
  {
    hide BigEndian, SuiteByte, TypeByte, Front;
    var f := Front(h, n);
    FrontSlices(h, n);
    Cut(f);
    Cut(d[..88]);
  }

  lemma FrontSlices(h: Header, n: nat)
    ensures var f := Front(h, n);
      && f[0..4] == BigEndian(MAGIC, 4) && f[4..6] == BigEndian(VERSION, 2)
      && f[6] == SuiteByte(h.suite) && f[7] == TypeByte(h.tokenType)
      && f[8..16] == BigEndian(h.issuedAt, 8) && f[16..20] == BigEndian(h.ttl, 4)
      && f[20..52] == h.nonce && f[52..84] == h.deviceFp && f[84..88] == BigEndian(n, 4)
  {
    hide BigEndian, SuiteByte, TypeByte;
    var f := Front(h, n);
    assert f[84..88] == BigEndian(n, 4) by { LastFour(f[..84], BigEndian(n, 4), f); }
  }

  lemma LastFour(a: ByteString, b: ByteString, f: ByteString)
    requires |a| == 84 && |b| == 4 && f == a + b
    ensures f[84..88] == b
  {}

  /** A front is its fields one after the other. */
  lemma Cut(f: ByteString)
    requires |f| == 88
    ensures f == f[0..4] + f[4..6] + [f[6]] + [f[7]] + f[8..16] + f[16..20] + f[20..52] + f[52..84] + f[84..88]
  {}

  /** A byte string parses to `t` exactly when it is what `t` serialises to and its length field and signature are good. */
  lemma FromBytesIff(d: ByteString, t: RawToken)
    ensures FromBytes(d) == Ok(t) <==> d == Wire(t) && |t.payload| < U32 && t.signature != []
  {
    if FromBytes(d) == Ok(t) {
      ParsedIsWire(d, t);
    }
    if d == Wire(t) && |t.payload| < U32 && t.signature != [] {
      WireParses(d, t);
    }
  }

  /** The four parts of a serialised token. */
  lemma Parts(d: ByteString, front: ByteString, payload: ByteString, ctr: ByteString, sig: ByteString)
    requires |front| == 88 && |ctr| == 8
    ensures d == front + payload + ctr + sig <==>
      && |d| >= 96 + |payload| && d[..88] == front && d[88..88 + |payload|] == payload
      && d[88 + |payload|..96 + |payload|] == ctr && d[96 + |payload|..] == sig
  {
    var n := |payload|;
    if |d| >= 96 + n {
      assert d == d[..88] + d[88..88 + n] + d[88 + n..96 + n] + d[96 + n..];
    }
    var w := front + payload + ctr + sig;
    assert w[..88] == front && w[88..88 + n] == payload && w[88 + n..96 + n] == ctr && w[96 + n..] == sig;
  }

  lemma FieldWords(h: Header, pl: Word32)
    ensures Word(BigEndian(MAGIC, 4)) == MAGIC && Word(BigEndian(VERSION, 2)) == VERSION
    ensures Word(BigEndian(h.issuedAt, 8)) == h.issuedAt && Word(BigEndian(h.ttl, 4)) == h.ttl
    ensures Word(BigEndian(h.mutationCtr, 8)) == h.mutationCtr && Word(BigEndian(pl, 4)) == pl
  {
    Pow256Values();
    hide BigEndian, Word, Pow256;
    WordOf(MAGIC, 4);
    WordOf(VERSION, 2);
    WordOf(h.issuedAt, 8);
    WordOf(h.ttl, 4);
    WordOf(h.mutationCtr, 8);
    WordOf(pl, 4);
  }

  lemma ParsedFields(d: ByteString, t: RawToken)
    requires FromBytes(d) == Ok(t)
    ensures |d| > 96 + |t.payload| && Word(d[84..88]) == |t.payload| < U32
    ensures Word(d[0..4]) == MAGIC && Word(d[4..6]) == VERSION
    ensures d[6] == SuiteByte(t.header.suite) && d[7] == TypeByte(t.header.tokenType)
    ensures Word(d[8..16]) == t.header.issuedAt && Word(d[16..20]) == t.header.ttl
    ensures d[20..52] == t.header.nonce && d[52..84] == t.header.deviceFp
    ensures d[88..88 + |t.payload|] == t.payload && d[96 + |t.payload|..] == t.signature
    ensures Word(d[88 + |t.payload|..96 + |t.payload|]) == t.header.mutationCtr
  {
    hide Word, SuiteByte, TypeByte;
  }

  lemma ParsedIsWire(d: ByteString, t: RawToken)
    requires FromBytes(d) == Ok(t)
    ensures d == Wire(t) && |t.payload| < U32 && t.signature != []
  {
    var h, pl := t.header, |t.payload|;
    hide FromBytes, BigEndian, Front, SuiteByte, TypeByte, Word;
    ParsedFields(d, t);
    BytesOf(d[0..4]);
    BytesOf(d[4..6]);
    BytesOf(d[8..16]);
    BytesOf(d[16..20]);
    BytesOf(d[84..88]);
    BytesOf(d[88 + pl..96 + pl]);
    FrontFields(h, pl, d);
    assert pl % U32 == pl;
    Parts(d, Front(h, pl), t.payload, BigEndian(h.mutationCtr, 8), t.signature);
  }

  lemma WireParses(d: ByteString, t: RawToken)
    requires d == Wire(t) && |t.payload| < U32 && t.signature != []
    ensures FromBytes(d) == Ok(t)
  {
    var h, pl := t.header, |t.payload|;
    hide BigEndian, Front, SuiteByte, TypeByte, Word, FromBytes;
    assert pl % U32 == pl;
    Parts(d, Front(h, pl), t.payload, BigEndian(h.mutationCtr, 8), t.signature);
    hide Wire, Signed;
    FrontFields(h, pl, d);
    FieldWords(h, pl);
    FieldsParse(d, t);
  }

  lemma FieldsParse(d: ByteString, t: RawToken)
    requires |d| > 96 + |t.payload| && Word(d[84..88]) == |t.payload|
    requires Word(d[0..4]) == MAGIC && Word(d[4..6]) == VERSION
    requires d[6] == SuiteByte(t.header.suite) && d[7] == TypeByte(t.header.tokenType)
    requires Word(d[8..16]) == t.header.issuedAt && Word(d[16..20]) == t.header.ttl
    requires d[20..52] == t.header.nonce && d[52..84] == t.header.deviceFp
    requires d[88..88 + |t.payload|] == t.payload && d[96 + |t.payload|..] == t.signature
    requires Word(d[88 + |t.payload|..96 + |t.payload|]) == t.header.mutationCtr
    ensures FromBytes(d) == Ok(t)
  {
    hide SuiteByte, TypeByte, Word;
  }

  /** A serialised token reads back as itself exactly when its length field can hold the payload and it is signed. */
  lemma RoundTripIff(t: RawToken)
    ensures FromBytes(Wire(t)) == Ok(t) <==> |t.payload| < U32 && t.signature != []
  {
    FromBytesIff(Wire(t), t);
  }

  /** No two token bodies are signed with the same bytes, however long the payloads. */
  lemma SignedInjective(h: Header, p: ByteString, h': Header, p': ByteString)
    requires Signed(h, p) == Signed(h', p')
    ensures h == h' && p == p'
  {
    var d := Signed(h, p);
    var n := |p| % U32;
    Pow256Values();
    WordOf(h.issuedAt, 8);
    WordOf(h.ttl, 4);
    WordOf(h.mutationCtr, 8);
    WordOf(h'.issuedAt, 8);
    WordOf(h'.ttl, 4);
    WordOf(h'.mutationCtr, 8);
    hide BigEndian, Front, Word, Pow256;
    assert |p| == |p'|;
    assert d[..88] == Front(h, n) && d[..88] == Front(h', n);
    FrontFields(h, n, d);
    FrontFields(h', n, d);
    assert d[88..88 + |p|] == p && d[88..88 + |p|] == p';
    assert d[88 + |p|..] == BigEndian(h.mutationCtr, 8) && d[88 + |p|..] == BigEndian(h'.mutationCtr, 8);
  }

  /** A payload of 2^32 bytes or more comes back cut short, without an error. */
  lemma LongPayloadIsCut(t: RawToken)
    requires |t.payload| >= U32
    ensures FromBytes(Wire(t)).Ok? && |FromBytes(Wire(t)).value.payload| == |t.payload| % U32
  {
    var d, h, n := Wire(t), t.header, |t.payload| % U32;
    Pow256Values();
    WordOf(MAGIC, 4);
    WordOf(VERSION, 2);
    WordOf(n, 4);
    hide BigEndian, Front, Word, Pow256;
    assert d[..88] == Front(h, n);
    FrontFields(h, n, d);
  }
}
