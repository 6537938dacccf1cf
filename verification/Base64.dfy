/**
 The command line's base64. Following section 4 of RFC 4648, the digits of a text are read as one number in base 64
 and the bytes of the data as one number in base 256.
 */
module Base64 {
  import opened Bits
  import opened Bytes
  import opened Wrappers

  // ---------- the alphabet ----------

  /** The decoder also reads the URL-safe digits, and passes over padding and white space. */
  datatype Reading = Digit(value: nat) | Skip | Bad

  function Read(c: char): (r: Reading)
    ensures r.Digit? ==> r.value < 64
  {
    if 'A' <= c <= 'Z' then Digit(c as int - 'A' as int)
    else if 'a' <= c <= 'z' then Digit(c as int - 'a' as int + 26)
    else if '0' <= c <= '9' then Digit(c as int - '0' as int + 52)
    else if c == '+' || c == '-' then Digit(62)
    else if c == '/' || c == '_' then Digit(63)
    else if c == '=' || c == '\n' || c == '\r' || c == ' ' || c == '\t' then Skip
    else Bad
  }

  /** The digit for six bits; the encoder reads it from a 64-character table, upper case, lower case, digits, '+' and '/'. */
  function Alphabet(v: nat): (c: char)
    requires v < 64
    ensures Read(c) == Digit(v) && c != '-' && c != '_'
  {
    if v < 26 then ('A' as int + v) as char
    else if v < 52 then ('a' as int + v - 26) as char
    else if v < 62 then ('0' as int + v - 52) as char
    else if v == 62 then '+' else '/'
  }

  /** How many digits a text has. */
  function Digits(s: string): nat {
    if s == [] then 0 else Digits(s[..|s| - 1]) + if Read(s[|s| - 1]).Digit? then 1 else 0
  }

  /** Its digits as a number in base 64. */
  function Value(s: string): nat {
    if s == [] then 0
    else
      var r := Read(s[|s| - 1]);
      if r.Digit? then 64 * Value(s[..|s| - 1]) + r.value else Value(s[..|s| - 1])
  }

  lemma Snoc(s: string, c: char)
    ensures Digits(s + [c]) == Digits(s) + if Read(c).Digit? then 1 else 0
    ensures Value(s + [c]) == if Read(c).Digit? then 64 * Value(s) + Read(c).value else Value(s)
  {
    assert (s + [c])[..|s|] == s;
  }

  lemma BytesSnoc(data: ByteString, x: Byte)
    ensures FromBigEndian(data + [x]) == 256 * FromBigEndian(data) + x
  {
    assert (data + [x])[..|data|] == data;
  }

  // ---------- decoding ----------

  predicate Readable(s: string) {
    forall i | 0 <= i < |s| :: Read(s[i]) != Bad
  }

  /** The bits left over when the digits are cut into octets. */
  function Rest(s: string): nat {
    6 * Digits(s) % 8
  }

  /** `r` is what the text means: its bits without the rest, or its first unreadable character. */
  ghost predicate DecodesTo(s: string, r: Result<ByteString, char>) {
    match r
    case Ok(out) =>
      Readable(s) && 6 * Digits(s) == 8 * |out| + Rest(s) && FromBigEndian(out) == Top(Value(s), Rest(s))
    case Err(c) => exists i | 0 <= i < |s| :: Readable(s[..i]) && Read(s[i]) == Bad && s[i] == c
  }

  /** The buffer holds fewer than eight bits. */
  predicate Buffered(buf: nat, bits: nat) {
    bits < 8 && bits % 2 == 0 && buf < Pow2(bits)
  }

  lemma BufferBound(buf: nat, bits: nat)
    requires Buffered(buf, bits)
    ensures buf < 64
  {
    Pow2Values();
  }

  /** The shift and the or of a decoding step: nothing is shifted out of the 32 bits. */
  lemma OrDigit(buf: nat, bits: nat, v: nat)
    requires Buffered(buf, bits) && v < 64
    ensures Or((buf * 64) % U32, v) == buf * 64 + v < Pow2(bits + 6)
  {
    hide Or;
    BufferBound(buf, bits);
    DigitBound(buf, bits, v);
    assert Pow2(6) == 64 by { Pow2Values(); }
    hide Pow2;
    assert (buf * 64) % U32 == buf * 64 && (buf * 64) % 64 == 0;
    Disjoint(buf * 64, v, 6);
  }

  lemma DigitBound(buf: nat, bits: nat, v: nat)
    requires buf < Pow2(bits) && v < 64
    ensures buf * 64 + v < Pow2(bits + 6)
  {
    assert Pow2(6) == 64 by { Pow2Values(); }
    Pow2Add(6, bits);
    hide Pow2;
  }

  /** The bit buffer with one more digit, in 32 bits. */
  function Pushed(buf: nat, v: nat): nat
    requires v < 64
  {
    Or((buf * 64) % U32, v)
  }

  /** The low eight bits of the buffer without its last `rest` bits. */
  function Octet(x: nat, rest: nat): Byte {
    Top(x, rest) % 256
  }

  /** With bits waiting, an octet goes out and the rest stays. */
  lemma OctetOut(buf: nat, bits: nat, v: nat)
    requires Buffered(buf, bits) && v < 64 && bits >= 2
    ensures var x, rest := Pushed(buf, v), bits - 2;
      && x == buf * 64 + v && Octet(x, rest) == Top(x, rest)
      && And(x, Pow2(rest) - 1) == Low(x, rest) && Buffered(Low(x, rest), rest)
  {
    hide Or, And, Pow2, Top, Low, Octet, Buffered;
    var x, rest := buf * 64 + v, bits - 2;
    BitsWaiting(buf, bits);
    OrDigit(buf, bits, v);
    TopAndLow(x, rest);
    OctetFits(x, rest);
    StillBuffered(Low(x, rest), bits);
  }

  lemma OctetFits(x: nat, rest: nat)
    requires x < Pow2(rest + 8)
    ensures Octet(x, rest) == Top(x, rest)
  {
    assert Pow2(8) == 256 by { Pow2Values(); }
    hide Pow2, Top;
    TopBound(x, 8, rest);
  }

  lemma StillBuffered(buf: nat, bits: nat)
    requires 2 <= bits < 8 && bits % 2 == 0 && buf < Pow2(bits - 2)
    ensures Buffered(buf, bits - 2)
  {
  }

  /** With bits waiting, nothing is lost when an octet goes out. */
  lemma StepOut(high: nat, buf: nat, bits: nat, v: nat)
    requires Buffered(buf, bits) && v < 64 && bits >= 2
    ensures var x, rest := Pushed(buf, v), bits - 2;
      64 * (Shifted(high, bits) + buf) + v == Shifted(256 * high + Octet(x, rest), rest) + Low(x, rest)
  {
    var x, rest := buf * 64 + v, bits - 2;
    hide And, Pow2, Top, Low, Shifted, Buffered, Pushed, Octet;
    OctetOut(buf, bits, v);
    TopAndLow(x, rest);
    SixMore(high, bits);
    ShiftedSum(256 * high, Top(x, rest), rest);
  }

  lemma SixMore(high: nat, bits: nat)
    requires bits >= 2
    ensures 64 * Shifted(high, bits) == Shifted(256 * high, bits - 2)
  {
    ShiftedValues(Shifted(high, bits));
    ShiftedValues(high);
    hide Shifted;
    ShiftedTwice(high, bits, 6);
    ShiftedTwice(high, 8, bits - 2);
  }

  /** With no bits waiting, six bits come in and nothing goes out. */
  lemma StepIn(high: nat, buf: nat, v: nat)
    requires Buffered(buf, 0) && v < 64
    ensures Pushed(buf, v) == v && Buffered(v, 6)
    ensures 64 * (Shifted(high, 0) + buf) + v == Shifted(high, 6) + v
  {
    assert buf == 0 && Pow2(6) == 64 by { Pow2Values(); }
    ShiftedValues(high);
    OrDigit(buf, 0, v);
  }

  lemma BitsWaiting(buf: nat, bits: nat)
    requires Buffered(buf, bits)
    ensures (bits == 0 || 2 <= bits < 8) && bits % 2 == 0
  {
  }

  /** One digit into the bit buffer; at most one octet comes out, and it fits a byte. */
  method Accept(out: ByteString, buf: nat, bits: nat, v: nat) returns (out': ByteString, buf': nat, bits': nat)
    requires Buffered(buf, bits) && v < 64
    ensures Buffered(buf', bits') && 8 * |out'| + bits' == 8 * |out| + bits + 6
    ensures 64 * (Shifted(FromBigEndian(out), bits) + buf) + v == Shifted(FromBigEndian(out'), bits') + buf'
  {
    hide Pushed, Octet, And, Pow2, Buffered, Shifted, Low, FromBigEndian;
    BitsWaiting(buf, bits);
    ghost var high := FromBigEndian(out);
    out' := out;
    buf' := Pushed(buf, v);
    bits' := bits + 6;
    if bits' >= 8 {
      bits' := bits' - 8;
      OctetOut(buf, bits, v);
      StepOut(high, buf, bits, v);
      var octet := Octet(buf', bits');
      out' := out + [octet];
      BytesSnoc(out, octet);
      buf' := And(buf', Pow2(bits') - 1);
    } else {
      StepIn(high, buf, v);
    }
  }

  /** The loop of the decoder after the characters of `s`. */
  ghost predicate Decoding(s: string, out: ByteString, buf: nat, bits: nat) {
    && Readable(s) && 6 * Digits(s) == 8 * |out| + bits
    && Value(s) == Shifted(FromBigEndian(out), bits) + buf
  }

  lemma DecodingStart(s: string, out: ByteString, buf: nat, bits: nat)
    requires s == [] && out == [] && buf == 0 && bits == 0
    ensures Decoding(s, out, buf, bits) && Buffered(buf, bits)
  {}

  /** One readable character more. */
  method Absorb(ghost s: string, c: char, out: ByteString, buf: nat, bits: nat)
    returns (out': ByteString, buf': nat, bits': nat)
    requires Decoding(s, out, buf, bits) && Buffered(buf, bits) && Read(c) != Bad
    ensures Decoding(s + [c], out', buf', bits') && Buffered(buf', bits')
  {
    hide Read, FromBigEndian, Shifted, Digits, Value, Buffered;
    Snoc(s, c);
    out', buf', bits' := out, buf, bits;
    if Read(c).Digit? {
      out', buf', bits' := Accept(out, buf, bits, Read(c).value);
    }
  }

  lemma BadCharacter(s: string, i: nat, out: ByteString, buf: nat, bits: nat)
    requires i < |s| && Decoding(s[..i], out, buf, bits) && Read(s[i]) == Bad
    ensures DecodesTo(s, Err(s[i]))
  {
    hide Readable, Read;
  }

  lemma DecodingDone(s: string, out: ByteString, buf: nat, bits: nat)
    requires Decoding(s, out, buf, bits) && Buffered(buf, bits)
    ensures DecodesTo(s, Ok(out))
  {
    hide Readable, FromBigEndian, Shifted, Top, Digits, Value;
    AllButRest(FromBigEndian(out), buf, bits);
  }

  method Decode(s: string) returns (r: Result<ByteString, char>)
    ensures DecodesTo(s, r)
  {
    var out: ByteString, buf: nat, bits: nat := [], 0, 0;
    ghost var read: string := [];
    hide Read, Decoding, Buffered, DecodesTo;
    assert read == [] && out == [];
    DecodingStart(read, out, buf, bits);
    for i := 0 to |s|
      invariant read == s[..i] && Buffered(buf, bits) && Decoding(read, out, buf, bits)
    {
      if Read(s[i]) == Bad {
        BadCharacter(s, i, out, buf, bits);
        return Err(s[i]);
      }
      out, buf, bits := Absorb(read, s[i], out, buf, bits);
      read := read + [s[i]];
    }
    assert read == s;
    r := Ok(out);
    DecodingDone(s, out, buf, bits);
  }

  lemma AllButRest(v: nat, buf: nat, bits: nat)
    requires Buffered(buf, bits)
    ensures bits < 8 && Top(Shifted(v, bits) + buf, bits) == v
  {
    TopOf(v, buf, bits);
  }

  // ---------- encoding ----------

  function Padding(n: nat): nat {
    (3 - n % 3) % 3
  }

  predicate IsDigit(c: char) {
    Read(c).Digit? && c != '-' && c != '_'
  }

  /** `s` is the padded text of `data`: its number with zero bits up to the last digit, then the padding. */
  ghost predicate Encodes(s: string, data: ByteString) {
    var pad := Padding(|data|);
    && |s| == 4 * ((|data| + 2) / 3)
    && (forall i | 0 <= i < |s| - pad :: IsDigit(s[i]))
    && (forall i | |s| - pad <= i < |s| :: s[i] == '=')
    && Digits(s) == |s| - pad
    && Value(s) == Shifted(FromBigEndian(data), 2 * pad)
  }

  /** Six bits of a word, as the shift and mask of the encoder take them. */
  function Sextet(n: nat, shift: nat): (c: char)
    ensures Read(c) == Digit(Top(n, shift) % 64) && IsDigit(c)
  {
    assert Pow2(6) == 64 by { Pow2Values(); }
    AndMask(Top(n, shift), 6);
    Alphabet(And(Top(n, shift), 0x3F))
  }

  lemma ShiftedSnoc(v: nat, w: nat, d: nat, x: nat)
    ensures 64 * (Shifted(v, 6 * d) + w) + x == Shifted(v, 6 * (d + 1)) + (64 * w + x)
  {
    ShiftedTwice(v, 6 * d, 6);
    ShiftedValues(Shifted(v, 6 * d));
  }

  lemma {:induction false} Append(s: string, t: string)
    ensures Digits(s + t) == Digits(s) + Digits(t)
    ensures Value(s + t) == Shifted(Value(s), 6 * Digits(t)) + Value(t)
  {
    hide Read, Digits, Value, Shifted;
    if t == [] {
      AppendNothing(s, t);
    } else {
      var init, c := t[..|t| - 1], t[|t| - 1];
      Append(s, init);
      assert s + t == (s + init) + [c] && t == init + [c];
      Snoc(s + init, c);
      Snoc(init, c);
      if Read(c).Digit? { ShiftedSnoc(Value(s), Value(init), Digits(init), Read(c).value); }
    }
  }

  lemma AppendNothing(s: string, t: string)
    requires t == []
    ensures s + t == s && Digits(t) == 0 && Value(t) == 0 && Shifted(Value(s), 0) == Value(s)
  {
  }

  lemma JoinBytes(a: Byte, b: Byte, c: Byte)
    ensures Or(Or(a * 0x1_0000, b * 0x100), c) == a * 0x1_0000 + b * 0x100 + c
  {
    Pow2Values();
    hide Or, Pow2;
    Disjoint(a * 0x1_0000, b * 0x100, 16);
    Disjoint(a * 0x1_0000 + b * 0x100, c, 8);
  }

  /** Reading four characters, the last of them possibly padding. */
  lemma FourChars(g: string)
    requires |g| == 4 && Read(g[0]).Digit? && Read(g[1]).Digit? && !(Read(g[3]).Digit? && !Read(g[2]).Digit?)
    ensures Digits(g) == if Read(g[3]).Digit? then 4 else if Read(g[2]).Digit? then 3 else 2
    ensures
      var two := 64 * Read(g[0]).value + Read(g[1]).value;
      Value(g) == if !Read(g[2]).Digit? then two
                  else if !Read(g[3]).Digit? then 64 * two + Read(g[2]).value
                  else 64 * (64 * two + Read(g[2]).value) + Read(g[3]).value
  {
    hide Read;
    Snoc([], g[0]);
    assert [] + [g[0]] == [g[0]] && Digits([]) == 0 && Value([]) == 0;
    hide Digits, Value;
    Snoc([g[0]], g[1]);
    assert [g[0]] + [g[1]] == [g[0], g[1]];
    Snoc([g[0], g[1]], g[2]);
    assert [g[0], g[1]] + [g[2]] == [g[0], g[1], g[2]];
    Snoc([g[0], g[1], g[2]], g[3]);
    assert [g[0], g[1], g[2]] + [g[3]] == g;
  }

  /** A chunk's bytes as a number. */
  lemma BytesAppend(data: ByteString, chunk: ByteString)
    requires 1 <= |chunk| <= 3
    ensures
      var v, w := FromBigEndian(data), FromBigEndian(data + chunk);
      && (|chunk| == 1 ==> w == 0x100 * v + chunk[0])
      && (|chunk| == 2 ==> w == 0x1_0000 * v + 0x100 * (chunk[0] as int) + chunk[1])
      && (|chunk| == 3 ==> w == 0x100_0000 * v + 0x1_0000 * (chunk[0] as int) + 0x100 * (chunk[1] as int) + chunk[2])
  {
    hide FromBigEndian;
    BytesSnoc(data, chunk[0]);
    if |chunk| == 1 {
      assert data + chunk == data + [chunk[0]];
    } else {
      var more := data + [chunk[0]];
      BytesSnoc(more, chunk[1]);
      if |chunk| == 2 {
        assert data + chunk == more + [chunk[1]];
      } else {
        BytesSnoc(more + [chunk[1]], chunk[2]);
        assert data + chunk == more + [chunk[1]] + [chunk[2]];
      }
    }
  }

  lemma ChunkValue(chunk: ByteString)
    requires 1 <= |chunk| <= 3
    ensures |chunk| == 1 ==> FromBigEndian(chunk) == chunk[0]
    ensures |chunk| == 2 ==> FromBigEndian(chunk) == 0x100 * (chunk[0] as int) + chunk[1]
    ensures |chunk| == 3 ==> FromBigEndian(chunk) == 0x1_0000 * (chunk[0] as int) + 0x100 * (chunk[1] as int) + chunk[2]
  {
    BytesAppend([], chunk);
    assert [] + chunk == chunk && FromBigEndian([]) == 0;
  }

  /** The sextets of a 24-bit word put together again. */
  lemma Sextets(n: nat)
    requires n < 0x100_0000
    ensures
      var two := 64 * ((n / 0x4_0000) % 64) + (n / 0x1000) % 64;
      && two == n / 0x1000
      && 64 * two + (n / 64) % 64 == n / 64
      && 64 * (64 * two + (n / 64) % 64) + n % 64 == n
  {}

  lemma GroupNumber(chunk: ByteString, b: Byte, c: Byte, n: nat)
    requires 1 <= |chunk| <= 3
    requires b == (if |chunk| > 1 then chunk[1] else 0) && c == (if |chunk| > 2 then chunk[2] else 0)
    requires n == chunk[0] as int * 0x1_0000 + b as int * 0x100 + c as int
    ensures Shifted(FromBigEndian(chunk), 2 * (3 - |chunk|)) == if |chunk| == 1 then n / 0x1000 else if |chunk| == 2 then n / 64 else n
  {
    ShiftedValues(FromBigEndian(chunk));
    ChunkValue(chunk);
    hide Shifted, FromBigEndian;
  }

  function GroupText(n: nat, k: nat): string {
    [Sextet(n, 18), Sextet(n, 12), if k > 1 then Sextet(n, 6) else '=', if k > 2 then Sextet(n, 0) else '=']
  }

  lemma GroupReads(n: nat, k: nat)
    requires n < 0x100_0000 && 1 <= k <= 3
    ensures Digits(GroupText(n, k)) == k + 1
    ensures Value(GroupText(n, k)) == if k == 1 then n / 0x1000 else if k == 2 then n / 64 else n
  {
    assert Read('=') == Skip;
    TopValues(n);
    hide Read, Sextet, Top, Digits, Value;
    FourChars(GroupText(n, k));
    Sextets(n);
  }

  lemma GroupEncodes(chunk: ByteString, b: Byte, c: Byte, n: nat)
    requires 1 <= |chunk| <= 3
    requires b == (if |chunk| > 1 then chunk[1] else 0) && c == (if |chunk| > 2 then chunk[2] else 0)
    requires n == chunk[0] as int * 0x1_0000 + b as int * 0x100 + c as int
    ensures Encodes(GroupText(n, |chunk|), chunk)
  {
    hide Read, Sextet, Top, Digits, Value, FromBigEndian, IsDigit, Shifted;
    GroupNumber(chunk, b, c, n);
    GroupReads(n, |chunk|);
    assert Padding(|chunk|) == 3 - |chunk|;
  }

  /** Four characters for a chunk of one to three bytes. */
  method Group(chunk: ByteString) returns (g: string)
    requires 1 <= |chunk| <= 3
    ensures Encodes(g, chunk)
  {
    var b: Byte := if |chunk| > 1 then chunk[1] else 0;
    var c: Byte := if |chunk| > 2 then chunk[2] else 0;
    var n := Or(Or(chunk[0] as int * 0x1_0000, b as int * 0x100), c);
    g := [Sextet(n, 18), Sextet(n, 12), if |chunk| > 1 then Sextet(n, 6) else '=', if |chunk| > 2 then Sextet(n, 0) else '='];
    JoinBytes(chunk[0], b, c);
    GroupEncodes(chunk, b, c, n);
  }

  /** One more group after whole groups. */
  lemma EncodesGroup(s: string, data: ByteString, g: string, chunk: ByteString)
    requires Encodes(s, data) && |data| % 3 == 0 && 1 <= |chunk| <= 3 && Encodes(g, chunk)
    ensures Encodes(s + g, data + chunk)
  {
    hide Digits, Value, Pow2, FromBigEndian, IsDigit, Shifted;
    assert Padding(|data + chunk|) == Padding(|chunk|) == 3 - |chunk| && Padding(|data|) == 0;
    assert |g| == 4 && Digits(g) == |chunk| + 1;
    Append(s, g);
    GroupValue(FromBigEndian(data), data, chunk);
    hide Padding;
    var pad, k := 3 - |chunk|, |s|;
    forall i | 0 <= i < |s + g| - pad ensures IsDigit((s + g)[i]) {
      if i >= k { assert (s + g)[i] == g[i - k]; }
    }
    forall i | |s + g| - pad <= i < |s + g| ensures (s + g)[i] == '=' {
      assert (s + g)[i] == g[i - k];
    }
  }

  lemma GroupValue(v: nat, data: ByteString, chunk: ByteString)
    requires 1 <= |chunk| <= 3 && v == FromBigEndian(data)
    ensures Shifted(Shifted(v, 0), 6 * (|chunk| + 1)) + Shifted(FromBigEndian(chunk), 2 * (3 - |chunk|))
         == Shifted(FromBigEndian(data + chunk), 2 * (3 - |chunk|))
  {
    var c, all := FromBigEndian(chunk), FromBigEndian(data + chunk);
    BytesAppend(data, chunk);
    ChunkValue(chunk);
    assert all == c + if |chunk| == 1 then 0x100 * v else if |chunk| == 2 then 0x1_0000 * v else 0x100_0000 * v;
    hide FromBigEndian;
    ShiftedValues(v);
    ShiftedValues(c);
    ShiftedValues(all);
    hide Shifted;
  }

  method Encode(data: ByteString) returns (out: string)
    ensures Encodes(out, data)
  {
    out := [];
    var i := 0;
    assert data[..0] == [] && Shifted(0, 0) == 0 && Encodes([], []);
    hide Encodes;
    while i < |data|
      invariant 0 <= i <= |data| && (i % 3 == 0 || i == |data|)
      invariant Encodes(out, data[..i])
    {
      var k := if |data| - i < 3 then |data| - i else 3;
      var chunk := data[i..i + k];
      var g := Group(chunk);
      EncodesGroup(out, data[..i], g, chunk);
      assert data[..i + k] == data[..i] + chunk;
      out := out + g;
      i := i + k;
    }
    assert data[..|data|] == data;
  }

  // ---------- round trips ----------

  lemma SameNumber(a: ByteString, b: ByteString)
    requires |a| == |b| && FromBigEndian(a) == FromBigEndian(b)
    ensures a == b
  {
    FromBigEndianRoundTrip(a);
    FromBigEndianRoundTrip(b);
  }

  lemma PaddingIsRest(n: nat)
    ensures 6 * (4 * ((n + 2) / 3) - Padding(n)) == 8 * n + 2 * Padding(n)
  {}

  /** Whatever the decoder makes of an encoded text is the data. */
  lemma RoundTrip(data: ByteString, s: string, r: Result<ByteString, char>)
    requires Encodes(s, data) && DecodesTo(s, r)
    ensures r == Ok(data)
  {
    assert Read('=') == Skip;
    assert forall i | 0 <= i < |s| :: IsDigit(s[i]) || s[i] == '=';
    assert Readable(s) && r.Ok?;
    hide Read, Digits, Value, FromBigEndian, Pow2, IsDigit, Readable;
    PaddingIsRest(|data|);
    TopOf(FromBigEndian(data), 0, 2 * Padding(|data|));
    hide Shifted, Top;
    SameNumber(r.value, data);
  }

  /** A text means one thing only. */
  lemma DecodingUnique(s: string, r: Result<ByteString, char>, r': Result<ByteString, char>)
    requires DecodesTo(s, r) && DecodesTo(s, r')
    ensures r == r'
  {
    if r.Ok? && r'.Ok? {
      SameNumber(r.value, r'.value);
    } else if r.Err? && r'.Err? {
      var i :| 0 <= i < |s| && Readable(s[..i]) && Read(s[i]) == Bad && s[i] == r.error;
      var j :| 0 <= j < |s| && Readable(s[..j]) && Read(s[j]) == Bad && s[j] == r'.error;
      FirstBad(s, i, j);
      FirstBad(s, j, i);
    }
  }

  lemma FirstBad(s: string, i: nat, j: nat)
    requires i < |s| && j < |s| && Read(s[i]) == Bad && Readable(s[..j])
    ensures j <= i
  {
    assert forall k | 0 <= k < j :: s[..j][k] == s[k];
  }

  /** Encoding and then decoding gives the data back, for every byte string. */
  method EncodeThenDecode(data: ByteString) returns (r: Result<ByteString, char>)
    ensures r == Ok(data)
  {
    var s := Encode(data);
    r := Decode(s);
    RoundTrip(data, s, r);
  }
}
