/**
 The claims codec: fixmap, fixstr and str 8 of MessagePack. Strings are their UTF-8 bytes; which byte strings are
 valid UTF-8 is the parameter `utf8`, and the order in which the hash map is walked is the parameter `order`.
 */
module Claims {
  import opened Bits
  import opened Bytes
  import opened Wrappers

  type ClaimMap = map<ByteString, ByteString>

  type Utf8 = ByteString -> bool

  datatype ClaimsError =
    | TooManyClaims
    | StringTooLong
    | BufferTooShort(need: nat, have: nat)
    | ExpectedFixmap
    | UnexpectedByte(b: Byte)
    | NotUtf8

  // ---------- bit patterns of the type bytes ----------

  lemma Masks()
    ensures Pow2(4) == 16 && Pow2(5) == 32 && Pow2(8) == 256
  {
    Pow2Values();
  }

  predicate IsFixstr(x: Byte)
    ensures IsFixstr(x) <==> 0xA0 <= x < 0xC0
  {
    Masks();
    AndHighMask(x, 5, 8);
    And(x, 0xE0) == 0xA0
  }

  function FixstrLen(x: Byte): (n: nat)
    ensures n == x % 32
  {
    Masks();
    AndMask(x, 5);
    And(x, 0x1F)
  }

  function FixstrTag(n: nat): (x: Byte)
    requires n < 32
    ensures x == 0xA0 + n
  {
    Masks();
    Disjoint(0xA0, n, 5);
    Or(0xA0, n)
  }

  predicate IsFixmap(x: Byte)
    ensures IsFixmap(x) <==> 0x80 <= x < 0x90
  {
    Masks();
    AndHighMask(x, 4, 8);
    And(x, 0xF0) == 0x80
  }

  function FixmapLen(x: Byte): (n: nat)
    ensures n == x % 16
  {
    Masks();
    AndMask(x, 4);
    And(x, 0x0F)
  }

  function FixmapTag(n: nat): (x: Byte)
    requires n < 16
    ensures x == 0x80 + n
  {
    Masks();
    Disjoint(0x80, n, 4);
    Or(0x80, n)
  }

  // ---------- strings ----------

  function EncodeStr(s: ByteString): (r: Result<ByteString, ClaimsError>)
    ensures r.Ok? <==> |s| <= 255
    ensures r.Ok? ==> r.value == StrHeader(|s|) + s
    ensures r.Err? ==> r.error == StringTooLong
  {
    if |s| <= 31 then Ok([FixstrTag(|s|)] + s)
    else if |s| <= 255 then Ok([0xD9] + [|s|] + s)
    else Err(StringTooLong)
  }

  /** What precedes a string of `n` bytes. */
  function StrHeader(n: nat): ByteString
    requires n <= 255
  {
    if n <= 31 then [0xA0 + n] else [0xD9, n]
  }

  /** The string at the front of `data` and the number of bytes it takes; the cursor never leaves the buffer. */
  function DecodeStr(utf8: Utf8, data: ByteString): (r: Result<(ByteString, nat), ClaimsError>)
    ensures r.Ok? ==> |r.value.0| < r.value.1 <= |data| && |r.value.0| <= 255 && utf8(r.value.0)
    ensures r.Ok? ==> r.value.0 == data[r.value.1 - |r.value.0|..r.value.1]
  {
    if data == [] then Err(BufferTooShort(1, 0))
    else if IsFixstr(data[0]) then Body(utf8, data, FixstrLen(data[0]), 1)
    else if data[0] == 0xD9 then
      if |data| < 2 then Err(BufferTooShort(2, |data|)) else Body(utf8, data, data[1], 2)
    else Err(UnexpectedByte(data[0]))
  }

  function Body(utf8: Utf8, data: ByteString, len: nat, header: nat): (r: Result<(ByteString, nat), ClaimsError>)
    requires header <= |data|
  {
    if |data| < header + len then Err(BufferTooShort(header + len, |data|))
    else if utf8(data[header..header + len]) then Ok((data[header..header + len], header + len))
    else Err(NotUtf8)
  }

  /** A string reads back whatever follows it. */
  lemma StrRoundTrip(utf8: Utf8, s: ByteString, rest: ByteString)
    requires |s| <= 255 && utf8(s)
    ensures DecodeStr(utf8, EncodeStr(s).value + rest) == Ok((s, |EncodeStr(s).value|))
  {
    hide EncodeStr, Body, IsFixstr, FixstrLen, FixstrTag;
    var n := |s|;
    var data, header := EncodeStr(s).value + rest, if n <= 31 then [FixstrTag(n)] else [0xD9, n];
    EncodedParts(s);
    AfterHeader(header, s, rest, data);
    BodyReads(utf8, header, s, rest, data);
    assert data[0] == header[0];
    if n > 31 { assert data[1] == header[1]; }
  }

  lemma EncodedParts(s: ByteString)
    requires |s| <= 255
    ensures EncodeStr(s) == Ok((if |s| <= 31 then [FixstrTag(|s|)] else [0xD9, |s|]) + s)
  {
    hide FixstrTag;
  }

  lemma BodyReads(utf8: Utf8, header: ByteString, s: ByteString, rest: ByteString, data: ByteString)
    requires header != [] && data == header + s + rest && utf8(s)
    ensures Body(utf8, data, |s|, |header|) == Ok((s, |header + s|))
  {
    AfterHeader(header, s, rest, data);
  }

  lemma AfterHeader(header: ByteString, s: ByteString, rest: ByteString, data: ByteString)
    requires header != [] && data == header + s + rest
    ensures |data| >= |header| + |s| && data[|header|..|header| + |s|] == s
    ensures forall i | 0 <= i < |header| :: data[i] == header[i]
  {}

  // ---------- maps ----------

  predicate Fits(m: ClaimMap) {
    forall k | k in m :: |k| <= 255 && |m[k]| <= 255
  }

  ghost predicate AllUtf8(utf8: Utf8, m: ClaimMap) {
    forall k | k in m :: utf8(k) && utf8(m[k])
  }

  /** A walk over the map visits every key once. */
  ghost predicate Walk(m: ClaimMap, order: seq<ByteString>) {
    |order| == |m| && (forall k | k in order :: k in m) && (forall k | k in m :: k in order)
  }

  function EncodePairs(m: ClaimMap, order: seq<ByteString>): Result<ByteString, ClaimsError>
    requires forall k | k in order :: k in m
  {
    if order == [] then Ok([])
    else
      var k := EncodeStr(order[0]);
      if k.Err? then Err(k.error)
      else
        var v := EncodeStr(m[order[0]]);
        if v.Err? then Err(v.error)
        else
          Prepended(k.value + v.value, EncodePairs(m, order[1..]))
  }

  function Encoded(m: ClaimMap, order: seq<ByteString>): Result<ByteString, ClaimsError>
    requires forall k | k in order :: k in m
  {
    if |m| > 15 then Err(TooManyClaims)
    else Prepended([FixmapTag(|m|)], EncodePairs(m, order))
  }

  function DecodePairs(utf8: Utf8, data: ByteString, n: nat, acc: ClaimMap): Result<ClaimMap, ClaimsError> {
    if n == 0 then Ok(acc)
    else
      var k := DecodeStr(utf8, data);
      if k.Err? then Err(k.error)
      else
        var v := DecodeStr(utf8, data[k.value.1..]);
        if v.Err? then Err(v.error)
        else DecodePairs(utf8, data[k.value.1 + v.value.1..], n - 1, acc[k.value.0 := v.value.0])
  }

  function Decoded(utf8: Utf8, data: ByteString): Result<ClaimMap, ClaimsError> {
    if data == [] then Err(BufferTooShort(1, 0))
    else if !IsFixmap(data[0]) then Err(ExpectedFixmap)
    else DecodePairs(utf8, data[1..], FixmapLen(data[0]), map[])
  }

  function Prepended(front: ByteString, r: Result<ByteString, ClaimsError>): Result<ByteString, ClaimsError> {
    if r.Err? then r else Ok(front + r.value)
  }

  lemma PrependedTwice(a: ByteString, b: ByteString, r: Result<ByteString, ClaimsError>)
    ensures Prepended(a, Prepended(b, r)) == Prepended(a + b, r)
  {
    if r.Ok? { assert a + (b + r.value) == a + b + r.value; }
  }

  /** One pair of the walk. */
  lemma NextPair(m: ClaimMap, order: seq<ByteString>, i: nat, out: ByteString)
    requires i < |order| && forall k | k in order :: k in m
    ensures
      var k, v := EncodeStr(order[i]), EncodeStr(m[order[i]]);
      Prepended(out, EncodePairs(m, order[i..]))
      == if k.Err? then Err(k.error) else if v.Err? then Err(v.error)
         else Prepended(out + k.value + v.value, EncodePairs(m, order[i + 1..]))
  {
    hide EncodeStr, Prepended;
    var k, v := EncodeStr(order[i]), EncodeStr(m[order[i]]);
    assert order[i..][0] == order[i] && order[i..][1..] == order[i + 1..];
    if k.Ok? && v.Ok? {
      PrependedTwice(out, k.value + v.value, EncodePairs(m, order[i + 1..]));
      assert out + (k.value + v.value) == out + k.value + v.value;
    } else {
      ErrStays(out, EncodePairs(m, order[i..]));
    }
  }

  lemma ErrStays(front: ByteString, r: Result<ByteString, ClaimsError>)
    ensures r.Err? ==> Prepended(front, r) == r
  {}

  lemma NoPairs(m: ClaimMap, out: ByteString, order: seq<ByteString>)
    requires order == []
    ensures Prepended(out, EncodePairs(m, order)) == Ok(out)
  {
    assert out + [] == out;
  }

  method Encode(m: ClaimMap, order: seq<ByteString>) returns (r: Result<ByteString, ClaimsError>)
    requires Walk(m, order)
    ensures r == Encoded(m, order)
  {
    if |m| > 15 { return Err(TooManyClaims); }
    var out: ByteString := [FixmapTag(|m|)];
    assert order[0..] == order;
    hide EncodeStr, EncodePairs, Prepended, FixmapTag;
    for i := 0 to |order|
      invariant Encoded(m, order) == Prepended(out, EncodePairs(m, order[i..]))
    {
      NextPair(m, order, i, out);
      var k := EncodeStr(order[i]);
      if k.Err? { return Err(k.error); }
      var v := EncodeStr(m[order[i]]);
      if v.Err? { return Err(v.error); }
      out := out + k.value + v.value;
    }
    NoPairs(m, out, order[|order|..]);
    r := Ok(out);
  }

  /** One turn of the decoder's loop. */
  lemma DecodeStep(utf8: Utf8, data: ByteString, pos: nat, n: nat, acc: ClaimMap)
    requires pos <= |data| && n > 0
    ensures
      var r, k := DecodePairs(utf8, data[pos..], n, acc), DecodeStr(utf8, data[pos..]);
      if k.Err? then r == Err(k.error)
      else
        var v := DecodeStr(utf8, data[pos + k.value.1..]);
        if v.Err? then r == Err(v.error)
        else r == DecodePairs(utf8, data[pos + k.value.1 + v.value.1..], n - 1, acc[k.value.0 := v.value.0])
  {
    hide DecodeStr;
    var k := DecodeStr(utf8, data[pos..]);
    if k.Ok? {
      Drop(data, pos, k.value.1);
      var v := DecodeStr(utf8, data[pos + k.value.1..]);
      if v.Ok? { Drop(data, pos, k.value.1 + v.value.1); }
    }
  }

  method DecodeBody(utf8: Utf8, data: ByteString, n: nat, empty: ClaimMap) returns (r: Result<ClaimMap, ClaimsError>)
    requires data != []
    ensures r == DecodePairs(utf8, data[1..], n, empty)
  {
    hide DecodeStr, DecodePairs;
    var pos: nat, m := 1, empty;
    for i := 0 to n
      invariant 1 <= pos <= |data|
      invariant DecodePairs(utf8, data[1..], n, empty) == DecodePairs(utf8, data[pos..], n - i, m)
    {
      DecodeStep(utf8, data, pos, n - i, m);
      var k := DecodeStr(utf8, data[pos..]);
      if k.Err? { return Err(k.error); }
      pos := pos + k.value.1;
      var v := DecodeStr(utf8, data[pos..]);
      if v.Err? { return Err(v.error); }
      pos := pos + v.value.1;
      m := m[k.value.0 := v.value.0];
    }
    NoMorePairs(utf8, data[pos..], m);
    r := Ok(m);
  }

  method Decode(utf8: Utf8, data: ByteString) returns (r: Result<ClaimMap, ClaimsError>)
    ensures r == Decoded(utf8, data)
  {
    if |data| == 0 { return Err(BufferTooShort(1, 0)); }
    if !IsFixmap(data[0]) { return Err(ExpectedFixmap); }
    hide DecodePairs;
    r := DecodeBody(utf8, data, FixmapLen(data[0]), map[]);
  }

  lemma NoMorePairs(utf8: Utf8, data: ByteString, m: ClaimMap)
    ensures DecodePairs(utf8, data, 0, m) == Ok(m)
  {}

  lemma Drop(data: ByteString, i: nat, j: nat)
    requires i + j <= |data|
    ensures data[i..][j..] == data[i + j..]
  {}

  // ---------- properties ----------

  lemma {:induction false} PairsEncodeIff(m: ClaimMap, order: seq<ByteString>)
    requires forall k | k in order :: k in m
    ensures EncodePairs(m, order).Ok? <==> forall k | k in order :: |k| <= 255 && |m[k]| <= 255
    ensures EncodePairs(m, order).Err? ==> EncodePairs(m, order).error == StringTooLong
  {
    if order != [] {
      PairsEncodeIff(m, order[1..]);
      assert forall k :: k in order <==> k == order[0] || k in order[1..];
    }
  }

  /** Claims encode exactly when there are at most 15 and no string is longer than 255 bytes. */
  lemma EncodesIff(m: ClaimMap, order: seq<ByteString>)
    requires Walk(m, order)
    ensures Encoded(m, order).Ok? <==> |m| <= 15 && Fits(m)
    ensures Encoded(m, order).Err? ==> Encoded(m, order).error == if |m| > 15 then TooManyClaims else StringTooLong
  {
    PairsEncodeIff(m, order);
  }

  predicate Agrees(m: ClaimMap, acc: ClaimMap) {
    forall k | k in acc :: k in m && acc[k] == m[k]
  }

  lemma AgreesInsert(m: ClaimMap, acc: ClaimMap, k: ByteString)
    requires Agrees(m, acc) && k in m
    ensures Agrees(m, acc[k := m[k]]) && acc[k := m[k]].Keys == acc.Keys + {k}
  {}

  lemma {:induction false} PairsRoundTrip(utf8: Utf8, m: ClaimMap, order: seq<ByteString>, rest: ByteString, acc: ClaimMap)
    requires (forall k | k in order :: k in m) && EncodePairs(m, order).Ok? && AllUtf8(utf8, m) && Agrees(m, acc)
    ensures
      var r := DecodePairs(utf8, EncodePairs(m, order).value + rest, |order|, acc);
      r.Ok? && Agrees(m, r.value) && r.value.Keys == acc.Keys + (set k | k in order)
    decreases |order|
  {
    hide EncodeStr, DecodePairs, StrHeader, Agrees;
    if order == [] {
      assert EncodePairs(m, order).value + rest == rest;
      NoMorePairs(utf8, rest, acc);
    } else {
      var k := order[0];
      var ek, ev, tail := EncodeStr(k).value, EncodeStr(m[k]).value, EncodePairs(m, order[1..]).value;
      assert EncodePairs(m, order).value == ek + ev + tail;
      assert utf8(k) && utf8(m[k]);
      hide AllUtf8, EncodePairs;
      Concat(ek, ev, tail, rest);
      DecodeFirst(utf8, k, m[k], tail + rest, |order|, acc);
      AgreesInsert(m, acc, k);
      PairsRoundTrip(utf8, m, order[1..], rest, acc[k := m[k]]);
      assert (set x | x in order) == {k} + set x | x in order[1..];
    }
  }

  lemma DecodeFirst(utf8: Utf8, k: ByteString, v: ByteString, more: ByteString, n: nat, acc: ClaimMap)
    requires |k| <= 255 && |v| <= 255 && utf8(k) && utf8(v) && n > 0
    ensures DecodePairs(utf8, EncodeStr(k).value + (EncodeStr(v).value + more), n, acc)
         == DecodePairs(utf8, more, n - 1, acc[k := v])
  {
    hide EncodeStr, DecodeStr, StrHeader;
    var ek, ev := EncodeStr(k).value, EncodeStr(v).value;
    StrRoundTrip(utf8, k, ev + more);
    StrRoundTrip(utf8, v, more);
    assert (ek + (ev + more))[|ek|..] == ev + more && (ek + (ev + more))[|ek| + |ev|..] == more;
  }

  lemma Concat(a: ByteString, b: ByteString, c: ByteString, d: ByteString)
    ensures (a + b + c) + d == a + (b + (c + d))
  {}

  /** Whatever order the map is walked in, and whatever follows, the claims decode to themselves. */
  lemma RoundTrip(utf8: Utf8, m: ClaimMap, order: seq<ByteString>, rest: ByteString)
    requires Walk(m, order) && |m| <= 15 && Fits(m) && AllUtf8(utf8, m)
    ensures Encoded(m, order).Ok?
    ensures Decoded(utf8, Encoded(m, order).value + rest) == Ok(m)
  {
    EncodesIff(m, order);
    var body, none: ClaimMap := EncodePairs(m, order).value, map[];
    Framed(utf8, m, order, rest, none);
    hide EncodePairs, DecodePairs, Encoded, Decoded;
    PairsRoundTrip(utf8, m, order, rest, none);
    SameKeys(m, DecodePairs(utf8, body + rest, |order|, none).value, order);
  }

  lemma Framed(utf8: Utf8, m: ClaimMap, order: seq<ByteString>, rest: ByteString, none: ClaimMap)
    requires Walk(m, order) && Encoded(m, order).Ok? && none == map[]
    ensures Decoded(utf8, Encoded(m, order).value + rest)
         == DecodePairs(utf8, EncodePairs(m, order).value + rest, |order|, none)
  {
    hide DecodePairs, EncodePairs, IsFixmap, FixmapLen, FixmapTag;
    var data, body := Encoded(m, order).value + rest, EncodePairs(m, order).value;
    assert data == [FixmapTag(|m|)] + body + rest;
    assert data[0] == FixmapTag(|m|) && data[1..] == body + rest;
  }

  lemma SameKeys(m: ClaimMap, m': ClaimMap, order: seq<ByteString>)
    requires Walk(m, order) && Agrees(m, m') && m'.Keys == set k | k in order
    ensures m == m'
  {
    assert m.Keys == m'.Keys;
  }

  lemma {:induction false} PairsFit(utf8: Utf8, data: ByteString, n: nat, acc: ClaimMap)
    requires DecodePairs(utf8, data, n, acc).Ok? && Fits(acc) && AllUtf8(utf8, acc)
    ensures
      var m := DecodePairs(utf8, data, n, acc).value;
      Fits(m) && AllUtf8(utf8, m) && |m| <= |acc| + n
    decreases n
  {
    hide DecodeStr, Fits, AllUtf8;
    if n > 0 {
      var k := DecodeStr(utf8, data);
      var v := DecodeStr(utf8, data[k.value.1..]);
      InsertFits(utf8, acc, k.value.0, v.value.0);
      PairsFit(utf8, data[k.value.1 + v.value.1..], n - 1, acc[k.value.0 := v.value.0]);
    }
  }

  lemma InsertFits(utf8: Utf8, m: ClaimMap, k: ByteString, v: ByteString)
    requires Fits(m) && AllUtf8(utf8, m) && |k| <= 255 && |v| <= 255 && utf8(k) && utf8(v)
    ensures Fits(m[k := v]) && AllUtf8(utf8, m[k := v]) && |m[k := v]| <= |m| + 1
  {
    assert m[k := v].Keys == m.Keys + {k};
    assert |m[k := v]| == |m[k := v].Keys| && |m| == |m.Keys|;
  }

  /** Whatever decodes is within the caps, so it can be encoded again in any order and decodes to the same claims. */
  lemma DecodedReencodes(utf8: Utf8, data: ByteString, order: seq<ByteString>)
    requires Decoded(utf8, data).Ok? && Walk(Decoded(utf8, data).value, order)
    ensures
      var m := Decoded(utf8, data).value;
      Encoded(m, order).Ok? && Decoded(utf8, Encoded(m, order).value) == Ok(m)
  {
    var m := Decoded(utf8, data).value;
    PairsFit(utf8, data[1..], FixmapLen(data[0]), map[]);
    RoundTrip(utf8, m, order, []);
    assert Encoded(m, order).value + [] == Encoded(m, order).value;
  }

  /** One claim in bytes: the map's tag, the key with its header, then the value with its own. */
  lemma OneClaimBytes(k: ByteString, v: ByteString)
    requires |k| <= 31 && 32 <= |v| <= 255
    ensures Encoded(map[k := v], [k]) == Ok([0x81, 0xA0 + |k|] + k + [0xD9, |v|] + v)
  {
    var m: ClaimMap, rest: seq<ByteString> := map[k := v], [];
    assert |m| == 1;
    NoPairs(m, [], rest);
    NextPair(m, [k], 0, []);
    assert [k][0..] == [k] && [k][1..] == rest;
    hide EncodeStr, EncodePairs;
    NoPairs(m, [0xA0 + |k|] + k + ([0xD9, |v|] + v), rest);
    assert EncodePairs(m, [k]) == Ok([0xA0 + |k|] + k + ([0xD9, |v|] + v));
    assert [0x81] + ([0xA0 + |k|] + k + ([0xD9, |v|] + v)) == [0x81, 0xA0 + |k|] + k + [0xD9, |v|] + v;
  }

  /** The bytes `d` are a string of the format: a header of one byte, or of two for up to 255 bytes, and the string. */
  predicate StringBytes(d: ByteString, s: ByteString) {
    || (|s| <= 31 && |d| == 1 + |s| && d[0] == 0xA0 + |s| && d[1..] == s)
    || (|s| <= 255 && |d| == 2 + |s| && d[0] == 0xD9 && d[1] == |s| && d[2..] == s)
  }

  /** Exactly what is read as a string from the front of a buffer, the long header for short strings included. */
  lemma DecodeStrIff(utf8: Utf8, data: ByteString, s: ByteString, n: nat)
    ensures DecodeStr(utf8, data) == Ok((s, n)) <==> n <= |data| && StringBytes(data[..n], s) && utf8(s)
  {
    if n <= |data| && n > |s| {
      assert data[n - |s|..n] == data[..n][n - |s|..];
      assert n > 0 ==> data[0] == data[..n][0];
      assert n > 1 ==> data[1] == data[..n][1];
      hide IsFixstr, FixstrLen;
      StrByHeader(utf8, data, s, n);
    }
  }

  lemma StrByHeader(utf8: Utf8, data: ByteString, s: ByteString, n: nat)
    requires |s| < n <= |data|
    ensures DecodeStr(utf8, data) == Ok((s, n)) <==>
      && data[n - |s|..n] == s && utf8(s)
      && ((|s| <= 31 && n == 1 + |s| && data[0] == 0xA0 + |s|) || (|s| <= 255 && n == 2 + |s| && data[0] == 0xD9 && data[1] == |s|))
  {
    hide Body, IsFixstr, FixstrLen;
    if IsFixstr(data[0]) {
      BodyIff(utf8, data, FixstrLen(data[0]), 1, s, n);
    } else if data[0] == 0xD9 && |data| >= 2 {
      BodyIff(utf8, data, data[1], 2, s, n);
    }
  }

  lemma BodyIff(utf8: Utf8, data: ByteString, len: nat, header: nat, s: ByteString, n: nat)
    requires header <= |data| && |s| < n <= |data|
    ensures Body(utf8, data, len, header) == Ok((s, n)) <==>
      |s| == len && n == header + len && data[n - |s|..n] == s && utf8(s)
  {
  }

  /** A key that comes twice has its last value. */
  lemma LastValueWins(utf8: Utf8, k: ByteString, v: ByteString, w: ByteString, rest: ByteString)
    requires |k| <= 255 && |v| <= 255 && |w| <= 255 && utf8(k) && utf8(v) && utf8(w)
    ensures var ek, ev, ew := EncodeStr(k).value, EncodeStr(v).value, EncodeStr(w).value;
      Decoded(utf8, [0x82] + (ek + (ev + (ek + (ew + rest))))) == Ok(map[k := w])
  {
    hide EncodeStr, DecodePairs, Decoded, IsFixmap, FixmapLen;
    var none: ClaimMap := map[];
    var more := EncodeStr(k).value + (EncodeStr(w).value + rest);
    TwoClaims(utf8, EncodeStr(k).value + (EncodeStr(v).value + more), none);
    DecodeFirst(utf8, k, v, more, 2, none);
    DecodeFirst(utf8, k, w, rest, 1, none[k := v]);
    NoMorePairs(utf8, rest, none[k := v][k := w]);
    assert none[k := v][k := w] == map[k := w];
  }

  lemma TwoClaims(utf8: Utf8, body: ByteString, none: ClaimMap)
    requires none == map[]
    ensures Decoded(utf8, [0x82] + body) == DecodePairs(utf8, body, 2, none)
  {
    hide DecodePairs;
    assert ([0x82] + body)[1..] == body;
  }
}
