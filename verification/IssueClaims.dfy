/**
 The claims of an issue request as the server's issue route hands them to the encoder. They have passed the structural
 check, which allows more entries, longer strings and nested values than the wire format does.
 */
module IssueClaims {
  import opened Bytes
  import opened Claims
  import opened Wrappers

  /** A value the encoder turns into text, as its UTF-8 bytes, or an object or array, which it refuses. */
  datatype Value = Text(bytes: ByteString) | Nested

  datatype Entry = Entry(key: ByteString, value: Value)

  datatype Refusal = TooMany | UnsupportedValue(key: ByteString) | TooLong

  function EncodeEntries(entries: seq<Entry>): Result<ByteString, Refusal> {
    if entries == [] then Ok([])
    else if entries[0].value.Nested? then Err(UnsupportedValue(entries[0].key))
    else
      var k, v := EncodeStr(entries[0].key), EncodeStr(entries[0].value.bytes);
      if k.Err? || v.Err? then Err(TooLong)
      else
        var rest := EncodeEntries(entries[1..]);
        if rest.Err? then rest else Ok(k.value + v.value + rest.value)
  }

  /** The encoder, entry by entry in the order of the object. */
  function EncodeClaims(entries: seq<Entry>): Result<ByteString, Refusal> {
    if |entries| > 15 then Err(TooMany)
    else
      var body := EncodeEntries(entries);
      if body.Err? then body else Ok([FixmapTag(|entries|)] + body.value)
  }

  predicate Short(e: Entry) {
    e.value.Text? && |e.key| <= 255 && |e.value.bytes| <= 255
  }

  /** What a caller can check before asking: at most 15 claims, none nested, no string over 255 bytes. */
  predicate WithinCaps(entries: seq<Entry>) {
    |entries| <= 15 && forall i | 0 <= i < |entries| :: Short(entries[i])
  }

  lemma {:induction false} EntriesEncodeIff(entries: seq<Entry>)
    ensures EncodeEntries(entries).Ok? <==> forall i | 0 <= i < |entries| :: Short(entries[i])
  {
    hide EncodeStr;
    if entries != [] {
      EntriesEncodeIff(entries[1..]);
      if forall i | 0 <= i < |entries| :: Short(entries[i]) {
        assert forall i | 0 <= i < |entries[1..]| :: entries[1..][i] == entries[i + 1];
      } else if EncodeEntries(entries[1..]).Ok? {
        assert forall i | 1 <= i < |entries| :: entries[1..][i - 1] == entries[i];
      }
    }
  }

  lemma EncodesIffWithinCaps(entries: seq<Entry>)
    ensures EncodeClaims(entries).Ok? <==> WithinCaps(entries)
  {
    EntriesEncodeIff(entries);
  }

  /** A map of strings as a list of entries, in the order it is walked. */
  function Listed(m: ClaimMap, order: seq<ByteString>): (entries: seq<Entry>)
    requires forall k | k in order :: k in m
    ensures |entries| == |order|
  {
    if order == [] then [] else [Entry(order[0], Text(m[order[0]]))] + Listed(m, order[1..])
  }

  lemma {:induction false} ListedEncodes(m: ClaimMap, order: seq<ByteString>)
    requires forall k | k in order :: k in m
    ensures EncodeEntries(Listed(m, order)).Ok? == EncodePairs(m, order).Ok?
    ensures EncodePairs(m, order).Ok? ==> EncodeEntries(Listed(m, order)).value == EncodePairs(m, order).value
  {
    hide EncodeStr;
    if order != [] {
      assert Listed(m, order)[1..] == Listed(m, order[1..]);
      ListedEncodes(m, order[1..]);
    }
  }

  /** On maps of strings the route's encoder and the Rust encoder agree, byte for byte. */
  lemma SameAsCore(m: ClaimMap, order: seq<ByteString>)
    requires Walk(m, order)
    ensures EncodeClaims(Listed(m, order)).Ok? == Encoded(m, order).Ok?
    ensures Encoded(m, order).Ok? ==> EncodeClaims(Listed(m, order)).value == Encoded(m, order).value
  {
    ListedEncodes(m, order);
  }

  /** Sixteen small claims: the structural check lets up to 64 through. */
  function SixteenClaims(): (entries: seq<Entry>)
    ensures |entries| == 16
  {
    seq(16, i requires 0 <= i < 16 => Entry([i], Text([])))
  }

  lemma SixteenRefused()
    ensures EncodeClaims(SixteenClaims()) == Err(TooMany) && !WithinCaps(SixteenClaims())
  {}
}
