/** Address ranges: address text, list entries, and the byte-mask comparison against section 3.1 of RFC 4632. */
module Cidr {
  import opened Bits
  import opened Bytes
  import Ipv4
  import Ipv6
  import opened Parts
  import opened Wrappers

  datatype Family = V4 | V6

  datatype Address = Address(family: Family, bytes: ByteString)

  /** What the host makes of a group (parseInt with radix 16) and of a decimal part (Number); absent for no integer. */
  datatype Host = Host(hex: string -> Option<int>, num: string -> Option<int>)

  /** A parsed list entry. */
  datatype Range = Range(family: Family, bytes: ByteString, mask: nat)

  function Width(f: Family): nat {
    if f == V4 then 32 else 128
  }

  predicate GoodAddress(a: Address) {
    8 * |a.bytes| == Width(a.family)
  }

  predicate GoodRange(r: Range) {
    8 * |r.bytes| == Width(r.family) && r.mask <= Width(r.family)
  }

  /** The network part: the address as a number without its host bits. */
  function Network(b: ByteString, mask: nat): nat
    requires mask <= 8 * |b|
  {
    Top(FromBigEndian(b), 8 * |b| - mask)
  }

  // ---------- what the byte loop compares ----------

  function High(x: Byte, bits: nat): nat
    requires bits <= 8
  {
    Top(x, 8 - bits)
  }

  /** The whole bytes under the mask are equal, and so are the leading bits of the next one. */
  predicate Agree(a: ByteString, b: ByteString, mask: nat)
    requires |a| == |b| && mask <= 8 * |a|
  {
    a[..mask / 8] == b[..mask / 8] && (mask % 8 > 0 ==> High(a[mask / 8], mask % 8) == High(b[mask / 8], mask % 8))
  }

  /** Masking a byte keeps its leading bits. */
  lemma MaskedByte(x: Byte, take: nat)
    requires 0 < take <= 8
    ensures And(x, And((0xFF * Pow2(8 - take)) % U32, 0xFF)) == Shifted(High(x, take), 8 - take)
  {
    MaskValue(take);
    assert Pow2(8) == 256 by { Pow2Values(); }
    hide And, Pow2, Top, Low, Shifted;
    HighPart(x, 8 - take, 8);
  }

  /** The mask byte has ones from bit `8 - take` up. */
  lemma MaskValue(take: nat)
    requires 0 < take <= 8
    ensures And((0xFF * Pow2(8 - take)) % U32, 0xFF) == Pow2(8) - Pow2(8 - take)
  {
    var p := Pow2(8 - take);
    assert 0 < p <= 128 && Pow2(8) == 256 by { SmallPower(8 - take); }
    hide And, Pow2;
    assert (0xFF * p) % U32 == 0xFF * p;
    DivModUnique(0xFF * p, 256, p - 1, 256 - p);
    AndMask(0xFF * p, 8);
  }

  lemma SmallPower(k: nat)
    requires k < 8
    ensures 0 < Pow2(k) <= 128 && Pow2(8) == 256
  {
    Pow2Values();
    assert Pow2(0) == 1;
  }

  lemma MaskedEqual(x: Byte, y: Byte, take: nat)
    requires 0 < take <= 8
    ensures
      var m := And((0xFF * Pow2(8 - take)) % U32, 0xFF);
      And(x, m) == And(y, m) <==> High(x, take) == High(y, take)
  {
    MaskedByte(x, take);
    MaskedByte(y, take);
    assert 0 < Pow2(8 - take);
    hide And, High, Top, Shifted;
    TopOf(High(x, take), 0, 8 - take);
    TopOf(High(y, take), 0, 8 - take);
  }

  /** One entry against an address of the same family. */
  method InRange(a: ByteString, b: ByteString, mask: nat) returns (r: bool)
    requires |a| == |b| && mask <= 8 * |a|
    ensures r == Agree(a, b, mask)
  {
    var remaining, i := mask, 0;
    while remaining > 0
      invariant 0 <= i <= |a| && (remaining == mask - 8 * i || (remaining == 0 && mask < 8 * i < mask + 8))
      invariant remaining > 0 || mask % 8 == 0 ==> a[..i] == b[..i]
      invariant remaining == 0 ==> Agree(a, b, mask)
    {
      var take := if remaining < 8 then remaining else 8;
      var m := And((0xFF * Pow2(8 - take)) % U32, 0xFF);
      MaskedEqual(a[i], b[i], take);
      if And(a[i], m) != And(b[i], m) { return false; }
      remaining := remaining - take;
      i := i + 1;
    }
    r := true;
  }

  // ---------- the comparison is the network's ----------

  lemma FromBytesSnoc(b: ByteString)
    requires b != []
    ensures FromBigEndian(b) == Shifted(FromBigEndian(b[..|b| - 1]), 8) + b[|b| - 1]
  {
    ShiftedValues(FromBigEndian(b[..|b| - 1]));
  }

  /** A last byte outside the mask does not matter. */
  lemma DropLast(b: ByteString, mask: nat)
    requires b != [] && mask <= 8 * (|b| - 1)
    ensures Network(b, mask) == Network(b[..|b| - 1], mask)
  {
    var v, k := FromBigEndian(b[..|b| - 1]), 8 * (|b| - 1) - mask;
    FromBytesSnoc(b);
    assert Pow2(8) == 256 by { Pow2Values(); }
    hide FromBigEndian, Top, Shifted, Pow2;
    TopOf(v, b[|b| - 1], 8);
    TopTwice(FromBigEndian(b), 8, k);
  }

  /** A last byte inside the mask contributes its leading bits. */
  lemma KeepLast(b: ByteString, t: nat)
    requires b != [] && 0 < t <= 8
    ensures
      var v := FromBigEndian(b[..|b| - 1]);
      Network(b, 8 * (|b| - 1) + t) == Shifted(v, t) + High(b[|b| - 1], t) && High(b[|b| - 1], t) < Pow2(t)
  {
    var v, x := FromBigEndian(b[..|b| - 1]), b[|b| - 1];
    FromBytesSnoc(b);
    LeadingBits(v, x, t);
    assert 8 * |b| - (8 * (|b| - 1) + t) == 8 - t;
    hide FromBigEndian, Top, Shifted, Pow2;
  }

  lemma LeadingBits(v: nat, x: Byte, t: nat)
    requires 0 < t <= 8
    ensures Top(Shifted(v, 8) + x, 8 - t) == Shifted(v, t) + Top(x, 8 - t) && Top(x, 8 - t) < Pow2(t)
  {
    assert Pow2(t + (8 - t)) == 256 by { Pow2Values(); }
    hide Top, Shifted, Pow2;
    ShiftedTwice(v, t, 8 - t);
    TopOfSum(Shifted(v, t), x, 8 - t);
    TopBound(x, t, 8 - t);
  }

  /** The mask ends in the last byte. */
  lemma SameInside(a: ByteString, b: ByteString, mask: nat)
    requires |a| == |b| > 0 && 8 * (|a| - 1) < mask <= 8 * |a|
    ensures Agree(a, b, mask) <==> Network(a, mask) == Network(b, mask)
  {
    hide Network, High, FromBigEndian, Shifted, Pow2, Top, Agree;
    var n := |a|;
    var t := mask - 8 * (n - 1);
    KeepLast(a, t);
    KeepLast(b, t);
    LastByte(a, b, t);
    TopOf(FromBigEndian(a[..n - 1]), High(a[n - 1], t), t);
    TopOf(FromBigEndian(b[..n - 1]), High(b[n - 1], t), t);
    SameBytes(a[..n - 1], b[..n - 1]);
  }

  /** The mask ends before the last byte. */
  lemma SameOutside(a: ByteString, b: ByteString, mask: nat)
    requires |a| == |b| > 0 && mask <= 8 * (|a| - 1)
    ensures Agree(a, b, mask) <==> Agree(a[..|a| - 1], b[..|a| - 1], mask)
  {
    hide High;
    var a', b' := a[..|a| - 1], b[..|a| - 1];
    assert a'[..mask / 8] == a[..mask / 8] && b'[..mask / 8] == b[..mask / 8];
  }

  /** The byte loop accepts exactly the addresses with the entry's network. */
  lemma {:induction false} AgreeIffSameNetwork(a: ByteString, b: ByteString, mask: nat)
    requires |a| == |b| && mask <= 8 * |a|
    ensures Agree(a, b, mask) <==> Network(a, mask) == Network(b, mask)
  {
    var n := |a|;
    if n == 0 {
    } else if mask <= 8 * (n - 1) {
      hide Agree, Network;
      AgreeIffSameNetwork(a[..n - 1], b[..n - 1], mask);
      DropLast(a, mask);
      DropLast(b, mask);
      SameOutside(a, b, mask);
    } else {
      SameInside(a, b, mask);
    }
  }

  lemma SameBytes(a: ByteString, b: ByteString)
    requires |a| == |b|
    ensures a == b <==> FromBigEndian(a) == FromBigEndian(b)
  {
    FromBigEndianRoundTrip(a);
    FromBigEndianRoundTrip(b);
  }

  lemma LastByte(a: ByteString, b: ByteString, t: nat)
    requires |a| == |b| > 0 && 0 < t <= 8
    ensures Agree(a, b, 8 * (|a| - 1) + t) <==> a[..|a| - 1] == b[..|a| - 1] && High(a[|a| - 1], t) == High(b[|a| - 1], t)
  {
    var n := |a|;
    if t == 8 {
      assert High(a[n - 1], 8) == a[n - 1] && High(b[n - 1], 8) == b[n - 1];
      hide High;
      assert a == a[..n - 1] + [a[n - 1]] && b == b[..n - 1] + [b[n - 1]];
      assert a[..n] == a && b[..n] == b;
    }
  }

  // ---------- address and entry text ----------

  predicate LineEnd(c: char) {
    c == '\n' || c == '\r' || c == '\U{2028}' || c == '\U{2029}'
  }

  /** Everything from the first '%' on that no line end follows is cut off. */
  function WithoutZone(ip: string): string {
    if ip == [] then []
    else if ip[0] == '%' && forall i | 0 <= i < |ip| :: !LineEnd(ip[i]) then []
    else [ip[0]] + WithoutZone(ip[1..])
  }

  /** The address a text stands for, if any: IPv6 when what is left of it has a colon. */
  function Denoted(h: Host, ip: string): (r: Option<Address>)
    ensures r.Some? ==> GoodAddress(r.value)
  {
    var cleaned := WithoutZone(ip);
    if ip == [] then None
    else if ':' in cleaned then
      var v6 := Ipv6.V6Bytes(h.hex, h.num, cleaned);
      if v6.None? then None else Some(Address(V6, v6.value))
    else
      var v4 := Ipv4.V4Bytes(h.num, cleaned);
      if v4.None? then None else Some(Address(V4, v4.value))
  }

  method ParseIp(h: Host, ip: string) returns (r: Option<Address>)
    ensures r == Denoted(h, ip)
  {
    if ip == [] { return None; }
    var cleaned := WithoutZone(ip);
    if ':' in cleaned {
      var v6 := Ipv6.ParseV6(h.hex, h.num, cleaned);
      return if v6.None? then None else Some(Address(V6, v6.value));
    }
    var v4 := Ipv4.ParseV4(h.num, cleaned);
    r := if v4.None? then None else Some(Address(V4, v4.value));
  }

  /** The range an entry stands for: an address, and a mask that fits it or none, which means all its bits. */
  ghost predicate Stands(h: Host, entry: string, r: Range) {
    var parts := Split(entry, '/');
    && Denoted(h, parts[0]) == Some(Address(r.family, r.bytes))
    && if |parts| == 1 then r.mask == Width(r.family) else h.num(parts[1]) == Some(r.mask as int)
  }

  ghost predicate Accepted(h: Host, entry: string) {
    exists range :: Stands(h, entry, range) && range.mask <= Width(range.family)
  }

  /** An entry is accepted exactly when it stands for a range whose mask fits the address. */
  method ParseCidr(h: Host, entry: string) returns (r: Result<Range, string>)
    ensures r.Ok? ==> Stands(h, entry, r.value) && GoodRange(r.value)
    ensures r.Ok? <==> Accepted(h, entry)
    ensures r.Err? ==> r.error == entry
  {
    hide Denoted, Split;
    var parts := Split(entry, '/');
    var parsed := ParseIp(h, parts[0]);
    if parsed.None? { return Err(entry); }
    var fullBits := Width(parsed.value.family);
    var mask := if |parts| == 1 then Some(fullBits as int) else h.num(parts[1]);
    if mask.None? || mask.value < 0 || mask.value > fullBits { return Err(entry); }
    r := Ok(Range(parsed.value.family, parsed.value.bytes, mask.value));
  }

  /** The ranges that these entries stand for, in order. */
  ghost predicate StandFor(h: Host, entries: seq<string>, list: seq<Range>) {
    |list| == |entries| && forall i | 0 <= i < |entries| :: Stands(h, entries[i], list[i]) && GoodRange(list[i])
  }

  ghost predicate FirstRefused(h: Host, entries: seq<string>, entry: string) {
    exists i | 0 <= i < |entries| ::
      entry == entries[i] && !Accepted(h, entries[i]) && forall j | 0 <= j < i :: Accepted(h, entries[j])
  }

  /** A list of entries, or the first one that is not accepted. */
  method ParseAll(h: Host, entries: seq<string>) returns (r: Result<seq<Range>, string>)
    ensures r.Ok? ==> StandFor(h, entries, r.value)
    ensures r.Err? ==> FirstRefused(h, entries, r.error)
  {
    hide Stands, Accepted;
    var list: seq<Range> := [];
    for k := 0 to |entries|
      invariant |list| == k && forall i | 0 <= i < k :: Stands(h, entries[i], list[i]) && GoodRange(list[i])
      invariant forall i | 0 <= i < k :: Accepted(h, entries[i])
    {
      var range := ParseCidr(h, entries[k]);
      if range.Err? { return Err(range.error); }
      list := list + [range.value];
    }
    r := Ok(list);
  }

  // ---------- the list's text ----------

  /** The pieces that are not blank, trimmed. */
  function Nonblank(pieces: seq<string>): seq<string> {
    if pieces == [] then []
    else
      var init, last := Nonblank(pieces[..|pieces| - 1]), Trim(pieces[|pieces| - 1]);
      if last == [] then init else init + [last]
  }

  /** The entries of a list text: what stands between commas, trimmed, without the empty ones. */
  function Entries(raw: string): seq<string> {
    Nonblank(Split(raw, ','))
  }

  /** Every piece is blank or an entry that is accepted. */
  ghost predicate NoneRefused(h: Host, pieces: seq<string>) {
    forall i | 0 <= i < |pieces| :: Trim(pieces[i]) == [] || Accepted(h, Trim(pieces[i]))
  }

  lemma {:induction false} NonblankMembers(pieces: seq<string>, e: string)
    ensures e in Nonblank(pieces) <==> e != [] && exists i | 0 <= i < |pieces| :: Trim(pieces[i]) == e
  {
    hide Trim;
    if pieces != [] {
      var init := pieces[..|pieces| - 1];
      NonblankMembers(init, e);
      assert forall i | 0 <= i < |init| :: init[i] == pieces[i];
    }
  }

  /** Any comma-free pieces joined by commas are read back, blank ones dropped. */
  lemma EntriesOfJoin(pieces: seq<string>)
    requires pieces != [] && Free(pieces, ',')
    ensures Entries(Join(pieces, ',')) == Nonblank(pieces)
  {
    SplitJoin(pieces, ',');
  }

  /** A list text loads if and only if every piece between its commas is blank or an entry that is accepted. */
  method LoadCidrList(h: Host, raw: string) returns (r: Result<seq<Range>, string>)
    ensures r.Ok? <==> NoneRefused(h, Split(raw, ','))
    ensures r.Ok? ==> StandFor(h, Entries(raw), r.value)
    ensures r.Err? ==> FirstRefused(h, Entries(raw), r.error)
  {
    hide Trim, StandFor, FirstRefused, NoneRefused, Accepted, Split;
    var pieces := Split(raw, ',');
    var entries: seq<string> := [];
    for k := 0 to |pieces|
      invariant entries == Nonblank(pieces[..k])
    {
      assert pieces[..k + 1][..k] == pieces[..k];
      var trimmed := Trim(pieces[k]);
      if trimmed != [] { entries := entries + [trimmed]; }
    }
    assert pieces[..|pieces|] == pieces && entries == Entries(raw);
    r := ParseAll(h, entries);
    AllAccepted(h, pieces, r);
  }

  lemma AllAccepted(h: Host, pieces: seq<string>, r: Result<seq<Range>, string>)
    requires r.Ok? ==> StandFor(h, Nonblank(pieces), r.value)
    requires r.Err? ==> FirstRefused(h, Nonblank(pieces), r.error)
    ensures r.Ok? <==> NoneRefused(h, pieces)
  {
    hide Trim, Stands;
    var entries := Nonblank(pieces);
    if r.Ok? {
      forall i | 0 <= i < |pieces| ensures Trim(pieces[i]) == [] || Accepted(h, Trim(pieces[i])) {
        NonblankMembers(pieces, Trim(pieces[i]));
        if Trim(pieces[i]) != [] {
          var k :| 0 <= k < |entries| && entries[k] == Trim(pieces[i]);
          assert Stands(h, entries[k], r.value[k]);
        }
      }
    } else {
      var k :| 0 <= k < |entries| && !Accepted(h, entries[k]);
      NonblankMembers(pieces, entries[k]);
    }
  }

  // ---------- the list ----------

  predicate Inside(a: Address, r: Range)
    requires GoodAddress(a) && GoodRange(r)
  {
    r.family == a.family && Network(a.bytes, r.mask) == Network(r.bytes, r.mask)
  }

  /** An empty list lets everything through; otherwise the text must be an address in some range of its family. */
  method MatchesAny(h: Host, ip: string, list: seq<Range>) returns (r: bool)
    requires forall i | 0 <= i < |list| :: GoodRange(list[i])
    ensures r <==> list == [] || (Denoted(h, ip).Some? && exists i | 0 <= i < |list| :: Inside(Denoted(h, ip).value, list[i]))
  {
    hide Denoted, Network, Agree;
    if |list| == 0 { return true; }
    var parsed := ParseIp(h, ip);
    if parsed.None? { return false; }
    var a := parsed.value;
    for k := 0 to |list|
      invariant forall i | 0 <= i < k :: !Inside(a, list[i])
    {
      if list[k].family == a.family {
        var inside := InRange(a.bytes, list[k].bytes, list[k].mask);
        AgreeIffSameNetwork(a.bytes, list[k].bytes, list[k].mask);
        if inside { return true; }
      }
    }
    r := false;
  }
}
