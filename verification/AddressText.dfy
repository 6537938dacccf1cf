/** Which address each text stands for, in the terms of its dots, colons and zone. */
module AddressText {
  import opened Bytes
  import opened Cidr
  import Ipv4
  import Ipv6
  import opened Parts
  import opened Wrappers

  // ---------- zones ----------

  predicate OneLine(s: string) {
    '\n' !in s && '\r' !in s && '\U{2028}' !in s && '\U{2029}' !in s
  }

  /** A zone, which is cut off, begins at `i`: a percent sign that no line end follows. */
  predicate ZoneAt(s: string, i: nat)
    requires i < |s|
  {
    s[i] == '%' && OneLine(s[i + 1..])
  }

  /** The text is cut at its first zone, and not at all if it has none. */
  lemma {:induction false} CutAtFirstZone(s: string, n: nat)
    requires n <= |s| && (forall i: nat | i < n :: !ZoneAt(s, i)) && (n < |s| ==> ZoneAt(s, n))
    ensures WithoutZone(s) == s[..n]
    decreases |s|
  {
    if s != [] {
      assert LastZone(s) <==> ZoneAt(s, 0) by { FirstIsZone(s); }
      if n > 0 {
        forall i: nat | i < n - 1 ensures !ZoneAt(s[1..], i) {
          assert !ZoneAt(s, i + 1) && s[1..][i + 1..] == s[i + 2..];
        }
        assert n < |s| ==> s[1..][n..] == s[n + 1..];
        CutAtFirstZone(s[1..], n - 1);
        assert s[..n] == [s[0]] + s[1..][..n - 1];
      }
    }
  }

  predicate LastZone(s: string) {
    s != [] && s[0] == '%' && forall i | 0 <= i < |s| :: !LineEnd(s[i])
  }

  lemma FirstIsZone(s: string)
    requires s != []
    ensures LastZone(s) <==> ZoneAt(s, 0)
  {
    assert forall i | 1 <= i < |s| :: s[i] == s[1..][i - 1];
    if ZoneAt(s, 0) {
      forall i | 0 <= i < |s| ensures !LineEnd(s[i]) {
        if i > 0 { assert s[i] in s[1..]; }
      }
    }
    if LastZone(s) {
      forall c | c in s[1..] ensures !LineEnd(c) {
        var i :| 0 <= i < |s[1..]| && s[1..][i] == c;
        assert s[i + 1] == c;
      }
    }
  }

  /** What may follow an address: nothing, or a percent sign and anything on one line. */
  predicate Zone(z: string) {
    z == [] || ZoneAt(z, 0)
  }

  lemma CutOff(s: string, zone: string)
    requires '%' !in s && Zone(zone)
    ensures WithoutZone(s + zone) == s
  {
    var t := s + zone;
    forall i: nat | i < |s| ensures !ZoneAt(t, i) {
      assert t[i] == s[i] && s[i] in s;
    }
    if zone != [] {
      assert t[|s| + 1..] == zone[1..];
    }
    CutAtFirstZone(t, |s|);
    assert t[..|s|] == s;
  }

  // ---------- addresses ----------

  /**
   A text without a colon stands for an address, with or without a zone, if and only if it is four parts between dots that
   read as octets; the address is those.
   */
  lemma DottedText(h: Host, s: string, zone: string, a: Address)
    requires '%' !in s && ':' !in s && Zone(zone)
    ensures Denoted(h, s + zone) == Some(a) <==>
      a.family == V4 && |a.bytes| == 4
      && exists p: seq<string> ::
           |p| == 4 && Free(p, '.') && s == Join(p, '.') && forall i | 0 <= i < 4 :: h.num(p[i]) == Some(a.bytes[i] as int)
  {
    CutOff(s, zone);
    Ipv4.DottedDenotes(h.num, s, a.bytes);
    hide WithoutZone, Join;
    if s + zone == [] {
      assert s == [];
      EmptyIsNoAddress(h);
    }
  }

  lemma EmptyIsNoAddress(h: Host)
    ensures Ipv4.V4Bytes(h.num, "") == None && Denoted(h, "") == None
  {
  }

  /** Two bytes for each group, most significant first. */
  predicate WordsAre(h: Host, groups: seq<string>, b: ByteString) {
    |b| == 2 * |groups| && forall i | 0 <= i < |groups| :: h.hex(groups[i]) == Some(0x100 * (b[2 * i] as int) + b[2 * i + 1])
  }

  lemma OneWord(h: Host, g: string, x: Byte, y: Byte)
    ensures (Ipv6.Word(h.hex, g).Some? && BigEndian(Ipv6.Word(h.hex, g).value, 2) == [x, y])
       <==> h.hex(g) == Some(0x100 * x + y)
  {
    if Ipv6.Word(h.hex, g).Some? {
      Ipv6.TwoBytes(Ipv6.Word(h.hex, g).value);
    }
  }

  lemma WordsSnoc(h: Host, groups: seq<string>, b: ByteString)
    requires groups != [] && |b| == 2 * |groups|
    ensures var n := |groups|;
      WordsAre(h, groups, b) <==>
        WordsAre(h, groups[..n - 1], b[..2 * n - 2]) && h.hex(groups[n - 1]) == Some(0x100 * (b[2 * n - 2] as int) + b[2 * n - 1])
  {
    var n := |groups|;
    var init, b' := groups[..n - 1], b[..2 * n - 2];
    assert forall i | 0 <= i < n - 1 :: init[i] == groups[i] && b'[2 * i] == b[2 * i] && b'[2 * i + 1] == b[2 * i + 1];
    if WordsAre(h, init, b') && h.hex(groups[n - 1]) == Some(0x100 * (b[2 * n - 2] as int) + b[2 * n - 1]) {
      forall i | 0 <= i < n ensures h.hex(groups[i]) == Some(0x100 * (b[2 * i] as int) + b[2 * i + 1]) {
        if i < n - 1 {
          assert h.hex(init[i]) == Some(0x100 * (b'[2 * i] as int) + b'[2 * i + 1]);
        }
      }
    }
  }

  lemma {:induction false} WordBytesIff(h: Host, groups: seq<string>, b: ByteString)
    ensures Ipv6.WordBytes(h.hex, groups) == Some(b) <==> WordsAre(h, groups, b)
  {
    var n := |groups|;
    if n > 0 && |b| == 2 * n {
      hide WordsAre, Ipv6.Word, BigEndian;
      var init, b' := groups[..n - 1], b[..2 * n - 2];
      WordBytesIff(h, init, b');
      WordsSnoc(h, groups, b);
      OneWord(h, groups[n - 1], b[2 * n - 2], b[2 * n - 1]);
      assert b == b' + [b[2 * n - 2], b[2 * n - 1]];
      WordBytesSnoc(h, groups, b, b', [b[2 * n - 2], b[2 * n - 1]]);
    }
  }

  lemma WordBytesSnoc(h: Host, groups: seq<string>, b: ByteString, b': ByteString, last: ByteString)
    requires groups != [] && b == b' + last && |last| == 2
    ensures var g := groups[|groups| - 1];
      Ipv6.WordBytes(h.hex, groups) == Some(b) <==>
        && Ipv6.WordBytes(h.hex, groups[..|groups| - 1]) == Some(b')
        && Ipv6.Word(h.hex, g).Some? && BigEndian(Ipv6.Word(h.hex, g).value, 2) == last
  {
    hide Ipv6.Word, BigEndian;
    var init, w := Ipv6.WordBytes(h.hex, groups[..|groups| - 1]), Ipv6.Word(h.hex, groups[|groups| - 1]);
    if init.Some? && w.Some? {
      SplitLast(init.value, BigEndian(w.value, 2), b', last);
    }
  }

  lemma SplitLast(a: ByteString, x: ByteString, b: ByteString, y: ByteString)
    requires |x| == |y|
    ensures a + x == b + y <==> a == b && x == y
  {
    if a + x == b + y {
      assert |a| == |b|;
      assert a == (a + x)[..|a|] && b == (b + y)[..|b|];
      assert x == (a + x)[|a|..] && y == (b + y)[|b|..];
    }
  }

  /**
   A text with a colon, unless it is an IPv4-mapped one in dots, stands for the sixteen bytes of its eight groups, if it has
   that many and all read as words, whatever its zone.
   */
  lemma ColonText(h: Host, s: string, zone: string, a: Address)
    requires '%' !in s && ':' in s && Zone(zone) && !Ipv6.Mapped(s)
    ensures Denoted(h, s + zone) == Some(a) <==>
      a.family == V6 && Ipv6.Groups(s).Some? && WordsAre(h, Ipv6.Groups(s).value, a.bytes)
  {
    CutOff(s, zone);
    assert s + zone != [];
    if Ipv6.Groups(s).Some? {
      WordBytesIff(h, Ipv6.Groups(s).value, a.bytes);
    }
    hide WithoutZone, Ipv6.Mapped, Ipv6.Groups, Ipv6.WordBytes, WordsAre;
  }

  const MAPPED: string := "::ffff:"

  lemma MappedShape(p: seq<string>, s: string)
    requires |p| == 4 && s == MAPPED + Join(p, '.')
    requires forall i | 0 <= i < 4 :: p[i] != [] && forall c | c in p[i] :: '0' <= c <= '9'
    ensures Ipv6.Mapped(s) && ':' in s && s[7..] == Join(p, '.') && Free(p, '.')
  {
    var prefix := MAPPED;
    assert |prefix| == 7 && s[7..] == Join(p, '.') && forall i | 0 <= i < 7 :: s[i] == prefix[i];
    assert Free(p, '.');
    SplitJoin(p, '.');
    hide Join, Split;
    assert Ipv6.DottedDigits(s[7..]) by {
      forall i, j | 0 <= i < 4 && 0 <= j < |p[i]| ensures Ipv6.IsDigit(p[i][j]) {
        assert p[i][j] in p[i];
      }
    }
    assert s[0] == ':';
  }

  lemma NoPercent(p: seq<string>, s: string)
    requires |p| == 4 && s == MAPPED + Join(p, '.')
    requires forall i | 0 <= i < 4 :: forall c | c in p[i] :: '0' <= c <= '9'
    ensures '%' !in s
  {
    Ipv6.JoinFour(p, '.');
    hide Join;
    assert forall i | 0 <= i < 4 :: '%' !in p[i];
    assert '%' !in MAPPED;
  }

  /** "::ffff:" and four runs of decimal digits: ten zero bytes, two of 255, and the four octets. */
  lemma MappedText(h: Host, p: seq<string>, zone: string, b: ByteString)
    requires |p| == 4 == |b| && Zone(zone)
    requires forall i | 0 <= i < 4 :: p[i] != [] && (forall c | c in p[i] :: '0' <= c <= '9') && h.num(p[i]) == Some(b[i] as int)
    ensures Denoted(h, "::ffff:" + Join(p, '.') + zone)
         == Some(Address(V6, [0, 0, 0, 0, 0, 0, 0, 0, 0, 0, 255, 255, b[0], b[1], b[2], b[3]]))
  {
    var s := MAPPED + Join(p, '.');
    MappedShape(p, s);
    NoPercent(p, s);
    CutOff(s, zone);
    FourOctets(h, p, b);
    hide Join, WithoutZone, Ipv6.Mapped, Ipv4.V4Bytes, Ipv6.V6Bytes;
    MappedBytes(h, s, b);
    assert s + zone != [];
  }

  lemma FourOctets(h: Host, p: seq<string>, b: ByteString)
    requires |p| == 4 == |b| && Free(p, '.') && forall i | 0 <= i < 4 :: h.num(p[i]) == Some(b[i] as int)
    ensures Ipv4.V4Bytes(h.num, Join(p, '.')) == Some(b)
  {
    Ipv4.DottedDenotes(h.num, Join(p, '.'), b);
  }

  lemma MappedBytes(h: Host, s: string, b: ByteString)
    requires Ipv6.Mapped(s) && |b| == 4 && Ipv4.V4Bytes(h.num, s[7..]) == Some(b)
    ensures Ipv6.V6Bytes(h.hex, h.num, s) == Some([0, 0, 0, 0, 0, 0, 0, 0, 0, 0, 255, 255, b[0], b[1], b[2], b[3]])
  {
    hide Ipv6.Mapped, Ipv4.V4Bytes;
    assert Ipv6.MAPPED_PREFIX + b == [0, 0, 0, 0, 0, 0, 0, 0, 0, 0, 255, 255, b[0], b[1], b[2], b[3]];
  }

  // ---------- entries ----------

  /** An entry without a slash is its one address, with all 32 or 128 bits; with one, the mask is the number after it. */
  lemma EntryText(h: Host, addr: string, mask: string, r: Range)
    requires '/' !in addr && '/' !in mask
    ensures Stands(h, addr, r) <==>
      Denoted(h, addr) == Some(Address(r.family, r.bytes)) && r.mask == if r.family == V4 then 32 else 128
    ensures Stands(h, addr + "/" + mask, r) <==>
      Denoted(h, addr) == Some(Address(r.family, r.bytes)) && h.num(mask) == Some(r.mask as int)
  {
    SplitPlain(addr, mask, '/');
    SplitPlain(mask, [], '/');
    assert addr + ['/'] + mask == addr + "/" + mask;
    hide Denoted, Split;
  }

  /** A range with all bits holds its one address, a range with none every address of its family. */
  lemma FullAndEmptyMasks(a: Address, r: Range)
    requires GoodAddress(a) && GoodRange(r)
    ensures r.mask == Width(r.family) ==> (Inside(a, r) <==> a == Address(r.family, r.bytes))
    ensures r.mask == 0 ==> (Inside(a, r) <==> a.family == r.family)
  {
    if a.family == r.family {
      hide Network;
      AgreeIffSameNetwork(a.bytes, r.bytes, r.mask);
      if r.mask == Width(r.family) {
        assert a.bytes[..|a.bytes|] == a.bytes && r.bytes[..|r.bytes|] == r.bytes;
      } else if r.mask == 0 {
        assert a.bytes[..0] == r.bytes[..0];
      }
    }
  }
}
