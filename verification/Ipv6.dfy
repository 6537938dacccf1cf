/** IPv6 text: splitting at colons, expanding "::" and embedded IPv4 text (section 2.2 of RFC 4291). */
module Ipv6 {
  import opened Bytes
  import opened Ipv4
  import opened Parts
  import opened Wrappers

  /** Where the first "::" begins. */
  function FindPair(s: string): (i: Option<nat>)
    ensures i.Some? ==> i.value + 2 <= |s|
  {
    if |s| < 2 then None
    else if s[0] == ':' && s[1] == ':' then Some(0)
    else
      var i := FindPair(s[1..]);
      if i.None? then None else Some(i.value + 1)
  }

  function Pieces(s: string): seq<string> {
    if s == [] then [] else Split(s, ':')
  }

  /** `n` groups of "0". */
  function Zeros(n: nat): seq<string> {
    seq(n, _ => "0")
  }

  /** What stands between the first "::" and the second, or the end. */
  function TailOf(rest: string): string {
    var j := FindPair(rest);
    if j.None? then rest else rest[..j.value]
  }

  /** Head and tail filled up to eight groups. */
  function Filled(head: seq<string>, tail: seq<string>): seq<string>
    requires |head| + |tail| <= 8
  {
    head + Zeros(8 - |head| - |tail|) + tail
  }

  /** The text with its "::" filled up to eight groups. */
  function Expanded(s: string): Option<string> {
    var i := FindPair(s);
    if i.None? then Some(s)
    else
      var head, tail := Pieces(s[..i.value]), Pieces(TailOf(s[i.value + 2..]));
      if |head| + |tail| > 8 then None else Some(Join(Filled(head, tail), ':'))
  }

  /** The eight groups of an address text. */
  function Groups(s: string): Option<seq<string>> {
    var e := Expanded(s);
    if e.None? || |Split(e.value, ':')| != 8 then None else Some(Split(e.value, ':'))
  }

  /** What a group must read as. `hex` is the host's parseInt with radix 16, absent when it yields no number. */
  function Word(hex: string -> Option<int>, g: string): Option<nat> {
    if hex(g).None? || hex(g).value < 0 || hex(g).value > 0xFFFF then None else Some(hex(g).value)
  }

  function WordBytes(hex: string -> Option<int>, groups: seq<string>): (r: Option<ByteString>)
    ensures r.Some? ==> |r.value| == 2 * |groups|
  {
    if groups == [] then Some([])
    else
      var last, init := Word(hex, groups[|groups| - 1]), WordBytes(hex, groups[..|groups| - 1]);
      if init.None? || last.None? then None else Some(init.value + BigEndian(last.value, 2))
  }

  function GroupBytes(hex: string -> Option<int>, s: string): Option<ByteString> {
    if Groups(s).None? then None else WordBytes(hex, Groups(s).value)
  }

  /** "::ffff:" in either case. */
  predicate MappedPrefix(s: string) {
    && |s| >= 7 && s[0] == s[1] == s[6] == ':'
    && forall i | 2 <= i < 6 :: s[i] == 'f' || s[i] == 'F'
  }

  predicate IsDigit(c: char) {
    '0' <= c <= '9'
  }

  /** Four runs of digits between dots. */
  predicate DottedDigits(s: string) {
    var p := Split(s, '.');
    |p| == 4 && forall i | 0 <= i < 4 :: p[i] != [] && forall j | 0 <= j < |p[i]| :: IsDigit(p[i][j])
  }

  predicate Mapped(s: string): (r: bool)
    ensures r ==> |s| >= 7
  {
    MappedPrefix(s) && DottedDigits(s[7..])
  }

  /** The first twelve bytes of an IPv4-mapped address (section 2.5.5.2 of RFC 4291). */
  const MAPPED_PREFIX: ByteString := [0, 0, 0, 0, 0, 0, 0, 0, 0, 0, 0xff, 0xff]

  function V6Bytes(hex: string -> Option<int>, num: string -> Option<int>, s: string): (r: Option<ByteString>)
    ensures r.Some? ==> |r.value| == 16
  {
    if Mapped(s) then
      var v4 := V4Bytes(num, s[7..]);
      if v4.None? then None else Some(MAPPED_PREFIX + v4.value)
    else GroupBytes(hex, s)
  }

  method ParseV6(hex: string -> Option<int>, num: string -> Option<int>, s: string) returns (r: Option<ByteString>)
    ensures r == V6Bytes(hex, num, s)
  {
    hide Mapped, V4Bytes, GroupBytes;
    if Mapped(s) {
      var v4 := ParseV4(num, s[7..]);
      if v4.None? { return None; }
      var out := Embed(v4.value);
      return Some(out);
    }
    r := ParseGroups(hex, s);
  }

  method Embed(v4: ByteString) returns (b: ByteString)
    requires |v4| == 4
    ensures b == MAPPED_PREFIX + v4
  {
    var out := new Byte[16](_ => 0);
    out[10] := 0xff;
    out[11] := 0xff;
    for i := 0 to 4
      invariant forall j | 0 <= j < 12 :: out[j] == MAPPED_PREFIX[j]
      invariant forall j | 0 <= j < i :: out[12 + j] == v4[j]
    {
      out[12 + i] := v4[i];
    }
    b := out[..];
    assert b[..12] == MAPPED_PREFIX && b[12..] == v4;
  }

  /** The text without embedded IPv4. */
  method ParseGroups(hex: string -> Option<int>, s: string) returns (r: Option<ByteString>)
    ensures r == GroupBytes(hex, s)
  {
    var e := Expanded(s);
    if e.None? { return None; }
    var parts := Split(e.value, ':');
    if |parts| != 8 { return None; }
    var out := new Byte[16];
    for i := 0 to 8
      invariant WordBytes(hex, parts[..i]) == Some(out[..2 * i])
    {
      assert parts[..i + 1][..i] == parts[..i] && parts[..i + 1][i] == parts[i];
      var n := Word(hex, parts[i]);
      if n.None? {
        NoWord(hex, parts, i);
        return None;
      }
      ghost var before := out[..2 * i];
      out[2 * i] := (n.value / 256) % 256;
      out[2 * i + 1] := n.value % 256;
      TwoBytes(n.value);
      assert out[..2 * (i + 1)] == before + BigEndian(n.value, 2);
    }
    assert parts[..8] == parts && out[..16] == out[..];
    r := Some(out[..]);
  }

  lemma TwoBytes(n: nat)
    requires n <= 0xFFFF
    ensures BigEndian(n, 2) == [(n / 256) % 256, n % 256]
  {
    assert BigEndian(n / 256 / 256, 0) == [];
    assert BigEndian(n / 256, 1) == [] + [(n / 256) % 256];
  }

  lemma {:induction false} NoWord(hex: string -> Option<int>, groups: seq<string>, i: nat)
    requires i < |groups| && Word(hex, groups[i]).None?
    ensures WordBytes(hex, groups).None?
    decreases |groups|
  {
    if i < |groups| - 1 { NoWord(hex, groups[..|groups| - 1], i); }
  }

  // ---------- what the expansion denotes ----------

  /** Groups as the grammar has them: not empty, no colon inside. */
  predicate Plain(parts: seq<string>) {
    forall i | 0 <= i < |parts| :: parts[i] != [] && ':' !in parts[i]
  }

  /** A plain head keeps the first "::" after it the first. */
  lemma {:induction false} PairAfterWord(s: string, rest: string)
    requires s != [] && ':' !in s && (rest == [] || FindPair(rest) == Some(0))
    ensures FindPair(s + rest) == if FindPair(rest).None? then None else Some(|s| + FindPair(rest).value)
    decreases |s|
  {
    assert (s + rest)[1..] == s[1..] + rest;
    if |s| > 1 {
      PairAfterWord(s[1..], rest);
    } else {
      assert s[1..] + rest == rest;
      if |rest| < 2 { assert FindPair(rest) == None; }
    }
  }

  /** No "::" inside joined plain groups, and none formed at their end. */
  lemma {:induction false} PairAfterJoin(parts: seq<string>, rest: string)
    requires Plain(parts) && parts != [] && (rest == [] || FindPair(rest) == Some(0))
    ensures FindPair(Join(parts, ':') + rest) == if rest == [] then None else Some(|Join(parts, ':')|)
    decreases |parts|
  {
    if |parts| == 1 {
      PairAfterWord(parts[0], rest);
    } else {
      var more := Join(parts[1..], ':');
      PairAfterJoin(parts[1..], rest);
      StartsPlain(parts[1..]);
      var tail := [':'] + (more + rest);
      assert tail[1..] == more + rest && tail[1] == more[0];
      assert Join(parts, ':') + rest == parts[0] + tail;
      WordThenColon(parts[0], tail);
    }
  }

  lemma StartsPlain(parts: seq<string>)
    requires Plain(parts) && parts != []
    ensures Join(parts, ':') != [] && Join(parts, ':')[0] != ':'
  {
    assert parts[0][0] in parts[0];
  }

  /** A word before a single colon. */
  lemma {:induction false} WordThenColon(s: string, tail: string)
    requires s != [] && ':' !in s && |tail| >= 2 && tail[0] == ':' && tail[1] != ':'
    ensures FindPair(s + tail) == if FindPair(tail[1..]).None? then None else Some(|s| + 1 + FindPair(tail[1..]).value)
    decreases |s|
  {
    assert (s + tail)[1..] == s[1..] + tail && (s + tail)[0] == s[0] && s[0] in s;
    if |s| > 1 {
      WordThenColon(s[1..], tail);
    } else {
      assert s[1..] + tail == tail;
      assert FindPair(tail) == if FindPair(tail[1..]).None? then None else Some(1 + FindPair(tail[1..]).value);
    }
  }

  /** The text of a head and a tail around "::". */
  function Abbreviated(head: seq<string>, tail: seq<string>): string {
    Join(head, ':') + ([':', ':'] + Join(tail, ':'))
  }

  lemma PairFirst(rest: string)
    ensures FindPair([':', ':'] + rest) == Some(0) && ([':', ':'] + rest)[2..] == rest
  {}

  lemma PairAfterHead(parts: seq<string>, rest: string)
    requires Plain(parts)
    ensures FindPair(Join(parts, ':') + ([':', ':'] + rest)) == Some(|Join(parts, ':')|)
  {
    PairFirst(rest);
    if parts == [] {
      assert Join(parts, ':') + ([':', ':'] + rest) == [':', ':'] + rest;
    } else {
      PairAfterJoin(parts, [':', ':'] + rest);
    }
  }

  lemma PiecesOfJoin(parts: seq<string>)
    requires Plain(parts)
    ensures Pieces(Join(parts, ':')) == parts
  {
    if parts != [] {
      StartsPlain(parts);
      SplitJoin(parts, ':');
    }
  }

  lemma NoPairInside(parts: seq<string>)
    requires Plain(parts)
    ensures FindPair(Join(parts, ':')) == None
  {
    if parts != [] {
      PairAfterJoin(parts, []);
      assert Join(parts, ':') + [] == Join(parts, ':');
    }
  }

  /** The head and the tail of a text that goes on with `rest` after its first "::". */
  lemma ExpandedBy(head: seq<string>, rest: string, tail: seq<string>)
    requires Plain(head) && Plain(tail) && TailOf(rest) == Join(tail, ':')
    ensures Groups(Join(head, ':') + ([':', ':'] + rest))
         == if |head| + |tail| > 8 then None else Some(Filled(head, tail))
  {
    var s, n := Join(head, ':') + ([':', ':'] + rest), |Join(head, ':')|;
    PairAfterHead(head, rest);
    assert s[..n] == Join(head, ':') && s[n + 2..] == rest;
    hide Join, FindPair, Groups, TailOf;
    GroupsAt(s, n, head, tail);
  }

  lemma GroupsAt(s: string, n: nat, head: seq<string>, tail: seq<string>)
    requires Plain(head) && Plain(tail) && FindPair(s) == Some(n)
    requires s[..n] == Join(head, ':') && TailOf(s[n + 2..]) == Join(tail, ':')
    ensures Groups(s) == if |head| + |tail| > 8 then None else Some(Filled(head, tail))
  {
    hide Join, FindPair, Pieces, TailOf, Split, Filled;
    PiecesOfJoin(head);
    PiecesOfJoin(tail);
    if |head| + |tail| <= 8 {
      FilledPlain(head, tail);
      SplitJoin(Filled(head, tail), ':');
    }
  }

  lemma FilledPlain(head: seq<string>, tail: seq<string>)
    requires Plain(head) && Plain(tail) && |head| + |tail| <= 8
    ensures Free(Filled(head, tail), ':') && |Filled(head, tail)| == 8
  {}

  /** "::" stands for as many zero groups as are missing; an address with too many groups is refused. */
  lemma AbbreviationDenotes(head: seq<string>, tail: seq<string>)
    requires Plain(head) && Plain(tail)
    ensures Groups(Abbreviated(head, tail))
         == if |head| + |tail| > 8 then None else Some(Filled(head, tail))
  {
    NoPairInside(tail);
    ExpandedBy(head, Join(tail, ':'), tail);
  }

  /** The full form is its groups, and only eight of them will do. */
  lemma FullFormDenotes(groups: seq<string>)
    requires Plain(groups) && groups != []
    ensures Groups(Join(groups, ':')) == if |groups| == 8 then Some(groups) else None
  {
    NoPairInside(groups);
    SplitJoin(groups, ':');
  }

  /** A second "::", which the grammar does not allow, is accepted, and everything from it on is dropped. */
  lemma SecondPairDropped(head: seq<string>, tail: seq<string>, junk: string)
    requires Plain(head) && Plain(tail)
    ensures Groups(Abbreviated(head, tail) + ([':', ':'] + junk)) == Groups(Abbreviated(head, tail))
  {
    AbbreviationDenotes(head, tail);
    SecondPairEnds(tail, junk);
    hide Join, FindPair, Groups, TailOf, Plain, Filled;
    ExpandedBy(head, Join(tail, ':') + ([':', ':'] + junk), tail);
    Regroup(Join(head, ':'), [':', ':'], Join(tail, ':'), [':', ':'] + junk);
  }

  lemma SecondPairEnds(tail: seq<string>, junk: string)
    requires Plain(tail)
    ensures TailOf(Join(tail, ':') + ([':', ':'] + junk)) == Join(tail, ':')
  {
    PairAfterHead(tail, junk);
    hide Join, FindPair, Plain;
    assert (Join(tail, ':') + ([':', ':'] + junk))[..|Join(tail, ':')|] == Join(tail, ':');
  }

  lemma Regroup(a: string, b: string, c: string, d: string)
    ensures a + (b + c) + d == a + (b + (c + d))
  {}

  /** The sixteen bytes of an address whose groups all read as words: two bytes a group, zeros for "::". */
  lemma {:induction false} WordsInOrder(hex: string -> Option<int>, groups: seq<string>)
    requires forall i | 0 <= i < |groups| :: Word(hex, groups[i]).Some?
    ensures WordBytes(hex, groups).Some?
    ensures forall i | 0 <= i < |groups| ::
      WordBytes(hex, groups).value[2 * i..2 * i + 2] == BigEndian(Word(hex, groups[i]).value, 2)
  {
    if groups != [] {
      var init := groups[..|groups| - 1];
      WordsInOrder(hex, init);
      var b := WordBytes(hex, groups).value;
      forall i | 0 <= i < |groups| ensures b[2 * i..2 * i + 2] == BigEndian(Word(hex, groups[i]).value, 2) {
        if i < |init| { assert init[i] == groups[i] && b[2 * i..2 * i + 2] == WordBytes(hex, init).value[2 * i..2 * i + 2]; }
      }
    }
  }

  // ---------- which texts are read, and which of them the grammar has ----------

  /** Eight groups. */
  ghost predicate Full(s: string) {
    exists groups :: Plain(groups) && |groups| == 8 && s == Join(groups, ':')
  }

  /** Groups around one "::", `most` of them at most. */
  ghost predicate Around(s: string, most: nat) {
    exists head, tail :: Plain(head) && Plain(tail) && |head| + |tail| <= most && s == Abbreviated(head, tail)
  }

  /** At most eight groups around "::", then a second "::" and anything. */
  ghost predicate AroundWithJunk(s: string) {
    exists head, tail, junk ::
      Plain(head) && Plain(tail) && |head| + |tail| <= 8 && s == Abbreviated(head, tail) + ([':', ':'] + junk)
  }

  /** The forms of section 2.2 of RFC 4291: eight groups, or fewer around one "::", which stands for at least one. */
  ghost predicate Grammatical(s: string) {
    Full(s) || Around(s, 7)
  }

  /** Eight groups come out, and none is empty. */
  predicate Readable(s: string) {
    Groups(s).Some? && forall i | 0 <= i < |Groups(s).value| :: Groups(s).value[i] != []
  }

  /** There is no second "::", and the first, if any, has fewer than eight groups around it. */
  predicate OnePairOfUse(s: string) {
    var i := FindPair(s);
    i.Some? ==>
      && FindPair(s[i.value + 2..]).None?
      && |Pieces(s[..i.value])| + |Pieces(s[i.value + 2..])| < 8
  }

  lemma PairSplits(s: string)
    requires FindPair(s).Some?
    ensures var i := FindPair(s).value; s == s[..i] + ([':', ':'] + s[i + 2..])
  {
    PairThere(s);
  }

  lemma {:induction false} PairThere(s: string)
    requires FindPair(s).Some?
    ensures var i := FindPair(s).value; s[i] == ':' && s[i + 1] == ':'
  {
    if FindPair(s).value > 0 { PairThere(s[1..]); }
  }

  lemma JoinPieces(s: string)
    ensures Join(Pieces(s), ':') == s && Free(Pieces(s), ':')
  {
    if s != [] { JoinSplit(s, ':'); }
  }

  lemma PlainSides(head: seq<string>, tail: seq<string>)
    requires |head| + |tail| <= 8 && Free(head, ':') && Free(tail, ':')
    requires forall k | 0 <= k < 8 :: Filled(head, tail)[k] != []
    ensures Plain(head) && Plain(tail)
  {
    var all := Filled(head, tail);
    forall k | 0 <= k < |head| ensures head[k] != [] { assert head[k] == all[k]; }
    forall k | 0 <= k < |tail| ensures tail[k] != [] { assert tail[k] == all[8 - |tail| + k]; }
  }

  lemma FilledGroups(s: string, head: seq<string>, tail: seq<string>)
    requires FindPair(s).Some? && Groups(s).Some? && Free(head, ':') && Free(tail, ':')
    requires head == Pieces(s[..FindPair(s).value]) && tail == Pieces(TailOf(s[FindPair(s).value + 2..]))
    ensures |head| + |tail| <= 8 && Groups(s).value == Filled(head, tail)
    ensures Readable(s) ==> forall k | 0 <= k < 8 :: Filled(head, tail)[k] != []
  {
    hide Pieces, TailOf, FindPair, Join, Split;
    SplitJoin(Filled(head, tail), ':');
  }

  lemma EightGroups(s: string)
    requires Readable(s)
    ensures Groups(s).Some?
  {
  }

  /** Groups none of which is empty come from plain pieces. */
  lemma PlainPieces(s: string)
    requires FindPair(s).Some? && Readable(s)
    ensures var i := FindPair(s).value; var head, tail := Pieces(s[..i]), Pieces(TailOf(s[i + 2..]));
      Plain(head) && Plain(tail) && |head| + |tail| <= 8
  {
    var i := FindPair(s).value;
    var head, tail := Pieces(s[..i]), Pieces(TailOf(s[i + 2..]));
    hide Pieces, TailOf, FindPair, Join, Filled, Groups, Free, Plain, Readable;
    assert Groups(s).Some? by { EightGroups(s); }
    JoinPieces(s[..i]);
    JoinPieces(TailOf(s[i + 2..]));
    FilledGroups(s, head, tail);
    PlainSides(head, tail);
  }

  lemma ShapeWithoutPair(s: string)
    requires Readable(s) && FindPair(s).None?
    ensures Full(s)
  {
    JoinSplit(s, ':');
    hide Join;
    assert Plain(Split(s, ':'));
  }

  lemma ShapeWithPair(s: string)
    requires Readable(s) && FindPair(s).Some? && FindPair(s[FindPair(s).value + 2..]).None?
    ensures var i := FindPair(s).value; var head, tail := Pieces(s[..i]), Pieces(s[i + 2..]);
      Plain(head) && Plain(tail) && |head| + |tail| <= 8 && s == Abbreviated(head, tail)
  {
    var i := FindPair(s).value;
    PlainPieces(s);
    PairSplits(s);
    JoinPieces(s[..i]);
    JoinPieces(s[i + 2..]);
    hide Pieces, Join, FindPair, Readable;
  }

  lemma ShapeWithJunk(s: string)
    requires Readable(s) && FindPair(s).Some? && FindPair(s[FindPair(s).value + 2..]).Some?
    ensures AroundWithJunk(s)
  {
    hide Pieces, Join, FindPair, Readable;
    var i := FindPair(s).value;
    var rest := s[i + 2..];
    var k := FindPair(rest).value;
    var head, tail, junk := Pieces(s[..i]), Pieces(rest[..k]), rest[k + 2..];
    PlainPieces(s);
    PairSplits(s);
    PairSplits(rest);
    JoinPieces(s[..i]);
    JoinPieces(rest[..k]);
    Regroup(s[..i], [':', ':'], rest[..k], [':', ':'] + junk);
    assert s == Abbreviated(head, tail) + ([':', ':'] + junk);
  }

  lemma ReadableShape(s: string)
    requires Readable(s)
    ensures Full(s) || Around(s, 8) || AroundWithJunk(s)
  {
    hide Readable, Full, AroundWithJunk, Plain, Abbreviated, Pieces;
    if FindPair(s).None? {
      ShapeWithoutPair(s);
    } else if FindPair(s[FindPair(s).value + 2..]).None? {
      ShapeWithPair(s);
    } else {
      ShapeWithJunk(s);
    }
  }

  lemma FullReadable(s: string)
    requires Full(s)
    ensures Readable(s)
  {
    var groups :| Plain(groups) && |groups| == 8 && s == Join(groups, ':');
    hide Join, Groups;
    FullFormDenotes(groups);
  }

  lemma AroundReadable(s: string, head: seq<string>, tail: seq<string>)
    requires Plain(head) && Plain(tail) && |head| + |tail| <= 8 && Groups(s) == Groups(Abbreviated(head, tail))
    ensures Readable(s)
  {
    hide Groups, Abbreviated;
    AbbreviationDenotes(head, tail);
  }

  /**
   Exactly the texts that read as eight non-empty groups: eight plain groups, or at most eight around "::", possibly
   followed by a second "::" and anything.
   */
  lemma ReadableIff(s: string)
    ensures Readable(s) <==> Full(s) || Around(s, 8) || AroundWithJunk(s)
  {
    hide Readable, Full, Abbreviated, Groups;
    if Readable(s) {
      ReadableShape(s);
    }
    if Full(s) {
      FullReadable(s);
    } else if Around(s, 8) {
      var head, tail :| Plain(head) && Plain(tail) && |head| + |tail| <= 8 && s == Abbreviated(head, tail);
      AroundReadable(s, head, tail);
    } else if AroundWithJunk(s) {
      var head, tail, junk :|
        Plain(head) && Plain(tail) && |head| + |tail| <= 8 && s == Abbreviated(head, tail) + ([':', ':'] + junk);
      SecondPairDropped(head, tail, junk);
      AroundReadable(s, head, tail);
    }
  }

  /** Of those, exactly the ones with no second "::" and fewer than eight groups around the first are grammatical. */
  lemma GrammaticalIff(s: string)
    requires Readable(s)
    ensures Grammatical(s) <==> OnePairOfUse(s)
  {
    hide Readable, Pieces, FindPair, Abbreviated, Plain;
    if OnePairOfUse(s) {
      if FindPair(s).Some? { ShapeWithPair(s); } else { ShapeWithoutPair(s); }
    }
    if Grammatical(s) { GrammarUsesPair(s); }
  }

  lemma GrammarUsesPair(s: string)
    requires Grammatical(s)
    ensures OnePairOfUse(s)
  {
    hide Pieces, FindPair, Abbreviated;
    if Full(s) {
      var groups :| Plain(groups) && |groups| == 8 && s == Join(groups, ':');
      NoPairInside(groups);
    } else {
      var head, tail :| Plain(head) && Plain(tail) && |head| + |tail| <= 7 && s == Abbreviated(head, tail);
      OnePairInside(head, tail);
    }
  }

  lemma OnePairInside(head: seq<string>, tail: seq<string>)
    requires Plain(head) && Plain(tail)
    ensures var s := Abbreviated(head, tail); var i := FindPair(s);
      && i == Some(|Join(head, ':')|) && FindPair(s[i.value + 2..]).None?
      && Pieces(s[..i.value]) == head && Pieces(s[i.value + 2..]) == tail
  {
    var s, n := Abbreviated(head, tail), |Join(head, ':')|;
    PairAfterHead(head, Join(tail, ':'));
    NoPairInside(tail);
    assert s[..n] == Join(head, ':') && s[n + 2..] == Join(tail, ':');
    PiecesOfJoin(head);
    PiecesOfJoin(tail);
  }

  // ---------- embedded IPv4 ----------

  lemma DottedNoColon(s: string)
    requires DottedDigits(s)
    ensures ':' !in s
  {
    var p := Split(s, '.');
    JoinSplit(s, '.');
    JoinFour(p, '.');
    assert forall i | 0 <= i < 4 :: ':' !in p[i];
  }

  lemma JoinFour(p: seq<string>, sep: char)
    requires |p| == 4
    ensures Join(p, sep) == p[0] + [sep] + (p[1] + [sep] + (p[2] + [sep] + p[3]))
  {
    assert p[1..][1..] == p[2..] && p[2..][1..] == [p[3]];
    assert Join(p[2..], sep) == p[2] + [sep] + p[3];
    assert Join(p[1..], sep) == p[1] + [sep] + Join(p[2..], sep);
  }

  /** The groups "::ffff:g:h" of section 2.5.5.2 of RFC 4291. */
  function MappedGroups(ffff: string, g: string, h: string): string {
    Abbreviated([], [ffff, g, h])
  }

  lemma MappedGroupsNotDotted(ffff: string, g: string, h: string)
    requires |ffff| == 4 && Plain([ffff, g, h])
    ensures !Mapped(MappedGroups(ffff, g, h))
  {
    var s, tail := MappedGroups(ffff, g, h), [ffff, g, h];
    assert tail[1..] == [g, h] && tail[1..][1..] == [h];
    assert Join(tail[1..], ':') == g + [':'] + h;
    assert s == [':', ':'] + (ffff + [':'] + (g + [':'] + h));
    assert s[7..] == g + [':'] + h;
    assert s[7..][|g|] == ':';
    if DottedDigits(s[7..]) { DottedNoColon(s[7..]); }
  }

  /** The dotted form and the form in groups of one IPv4-mapped address have the same bytes. */
  lemma MappedAsGroups(hex: string -> Option<int>, num: string -> Option<int>, s: string, ffff: string, g: string, h: string)
    requires Mapped(s) && V4Bytes(num, s[7..]).Some?
    requires hex("0") == Some(0) && |ffff| == 4 && hex(ffff) == Some(0xffff) && Plain([ffff, g, h])
    requires var b := V4Bytes(num, s[7..]).value;
      hex(g) == Some(0x100 * (b[0] as int) + b[1]) && hex(h) == Some(0x100 * (b[2] as int) + b[3])
    ensures V6Bytes(hex, num, MappedGroups(ffff, g, h)) == V6Bytes(hex, num, s)
  {
    hide Mapped, V4Bytes, Groups, MappedGroups, WordBytes;
    MappedGroupsNotDotted(ffff, g, h);
    var groups := MappedGroupsAre(ffff, g, h, []);
    MappedWords(hex, groups, V4Bytes(num, s[7..]).value);
  }

  lemma MappedGroupsAre(ffff: string, g: string, h: string, none: seq<string>) returns (groups: seq<string>)
    requires none == [] && Plain([ffff, g, h])
    ensures Groups(MappedGroups(ffff, g, h)) == Some(groups) && |groups| == 8
    ensures groups[5] == ffff && groups[6] == g && groups[7] == h && forall i | 0 <= i < 5 :: groups[i] == "0"
  {
    hide Groups, Abbreviated;
    groups := Filled(none, [ffff, g, h]);
    AbbreviationDenotes(none, [ffff, g, h]);
  }

  lemma MappedWords(hex: string -> Option<int>, groups: seq<string>, b: ByteString)
    requires |groups| == 8 && |b| == 4
    requires forall i | 0 <= i < 5 :: hex(groups[i]) == Some(0)
    requires hex(groups[5]) == Some(0xffff) && hex(groups[6]) == Some(0x100 * (b[0] as int) + b[1])
    requires hex(groups[7]) == Some(0x100 * (b[2] as int) + b[3])
    ensures WordBytes(hex, groups) == Some(MAPPED_PREFIX + b)
  {
    hide WordBytes, BigEndian;
    WordsInOrder(hex, groups);
    var w, v := WordBytes(hex, groups).value, MAPPED_PREFIX + b;
    forall i | 0 <= i < 8 ensures w[2 * i] == v[2 * i] && w[2 * i + 1] == v[2 * i + 1] {
      var n := Word(hex, groups[i]).value;
      TwoBytes(n);
      assert w[2 * i..2 * i + 2] == [(n / 256) % 256, n % 256];
      assert w[2 * i] == w[2 * i..2 * i + 2][0] && w[2 * i + 1] == w[2 * i..2 * i + 2][1];
      if i == 5 {
        assert n == 0xffff;
      } else if i == 6 {
        assert n == 0x100 * (b[0] as int) + b[1];
      } else if i == 7 {
        assert n == 0x100 * (b[2] as int) + b[3];
      }
    }
    EvenAndOdd(w, v);
  }

  lemma EvenAndOdd(w: ByteString, v: ByteString)
    requires |w| == |v| == 16 && forall i | 0 <= i < 8 :: w[2 * i] == v[2 * i] && w[2 * i + 1] == v[2 * i + 1]
    ensures w == v
  {
    forall j | 0 <= j < 16 ensures w[j] == v[j] {
      assert j == 2 * (j / 2) || j == 2 * (j / 2) + 1;
    }
  }
}
