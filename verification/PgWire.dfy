/** The Postgres stream in the letters and bytes of its protocol, and what a broken connection leaves its queries with. */
module PgWire {
  import opened Bytes
  import opened PgError
  import opened PgStream
  import opened Wrappers

  // ---------- message by message ----------

  /** CommandComplete, EmptyQueryResponse, NoData, ParseComplete, BindComplete, PortalSuspended, Notice, ParameterStatus. */
  predicate Passed(tag: Byte) {
    || tag == 'C' as int || tag == 'I' as int || tag == 'n' as int || tag == '1' as int
    || tag == '2' as int || tag == 's' as int || tag == 'N' as int || tag == 'S' as int
  }

  /**
   What each message does to the query in front: a DataRow that decodes adds its row, an ErrorResponse replaces the error so
   far, ReadyForQuery ends the query with its rows or its last error, the messages without a meaning here change nothing, and
   whatever else comes, or does not decode, rejects it.
   */
  lemma ReactByLetter<Id>(q: Query<Id>, tag: Byte, p: ByteString)
    ensures var r, bad := React(q, Frame(tag, p)), Done(Rejected(BadMessage(tag)));
      if tag == 'D' as int then
        r == if DecodeDataRow(p).Some? then Wait(q.(rows := q.rows + [DecodeDataRow(p).value])) else bad
      else if tag == 'Z' as int then
        r == if p == [] then bad
             else if q.pendingError == None then Done(Resolved(q.rows)) else Done(Rejected(FromServer(q.pendingError.value)))
      else if tag == 'E' as int then
        if Terminated(p, 0) then r == Wait(q.(pendingError := Some(ErrorOf(Fields(p, 0))))) else r == Hang
      else if tag == 'T' as int then
        r == if |p| >= 2 then Wait(q) else bad
      else
        r == if Passed(tag) then Wait(q) else bad
  {
    hide DecodeDataRow, Terminated, Fields, ErrorOf;
  }

  /** The fields of an error, by their letters: severity, code, message, detail, hint. */
  lemma ErrorByLetter(s: ByteString, c: ByteString, m: ByteString, d: ByteString, h: ByteString)
    ensures ErrorOf([Field('S' as int, s), Field('C' as int, c), Field('M' as int, m), Field('D' as int, d), Field('H' as int, h)])
         == ServerError(s, c, m, d, h)
  {
    var none: seq<Field> := [];
    var a, b, e := [Field('S' as int, s)], [Field('C' as int, c)], [Field('M' as int, m)];
    var f, g := [Field('D' as int, d)], [Field('H' as int, h)];
    NothingTold(none);
    ErrorSnoc(none, a[0]);
    ErrorSnoc(a, b[0]);
    ErrorSnoc(a + b, e[0]);
    ErrorSnoc(a + b + e, f[0]);
    ErrorSnoc(a + b + e + f, g[0]);
    hide ErrorOf;
    assert none + a == a;
    assert a + b + e + f + g == [a[0], b[0], e[0], f[0], g[0]];
  }

  // ---------- bytes ----------

  /** A frame on the wire: its letter, the length of everything after the letter as four bytes, and the body. */
  lemma FrameBytes(tag: Byte, body: ByteString, d: ByteString)
    requires d == Encoded(Some(tag), body) && |body| + 4 < U32
    ensures |d| == 5 + |body| && d[0] == tag && FromBigEndian(d[1..5]) == 4 + |body| && d[5..] == body
    ensures Encoded(None, body) == d[1..]
  {
    Pow256Values();
    BigEndianRoundTrip(|body| + 4, 4);
    assert d[1..5] == BigEndian(|body| + 4, 4);
  }

  /** Two columns, "a" and null, as the bytes of a DataRow. */
  lemma RowOfTwo(p: ByteString)
    requires p == [0, 2, 0, 0, 0, 1, 0x61, 0xff, 0xff, 0xff, 0xff]
    ensures DecodeDataRow(p) == Some([Some([0x61]), None])
  {
    TwoBytes(0, 2);
    FourBytes(0, 0, 0, 1);
    FourBytes(0xff, 0xff, 0xff, 0xff);
    assert p[..2] == [0, 2] && p[2..6] == [0, 0, 0, 1] && p[7..11] == [0xff, 0xff, 0xff, 0xff] && p[6..7] == [0x61];
    hide FromBigEndian;
    NoMoreCells(p, 11, 0);
    var none: Cells, empty: Cells := [], [None];
    NullCell(p, 7, 0, none);
    assert [None] + none == empty;
    TextCell(p, 2, 1, 1, empty);
    assert [Some(p[6..7])] + empty == [Some([0x61]), None];
    hide ReadCells;
  }

  lemma NoMoreCells(p: ByteString, off: nat, n: nat)
    requires n == 0
    ensures ReadCells(p, off, n) == Some([])
  {
  }

  lemma NullCell(p: ByteString, off: nat, n: nat, rest: Cells)
    requires off + 4 <= |p| && SignedBigEndian(p[off..off + 4]) == -1 && ReadCells(p, off + 4, n) == Some(rest)
    ensures ReadCells(p, off, n + 1) == Some([None] + rest)
  {
    hide SignedBigEndian, Subarray;
  }

  lemma TextCell(p: ByteString, off: nat, n: nat, len: nat, rest: Cells)
    requires off + 4 + len <= |p| && SignedBigEndian(p[off..off + 4]) == len && ReadCells(p, off + 4 + len, n) == Some(rest)
    ensures ReadCells(p, off, n + 1) == Some([Some(p[off + 4..off + 4 + len])] + rest)
  {
    hide SignedBigEndian;
    assert Subarray(p, off + 4, off + 4 + len) == p[off + 4..off + 4 + len];
    hide Subarray;
  }

  /** A slice of a message: a negative end counts from the back, ends beyond the message are cut, an end before the start is empty. */
  lemma SliceMeans(p: ByteString, from: nat, to: int)
    ensures var end, r := if to >= 0 then to else |p| + to, Subarray(p, from, to);
      && |r| == (if end <= from || |p| <= from then 0 else if end <= |p| then end - from else |p| - from)
      && forall i :: 0 <= i < |r| ==> r[i] == p[from + i]
  {
  }

  /** A length field is a number in two's complement. */
  lemma TwosComplement(b: ByteString)
    requires |b| == 4
    ensures var v := SignedBigEndian(b);
      -0x8000_0000 <= v < 0x8000_0000 && (v == FromBigEndian(b) || v == FromBigEndian(b) - 0x1_0000_0000)
  {
    Pow256Values();
  }

  lemma TwoBytes(a: Byte, b: Byte)
    ensures FromBigEndian([a, b]) == 256 * a + b
  {
    assert [a, b][..1] == [a] && [a][..0] == [];
  }

  lemma FourBytes(a: Byte, b: Byte, c: Byte, d: Byte)
    ensures FromBigEndian([a, b, c, d]) == 0x100_0000 * a + 0x1_0000 * b + 0x100 * c + d
  {
    TwoBytes(a, b);
    assert [a, b, c][..2] == [a, b] && [a, b, c, d][..3] == [a, b, c];
  }

  // ---------- a broken connection ----------

  function Fatally<Id>(queue: seq<Query<Id>>): seq<Settled<Id>> {
    seq(|queue|, i requires 0 <= i < |queue| => Settled(queue[i].id, Rejected(Fatal)))
  }

  lemma {:induction false} BreakRejectsAll<Id>(c: Conn<Id>)
    ensures RejectAll(c) == Conn([], c.settled + Fatally(c.queue), c.hung)
    decreases |c.queue|
  {
    if c.queue == [] {
      assert c.settled + Fatally(c.queue) == c.settled;
    } else {
      var first := Settled(c.queue[0].id, Rejected(Fatal));
      BreakRejectsAll(Conn(c.queue[1..], c.settled + [first], c.hung));
      assert c.settled + [first] + Fatally(c.queue[1..]) == c.settled + Fatally(c.queue);
    }
  }

  /** Nothing is outstanding on a broken connection, and everything from settlement number `n` on is a rejection. */
  ghost predicate AllRejected<Id>(s: Client<Id>, n: nat) {
    && s.broken && s.conn.queue == [] && !s.conn.hung && n <= |s.conn.settled|
    && forall i :: n <= i < |s.conn.settled| ==> s.conn.settled[i].outcome == Rejected(Fatal)
  }

  /**
   When the connection breaks every waiting query is rejected, in order; from then on every query is rejected when it is
   sent, and bytes that still arrive settle nothing.
   */
  lemma {:induction false} BrokenRejectsForGood<Id>(es: seq<Event<Id>>, more: seq<Event<Id>>)
    requires !Run(es).conn.hung
    ensures var s := Run(es + [Break] + more);
      && AllRejected(s, |Run(es).conn.settled|)
      && Run(es).conn.settled + Fatally(Run(es).conn.queue) <= s.conn.settled
    decreases |more|
  {
    if more == [] {
      assert es + [Break] + more == es + [Break];
      JustBroken(es);
    } else {
      hide DispatchAll, RejectAll, Split, Fatally, Step;
      var init, e := more[..|more| - 1], more[|more| - 1];
      var all := es + [Break] + more;
      BrokenRejectsForGood(es, init);
      assert all[..|all| - 1] == es + [Break] + init && all[|all| - 1] == e;
      BrokenStep(Run(es + [Break] + init), e, |Run(es).conn.settled|);
    }
  }

  lemma JustBroken<Id>(es: seq<Event<Id>>)
    requires !Run(es).conn.hung
    ensures var s := Run(es + [Break]);
      && AllRejected(s, |Run(es).conn.settled|)
      && Run(es).conn.settled + Fatally(Run(es).conn.queue) == s.conn.settled
  {
    hide RejectAll, Fatally, DispatchAll, Split;
    assert (es + [Break])[..|es|] == es;
    BreakRejectsAll(Run(es).conn);
    FatallyFatal(Run(es).conn.queue);
  }

  lemma FatallyFatal<Id>(queue: seq<Query<Id>>)
    ensures forall i :: 0 <= i < |Fatally(queue)| ==> Fatally(queue)[i].outcome == Rejected(Fatal)
  {
  }

  lemma BrokenStep<Id>(s: Client<Id>, e: Event<Id>, n: nat)
    requires AllRejected(s, n)
    ensures AllRejected(Step(s, e), n) && s.conn.settled <= Step(s, e).conn.settled
  {
    if e.Receive? {
      DispatchAllIds(s.conn, Split(s.buf + e.chunk).0);
    } else if e.Break? {
      BreakRejectsAll(s.conn);
    }
    hide Split;
  }
}
