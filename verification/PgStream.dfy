/** The Postgres client's stream side: framing, response matching and the outgoing frames. */
module PgStream {
  import opened Bytes
  import opened PgError
  import opened Wrappers

  datatype Frame = Frame(tag: Byte, payload: ByteString)

  // ---------- framing ----------

  /** Bytes taken by the frame at the front of the buffer, if it is complete. */
  function FrontSize(buf: ByteString): (n: nat)
    ensures n <= |buf|
  {
    if |buf| < 5 || |buf| < 1 + FromBigEndian(buf[1..5]) then 0 else 1 + FromBigEndian(buf[1..5])
  }

  /** A length field below 4 leaves an empty payload. */
  function FrontFrame(buf: ByteString): Frame
    requires FrontSize(buf) > 0
  {
    Frame(buf[0], if FrontSize(buf) < 5 then [] else buf[5..FrontSize(buf)])
  }

  /** The complete frames at the front of a buffer and what is left. */
  function Split(buf: ByteString): (r: (seq<Frame>, ByteString))
    ensures |r.1| <= |buf|
    decreases |buf|
  {
    var n := FrontSize(buf);
    if n == 0 then ([], buf)
    else ([FrontFrame(buf)] + Split(buf[n..]).0, Split(buf[n..]).1)
  }

  lemma SplitPop(done: seq<Frame>, buf: ByteString)
    requires FrontSize(buf) > 0
    ensures done + Split(buf).0 == (done + [FrontFrame(buf)]) + Split(buf[FrontSize(buf)..]).0
    ensures Split(buf).1 == Split(buf[FrontSize(buf)..]).1
  {
    hide FrontSize, FrontFrame;
    assert done + ([FrontFrame(buf)] + Split(buf[FrontSize(buf)..]).0)
        == (done + [FrontFrame(buf)]) + Split(buf[FrontSize(buf)..]).0;
  }

  lemma FrontAppend(a: ByteString, b: ByteString)
    requires FrontSize(a) > 0
    ensures FrontSize(a + b) == FrontSize(a) && FrontFrame(a + b) == FrontFrame(a)
    ensures (a + b)[FrontSize(a)..] == a[FrontSize(a)..] + b
  {
    assert (a + b)[1..5] == a[1..5];
    if FrontSize(a) >= 5 {
      assert (a + b)[5..FrontSize(a)] == a[5..FrontSize(a)];
    }
  }

  /** Chunk boundaries do not matter: splitting what is left together with more bytes continues the split. */
  lemma {:induction false} SplitAppend(a: ByteString, b: ByteString)
    ensures Split(a + b).0 == Split(a).0 + Split(Split(a).1 + b).0
    ensures Split(a + b).1 == Split(Split(a).1 + b).1
    decreases |a|
  {
    var n := FrontSize(a);
    if n > 0 {
      FrontAppend(a, b);
      SplitAppend(a[n..], b);
    }
  }

  /** The outgoing frame; the startup message has no tag. */
  function Encoded(tag: Option<Byte>, body: ByteString): ByteString {
    (if tag.Some? then [tag.value] else []) + BigEndian(|body| + 4, 4) + body
  }

  lemma SentFramesParseBack(tag: Byte, body: ByteString, rest: ByteString)
    requires |body| + 4 < U32
    ensures Split(Encoded(Some(tag), body) + rest) == ([Frame(tag, body)] + Split(rest).0, Split(rest).1)
  {
    var buf := Encoded(Some(tag), body) + rest;
    Pow256Values();
    BigEndianRoundTrip(|body| + 4, 4);
    assert buf[1..5] == BigEndian(|body| + 4, 4);
    assert buf[5..5 + |body|] == body;
    assert buf[5 + |body|..] == rest;
  }

  // ---------- one query's handler ----------

  const ROW: Byte := 0x44
  const READY: Byte := 0x5a
  const ERROR: Byte := 0x45

  const DESCRIPTION: Byte := 0x54

  /** CommandComplete, EmptyQuery, NoData, Parse/BindComplete, PortalSuspended, Notice, ParameterStatus */
  const IGNORED: set<Byte> := {0x43, 0x49, 0x6e, 0x31, 0x32, 0x73, 0x4e, 0x53}

  /** NoticeResponse and ParameterStatus, which a server sends of its own accord. */
  const NOTICES: set<Byte> := {0x4e, 0x53}

  type Cells = seq<Option<ByteString>>

  datatype Failure = FromServer(error: ServerError) | BadMessage(tag: Byte) | Fatal

  datatype Query<Id> = Query(id: Id, rows: seq<Cells>, pendingError: Option<ServerError>)

  datatype Outcome = Resolved(rows: seq<Cells>) | Rejected(failure: Failure)

  /** `Hang`: the handler does not return. */
  datatype Reaction<Id> = Wait(query: Query<Id>) | Done(outcome: Outcome) | Hang

  function SignedBigEndian(b: ByteString): int
    requires |b| == 4
  {
    var v := FromBigEndian(b);
    if v >= 0x8000_0000 then v - U32 else v
  }

  /** `p.subarray(from, to)`: negative ends count from the back, everything is clamped to the buffer. */
  function Subarray(p: ByteString, from: nat, to: int): ByteString {
    var end := if to < 0 then |p| + to else to;
    if end <= from || |p| <= from then [] else p[from..if end < |p| then end else |p|]
  }

  /** `n` column values read from offset `off`; None when a length field would be read outside the message. */
  function ReadCells(p: ByteString, off: int, n: nat): Option<Cells>
    decreases n
  {
    if n == 0 then Some([])
    else if off < 0 || |p| < off + 4 then None
    else
      var len := SignedBigEndian(p[off..off + 4]);
      var cell := if len == -1 then None else Some(Subarray(p, off + 4, off + 4 + len));
      match ReadCells(p, if len == -1 then off + 4 else off + 4 + len, n - 1)
      case None => None
      case Some(cells) => Some([cell] + cells)
  }

  function DecodeDataRow(p: ByteString): Option<Cells> {
    if |p| < 2 then None else ReadCells(p, 2, FromBigEndian(p[..2]))
  }

  function React<Id>(q: Query<Id>, f: Frame): Reaction<Id> {
    if f.tag == ROW then
      (match DecodeDataRow(f.payload)
       case Some(row) => Wait(q.(rows := q.rows + [row]))
       case None => Done(Rejected(BadMessage(f.tag))))
    else if f.tag == READY then
      if f.payload == [] then Done(Rejected(BadMessage(f.tag)))
      else if q.pendingError.Some? then Done(Rejected(FromServer(q.pendingError.value)))
      else Done(Resolved(q.rows))
    else if f.tag == ERROR then
      if Terminated(f.payload, 0) then Wait(q.(pendingError := Some(ErrorOf(Fields(f.payload, 0))))) else Hang
    else if f.tag in IGNORED || (f.tag == DESCRIPTION && |f.payload| >= 2) then Wait(q)
    else Done(Rejected(BadMessage(f.tag)))
  }

  // ---------- the connection ----------

  datatype Settled<Id> = Settled(id: Id, outcome: Outcome)

  /** Once a handler hangs, the one thread of the process runs nothing else. */
  datatype Conn<Id> = Conn(queue: seq<Query<Id>>, settled: seq<Settled<Id>>, hung: bool)

  function Fresh<Id>(id: Id): Query<Id> {
    Query(id, [], None)
  }

  function Dispatch<Id>(c: Conn<Id>, f: Frame): Conn<Id> {
    if c.hung || c.queue == [] then c
    else
      match React(c.queue[0], f)
      case Wait(q) => c.(queue := [q] + c.queue[1..])
      case Done(o) => Conn(c.queue[1..], c.settled + [Settled(c.queue[0].id, o)], false)
      case Hang => c.(hung := true)
  }

  function DispatchAll<Id>(c: Conn<Id>, fs: seq<Frame>): Conn<Id>
    decreases |fs|
  {
    if fs == [] then c else DispatchAll(Dispatch(c, fs[0]), fs[1..])
  }

  lemma {:induction false} DispatchAppend<Id>(c: Conn<Id>, fs: seq<Frame>, gs: seq<Frame>)
    ensures DispatchAll(c, fs + gs) == DispatchAll(DispatchAll(c, fs), gs)
    decreases |fs|
  {
    if fs == [] {
      assert fs + gs == gs;
    } else {
      assert (fs + gs)[0] == fs[0] && (fs + gs)[1..] == fs[1..] + gs;
      DispatchAppend(Dispatch(c, fs[0]), fs[1..], gs);
    }
  }

  lemma DispatchSnoc<Id>(c: Conn<Id>, fs: seq<Frame>, f: Frame)
    ensures DispatchAll(c, fs + [f]) == Dispatch(DispatchAll(c, fs), f)
  {
    DispatchAppend(c, fs, [f]);
    assert DispatchAll(DispatchAll(c, fs), [f]) == Dispatch(DispatchAll(c, fs), f);
  }

  function RejectAll<Id>(c: Conn<Id>): Conn<Id>
    decreases |c.queue|
  {
    if c.queue == [] then c
    else RejectAll(Conn(c.queue[1..], c.settled + [Settled(c.queue[0].id, Rejected(Fatal))], c.hung))
  }

  lemma {:induction false} HungStays<Id>(c: Conn<Id>, fs: seq<Frame>)
    requires c.hung
    ensures DispatchAll(c, fs) == c
    decreases |fs|
  {
    if fs != [] { HungStays(c, fs[1..]); }
  }

  /** An error message whose fields do not all end. */
  ghost predicate Endless(f: Frame) {
    f.tag == ERROR && !Ends(f.payload)
  }

  /** The frames make a handler hang if and only if one of them is an endless error that finds a query waiting. */
  lemma {:induction false} HangsIff<Id>(c: Conn<Id>, fs: seq<Frame>)
    requires !c.hung
    ensures DispatchAll(c, fs).hung <==>
      exists i | 0 <= i < |fs| :: Endless(fs[i]) && !DispatchAll(c, fs[..i]).hung && DispatchAll(c, fs[..i]).queue != []
    decreases |fs|
  {
    if fs != [] {
      var init, f := fs[..|fs| - 1], fs[|fs| - 1];
      assert fs == init + [f];
      DispatchSnoc(c, init, f);
      HangsIff(c, init);
      DecodeEndsIff(f.payload);
      assert forall i | 0 <= i <= |init| :: fs[..i] == init[..i];
      assert fs[..|init|] == init;
    }
  }

  /** The client object. `settled` records every resolve and reject call in order. */
  class PgClient<Id(==)> {
    var buf: ByteString
    var queue: seq<Query<Id>>
    ghost var settled: seq<Settled<Id>>
    var fatalError: bool
    var hung: bool

    constructor()
      ensures buf == [] && queue == [] && settled == [] && !fatalError && !hung
    {
      buf := [];
      queue := [];
      settled := [];
      fatalError := false;
      hung := false;
    }

    ghost function State(): Conn<Id>
      reads this
    {
      Conn(queue, settled, hung)
    }

    /** A query joins the back of the queue; after a fatal error its promise is rejected at once instead. */
    method Enqueue(id: Id)
      requires !hung
      modifies this
      ensures buf == old(buf) && fatalError == old(fatalError)
      ensures State() == if old(fatalError) then old(State()).(settled := old(settled) + [Settled(id, Rejected(Fatal))])
                         else old(State()).(queue := old(queue) + [Fresh(id)])
    {
      if fatalError {
        settled := settled + [Settled(id, Rejected(Fatal))];
        return;
      }
      queue := queue + [Query(id, [], None)];
    }

    /** A call that does not return leaves `hung` set. */
    method DispatchFrame(tag: Byte, payload: ByteString)
      requires !hung
      modifies this`queue, this`settled, this`hung
      ensures State() == Dispatch(old(State()), Frame(tag, payload))
    {
      if queue == [] {
        return;
      }
      var w := queue[0];
      if tag == ERROR {
        if !Terminated(payload, 0) {
          hung := true;
          return;
        }
        var error := DecodeError(payload);
        queue := [w.(pendingError := Some(error))] + queue[1..];
        return;
      }
      match React(w, Frame(tag, payload)) {
        case Wait(q) =>
          queue := [q] + queue[1..];
        case Done(outcome) =>
          queue := queue[1..];
          settled := settled + [Settled(w.id, outcome)];
      }
    }

    /** The loop ends for every length field, as each round removes at least one byte, unless a handler hangs. */
    method OnData(chunk: ByteString)
      requires !hung
      modifies this`buf, this`queue, this`settled, this`hung
      ensures State() == DispatchAll(old(State()), Split(old(buf) + chunk).0)
      ensures !hung ==> buf == Split(old(buf) + chunk).1
    {
      buf := buf + chunk;
      ghost var all := buf;
      ghost var done: seq<Frame> := [];
      while |buf| >= 5 && !hung
        invariant Split(all).0 == done + Split(buf).0 && Split(all).1 == Split(buf).1
        invariant State() == DispatchAll(old(State()), done)
        decreases |buf|
      {
        var tag := buf[0];
        var len := FromBigEndian(buf[1..5]);
        if |buf| < 1 + len {
          break;
        }
        var payload := if len < 4 then [] else buf[5..1 + len];
        assert Frame(tag, payload) == FrontFrame(buf);
        SplitPop(done, buf);
        DispatchSnoc(old(State()), done, FrontFrame(buf));
        done := done + [FrontFrame(buf)];
        buf := buf[1 + len..];
        DispatchFrame(tag, payload);
      }
      if hung {
        DispatchAppend(old(State()), done, Split(buf).0);
        HungStays(State(), Split(buf).0);
      } else {
        assert Split(buf) == ([], buf) && done + [] == done;
      }
    }

    method Fail()
      requires !hung
      modifies this
      ensures fatalError && !hung && buf == old(buf) && State() == RejectAll(old(State()))
    {
      fatalError := true;
      while queue != []
        invariant RejectAll(State()) == RejectAll(old(State()))
        invariant buf == old(buf) && fatalError && !hung
        decreases |queue|
      {
        settled := settled + [Settled(queue[0].id, Rejected(Fatal))];
        queue := queue[1..];
      }
    }
  }

  // ---------- runs ----------

  datatype Event<Id> = Send(id: Id) | Receive(chunk: ByteString) | Break

  datatype Client<Id> = Client(conn: Conn<Id>, buf: ByteString, broken: bool)

  /** Nothing happens after a hang. */
  function Step<Id>(s: Client<Id>, e: Event<Id>): Client<Id> {
    if s.conn.hung then s
    else match e
    case Send(id) =>
      s.(conn := if s.broken then s.conn.(settled := s.conn.settled + [Settled(id, Rejected(Fatal))])
                 else s.conn.(queue := s.conn.queue + [Fresh(id)]))
    case Receive(chunk) =>
      var (frames, rest) := Split(s.buf + chunk);
      Client(DispatchAll(s.conn, frames), rest, s.broken)
    case Break => Client(RejectAll(s.conn), s.buf, true)
  }

  function Run<Id>(es: seq<Event<Id>>): Client<Id> {
    if es == [] then Client(Conn([], [], false), [], false) else Step(Run(es[..|es| - 1]), es[|es| - 1])
  }

  function Sends<Id>(es: seq<Event<Id>>): seq<Id> {
    if es == [] then []
    else Sends(es[..|es| - 1]) + if es[|es| - 1].Send? then [es[|es| - 1].id] else []
  }

  function Received<Id>(es: seq<Event<Id>>): ByteString {
    if es == [] then []
    else Received(es[..|es| - 1]) + if es[|es| - 1].Receive? then es[|es| - 1].chunk else []
  }

  function Ids<Id>(c: Conn<Id>): seq<Id> {
    seq(|c.settled|, i requires 0 <= i < |c.settled| => c.settled[i].id)
    + seq(|c.queue|, i requires 0 <= i < |c.queue| => c.queue[i].id)
  }

  lemma {:induction false} DispatchAllIds<Id>(c: Conn<Id>, fs: seq<Frame>)
    ensures Ids(DispatchAll(c, fs)) == Ids(c)
    ensures c.queue == [] ==> DispatchAll(c, fs) == c
    decreases |fs|
  {
    if fs != [] {
      hide Ids, Dispatch;
      DispatchIds(c, fs[0]);
      DispatchAllIds(Dispatch(c, fs[0]), fs[1..]);
    }
  }

  lemma ReactKeepsId<Id>(q: Query<Id>, f: Frame)
    ensures React(q, f).Wait? ==> React(q, f).query.id == q.id
  {
  }

  lemma DispatchIds<Id>(c: Conn<Id>, f: Frame)
    ensures Ids(Dispatch(c, f)) == Ids(c)
    ensures c.queue == [] ==> Dispatch(c, f) == c
  {
    hide React;
    if c.queue != [] {
      ReactKeepsId(c.queue[0], f);
    }
  }

  lemma {:induction false} RejectAllIds<Id>(c: Conn<Id>)
    ensures Ids(RejectAll(c)) == Ids(c) && RejectAll(c).queue == [] && RejectAll(c).hung == c.hung
    decreases |c.queue|
  {
    if c.queue != [] {
      var c' := Conn(c.queue[1..], c.settled + [Settled(c.queue[0].id, Rejected(Fatal))], c.hung);
      assert Ids(c') == Ids(c);
      RejectAllIds(c');
    }
  }

  /** How many of the events happen: all of them, or those up to the chunk that hangs. */
  function Lived<Id>(es: seq<Event<Id>>): (n: nat)
    ensures n <= |es|
  {
    if es == [] then 0
    else if Run(es[..|es| - 1]).conn.hung then Lived(es[..|es| - 1])
    else |es|
  }

  lemma StepIds<Id>(s: Client<Id>, e: Event<Id>)
    requires !s.conn.hung && (s.broken ==> s.conn.queue == [])
    ensures Ids(Step(s, e).conn) == Ids(s.conn) + if e.Send? then [e.id] else []
    ensures Step(s, e).broken ==> Step(s, e).conn.queue == []
  {
    hide Split, DispatchAll, RejectAll;
    match e
    case Receive(chunk) => DispatchAllIds(s.conn, Split(s.buf + chunk).0);
    case Break => RejectAllIds(s.conn);
    case Send(id) => assert Ids(Step(s, e).conn) == Ids(s.conn) + [id];
  }

  /**
   Whatever bytes arrive and however the connection ends, promises are settled at most once each and in the order
   the queries were sent: settled queries followed by waiting ones are always exactly the queries sent.
   */
  lemma {:induction false} SettledInOrder<Id>(es: seq<Event<Id>>)
    ensures Ids(Run(es).conn) == Sends(es[..Lived(es)])
    ensures Run(es).broken ==> Run(es).conn.queue == []
    ensures !Run(es).conn.hung ==> Lived(es) == |es|
  {
    if es != [] {
      hide Step, Ids;
      var init, e := es[..|es| - 1], es[|es| - 1];
      SettledInOrder(init);
      if Run(init).conn.hung {
        HungStep(Run(init), e);
        assert es[..Lived(es)] == init[..Lived(init)];
      } else {
        assert es[..|es|] == es && init[..|init|] == init;
        StepIds(Run(init), e);
      }
    }
  }

  lemma HungStep<Id>(s: Client<Id>, e: Event<Id>)
    requires s.conn.hung
    ensures Step(s, e) == s
  {
  }

  lemma StepGoesOn<Id>(s: Client<Id>, e: Event<Id>)
    requires !s.conn.hung
    requires e.Receive? ==> forall f | f in Split(s.buf + e.chunk).0 :: !Endless(f)
    ensures !Step(s, e).conn.hung
    ensures Step(s, e).buf == if e.Receive? then Split(s.buf + e.chunk).1 else s.buf
  {
    hide Split, Dispatch, DispatchAll, RejectAll, Endless;
    match e
    case Receive(chunk) => HangsIff(s.conn, Split(s.buf + chunk).0);
    case Break => RejectAllIds(s.conn);
    case Send(id) =>
  }

  /** As long as no endless error message has come, every run goes on. */
  lemma {:induction false} GoesOn<Id>(es: seq<Event<Id>>)
    requires forall f | f in Split(Received(es)).0 :: !Endless(f)
    ensures !Run(es).conn.hung && Run(es).buf == Split(Received(es)).1
  {
    hide Split, Step, Endless;
    if es == [] {
      NothingReceived(es);
    } else {
      var init, e := es[..|es| - 1], es[|es| - 1];
      if e.Receive? {
        SplitAppend(Received(init), e.chunk);
      } else {
        assert Received(es) == Received(init);
      }
      GoesOn(init);
      StepGoesOn(Run(init), e);
    }
  }

  lemma NothingReceived<Id>(es: seq<Event<Id>>)
    requires es == []
    ensures Run(es).buf == Split(Received(es)).1 && !Run(es).conn.hung
  {
  }

  /** One query waiting, one error message with a lone tag: the query is never settled, nor is anything after it. */
  lemma {:induction false} LoneTagHangsClient<Id>(id: Id, chunk: ByteString, more: seq<Event<Id>>)
    requires chunk == [0x45, 0, 0, 0, 5, 0x53]
    ensures Run([Send(id), Receive(chunk)] + more).conn == Conn([Fresh(id)], [], true)
    decreases |more|
  {
    var es := [Send(id), Receive(chunk)] + more;
    if more == [] {
      LoneTagSplits(chunk);
      LoneTagReceived(id, chunk);
      assert es == [Send(id), Receive(chunk)];
    } else {
      hide Split, Dispatch, DispatchAll, RejectAll;
      LoneTagHangsClient(id, chunk, more[..|more| - 1]);
      assert es[..|es| - 1] == [Send(id), Receive(chunk)] + more[..|more| - 1];
    }
  }

  lemma LoneTagReceived<Id>(id: Id, chunk: ByteString)
    requires Split(chunk) == ([Frame(ERROR, [0x53])], [])
    ensures Run([Send(id), Receive(chunk)]).conn == Conn([Fresh(id)], [], true)
  {
    hide Split;
    var sent, es := [Send(id)], [Send(id), Receive(chunk)];
    assert es[..1] == sent && sent[..0] == [];
    OneSent(id);
    LoneTagHangs([0x53]);
    EndsIffTerminated([0x53]);
    assert [] + chunk == chunk;
    var c := Conn([Fresh(id)], [], false);
    assert DispatchAll(c, [Frame(ERROR, [0x53])]) == Dispatch(c, Frame(ERROR, [0x53]));
  }

  lemma OneSent<Id>(id: Id)
    ensures Run([Send(id)]) == Client(Conn([Fresh(id)], [], false), [], false)
  {
    hide Split, Dispatch, DispatchAll, RejectAll;
    var sent := [Send(id)];
    assert sent[..0] == [];
    var s: Client<Id> := Run(sent[..0]);
    assert s == Client(Conn([], [], false), [], false);
    assert s.conn.queue + [Fresh(id)] == [Fresh(id)];
  }

  lemma LoneTagSplits(chunk: ByteString)
    requires chunk == [0x45, 0, 0, 0, 5, 0x53]
    ensures Split(chunk) == ([Frame(ERROR, [0x53])], [])
  {
    hide Encoded, Split;
    var rest := chunk[6..];
    LoneTagBytes(chunk, [0x53]);
    assert chunk == chunk[..6] + rest;
    SentFramesParseBack(ERROR, [0x53], rest);
    EmptySplit(rest);
    assert [Frame(ERROR, [0x53])] + Split(rest).0 == [Frame(ERROR, [0x53])];
  }

  lemma LoneTagBytes(chunk: ByteString, body: ByteString)
    requires chunk == [0x45, 0, 0, 0, 5, 0x53] && body == [0x53]
    ensures chunk[..6] == Encoded(Some(ERROR), body)
  {
    hide BigEndian;
    var size := BigEndian(|body| + 4, 4);
    BigEndianFive(|body| + 4);
    assert size[0] == 0 && size[1] == 0 && size[2] == 0 && size[3] == 5;
    assert chunk[..6] == [ERROR] + size + body;
  }

  lemma BigEndianFive(n: nat)
    requires n == 5
    ensures BigEndian(n, 4) == [0, 0, 0, 5]
  {
    assert BigEndian(0, 1) == [0] && BigEndian(0, 2) == [0, 0] && BigEndian(0, 3) == [0, 0, 0];
  }

  lemma EmptySplit(buf: ByteString)
    requires buf == []
    ensures Split(buf) == ([], [])
  {
  }

  // ---------- which messages a query gets ----------

  predicate Benign(f: Frame) {
    || (f.tag == ROW && DecodeDataRow(f.payload).Some?)
    || (f.tag == READY && f.payload != [])
    || (f.tag == ERROR && Terminated(f.payload, 0))
    || f.tag in IGNORED || (f.tag == DESCRIPTION && |f.payload| >= 2)
  }

  /** The messages of one response: everything up to and including its ReadyForQuery. */
  predicate Response(fs: seq<Frame>) {
    && fs != [] && (forall i :: 0 <= i < |fs| ==> Benign(fs[i]))
    && fs[|fs| - 1].tag == READY && (forall i :: 0 <= i < |fs| - 1 ==> fs[i].tag != READY)
  }

  function RowsIn(fs: seq<Frame>): seq<Cells> {
    if fs == [] then []
    else
      var f := fs[|fs| - 1];
      RowsIn(fs[..|fs| - 1])
      + if f.tag == ROW && DecodeDataRow(f.payload).Some? then [DecodeDataRow(f.payload).value] else []
  }

  function LastError(fs: seq<Frame>): Option<ServerError> {
    if fs == [] then None
    else
      var f := fs[|fs| - 1];
      if f.tag == ERROR && Terminated(f.payload, 0) then Some(ErrorOf(Fields(f.payload, 0)))
      else LastError(fs[..|fs| - 1])
  }

  /** What a response means, read off its messages alone. */
  function Answer(fs: seq<Frame>): Outcome {
    match LastError(fs)
    case Some(error) => Rejected(FromServer(error))
    case None => Resolved(RowsIn(fs))
  }

  lemma CollectsOne<Id>(id: Id, fs: seq<Frame>, f: Frame)
    requires Benign(f) && f.tag != READY
    ensures React(Query(id, RowsIn(fs), LastError(fs)), f) == Wait(Query(id, RowsIn(fs + [f]), LastError(fs + [f])))
  {
    assert (fs + [f])[..|fs + [f]| - 1] == fs;
  }

  lemma {:induction false} CollectsPrefix<Id>(c: Conn<Id>, fs: seq<Frame>)
    requires !c.hung && c.queue != [] && c.queue[0] == Fresh(c.queue[0].id)
    requires forall i :: 0 <= i < |fs| ==> Benign(fs[i]) && fs[i].tag != READY
    ensures DispatchAll(c, fs) == c.(queue := [Query(c.queue[0].id, RowsIn(fs), LastError(fs))] + c.queue[1..])
  {
    if fs == [] {
      assert c.queue == [c.queue[0]] + c.queue[1..];
    } else {
      hide React, RowsIn, LastError;
      var init, f := fs[..|fs| - 1], fs[|fs| - 1];
      assert fs == init + [f];
      CollectsPrefix(c, init);
      DispatchSnoc(c, init, f);
      CollectsOne(c.queue[0].id, init, f);
      assert DispatchAll(c, init).queue[1..] == c.queue[1..];
    }
  }

  lemma AnswersAtReady<Id>(id: Id, fs: seq<Frame>, f: Frame)
    requires f.tag == READY && f.payload != []
    ensures React(Query(id, RowsIn(fs), LastError(fs)), f) == Done(Answer(fs + [f]))
  {
    assert (fs + [f])[..|fs + [f]| - 1] == fs;
    assert RowsIn(fs + [f]) == RowsIn(fs) && LastError(fs + [f]) == LastError(fs);
  }

  lemma CollectsResponse<Id>(c: Conn<Id>, fs: seq<Frame>)
    requires !c.hung && c.queue != [] && c.queue[0] == Fresh(c.queue[0].id) && Response(fs)
    ensures DispatchAll(c, fs) == Conn(c.queue[1..], c.settled + [Settled(c.queue[0].id, Answer(fs))], false)
  {
    var init, f := fs[..|fs| - 1], fs[|fs| - 1];
    assert Benign(f) && fs == init + [f];
    hide React, RowsIn, LastError, Answer;
    CollectsPrefix(c, init);
    DispatchSnoc(c, init, f);
    AnswersAtReady(c.queue[0].id, init, f);
    assert DispatchAll(c, init).queue[1..] == c.queue[1..];
  }

  function Flatten(responses: seq<seq<Frame>>): seq<Frame> {
    if responses == [] then [] else Flatten(responses[..|responses| - 1]) + responses[|responses| - 1]
  }

  function FreshQueue<Id>(ids: seq<Id>): seq<Query<Id>> {
    seq(|ids|, i requires 0 <= i < |ids| => Fresh(ids[i]))
  }

  function AnswersFor<Id>(ids: seq<Id>, responses: seq<seq<Frame>>): seq<Settled<Id>>
    requires |responses| <= |ids|
  {
    seq(|responses|, i requires 0 <= i < |responses| => Settled(ids[i], Answer(responses[i])))
  }

  /** With all queries outstanding, the i-th one is settled from the i-th response, errors included. */
  lemma {:induction false} EachQueryItsResponse<Id>(ids: seq<Id>, responses: seq<seq<Frame>>)
    requires |responses| <= |ids| && forall i :: 0 <= i < |responses| ==> Response(responses[i])
    ensures DispatchAll(Conn(FreshQueue(ids), [], false), Flatten(responses))
         == Conn(FreshQueue(ids[|responses|..]), AnswersFor(ids, responses), false)
  {
    hide Answer, Dispatch, Response;
    var c0 := Conn(FreshQueue(ids), [], false);
    if responses == [] {
      assert ids[0..] == ids;
      assert AnswersFor(ids, responses) == [];
    } else {
      hide DispatchAll;
      var init, last := responses[..|responses| - 1], responses[|responses| - 1];
      EachQueryItsResponse(ids, init);
      DispatchAppend(c0, Flatten(init), last);
      var c := DispatchAll(c0, Flatten(init));
      CollectsResponse(c, last);
      assert c.queue[1..] == FreshQueue(ids[|responses|..]);
      assert AnswersFor(ids, responses) == AnswersFor(ids, init) + [Settled(ids[|init|], Answer(last))];
    }
  }

  /** While nothing is outstanding only notices arrive, and the connection does not break. */
  predicate Solicited<Id>(es: seq<Event<Id>>) {
    forall i :: 0 <= i < |es| ==>
      && !es[i].Break?
      && (es[i].Receive? ==> Timely(Run(es[..i]).conn, Split(Run(es[..i]).buf + es[i].chunk).0))
  }

  /** Every one of these frames finds a query waiting or is a notice. */
  predicate Timely<Id>(c: Conn<Id>, fs: seq<Frame>)
    decreases |fs|
  {
    fs == [] || ((c.queue != [] || fs[0].tag in NOTICES) && Timely(Dispatch(c, fs[0]), fs[1..]))
  }

  function Joined<Id>(c: Conn<Id>, id: Id): Conn<Id> {
    c.(queue := c.queue + [Fresh(id)])
  }

  /** Sending one more query earlier changes nothing for frames that were timely anyway. */
  lemma {:induction false} SendCommutes<Id>(c: Conn<Id>, id: Id, fs: seq<Frame>)
    requires Timely(c, fs)
    ensures Timely(Joined(c, id), fs)
    ensures DispatchAll(Joined(c, id), fs) == Joined(DispatchAll(c, fs), id)
    decreases |fs|
  {
    if fs != [] {
      SendCommutesOne(c, id, fs[0]);
      SendCommutes(Dispatch(c, fs[0]), id, fs[1..]);
    }
  }

  lemma SendCommutesOne<Id>(c: Conn<Id>, id: Id, f: Frame)
    requires c.queue != [] || f.tag in NOTICES
    ensures Dispatch(Joined(c, id), f) == Joined(Dispatch(c, f), id)
  {
    if c.queue != [] {
      assert Joined(c, id).queue[1..] == c.queue[1..] + [Fresh(id)];
    }
  }

  lemma {:induction false} TimelyAppend<Id>(c: Conn<Id>, fs: seq<Frame>, gs: seq<Frame>)
    requires Timely(c, fs) && Timely(DispatchAll(c, fs), gs)
    ensures Timely(c, fs + gs)
    decreases |fs|
  {
    if fs == [] {
      assert fs + gs == gs;
    } else {
      assert (fs + gs)[0] == fs[0] && (fs + gs)[1..] == fs[1..] + gs;
      TimelyAppend(Dispatch(c, fs[0]), fs[1..], gs);
    }
  }

  function AllWaiting<Id>(ids: seq<Id>): Conn<Id> {
    Conn(FreshQueue(ids), [], false)
  }

  lemma SolicitedInit<Id>(es: seq<Event<Id>>)
    requires es != [] && Solicited(es)
    ensures Solicited(es[..|es| - 1])
    ensures var e, s := es[|es| - 1], Run(es[..|es| - 1]);
      !e.Break? && (e.Receive? ==> Timely(s.conn, Split(s.buf + e.chunk).0))
  {
    hide Timely, Split, Run;
    var init := es[..|es| - 1];
    forall i | 0 <= i < |init| ensures init[..i] == es[..i] && init[i] == es[i] {
    }
  }

  /** A run that does not hang ends as if all its queries had been sent first and its bytes had come in one chunk. */
  lemma {:induction false} RunNormalForm<Id>(es: seq<Event<Id>>)
    requires Solicited(es) && !Run(es).conn.hung
    ensures var (frames, rest) := Split(Received(es));
      && Timely(AllWaiting(Sends(es)), frames)
      && Run(es) == Client(DispatchAll(AllWaiting(Sends(es)), frames), rest, false)
  {
    if es == [] {
      EmptySplit(Received(es));
    } else {
      hide Split, Dispatch, DispatchAll, Timely, Solicited;
      var init, e := es[..|es| - 1], es[|es| - 1];
      SolicitedInit(es);
      RunNormalForm(init);
      var (frames, rest) := Split(Received(init));
      var c0 := AllWaiting(Sends(init));
      match e
      case Send(id) =>
        assert Received(es) == Received(init);
        assert AllWaiting(Sends(es)) == Joined(c0, id);
        SendCommutes(c0, id, frames);
      case Receive(chunk) =>
        assert Sends(es) == Sends(init);
        SplitAppend(Received(init), chunk);
        var more := Split(rest + chunk).0;
        TimelyAppend(c0, frames, more);
        DispatchAppend(c0, frames, more);
    }
  }

  predicate Unfinished(fs: seq<Frame>) {
    forall i :: 0 <= i < |fs| ==> Benign(fs[i]) && fs[i].tag != READY
  }

  /** After the first |responses| answers the next query collects what has come of its own. */
  lemma AfterResponses<Id>(ids: seq<Id>, responses: seq<seq<Frame>>, part: seq<Frame>)
    requires Unfinished(part)
    requires |responses| <= |ids| && forall i :: 0 <= i < |responses| ==> Response(responses[i])
    ensures var c, left := DispatchAll(AllWaiting(ids), Flatten(responses) + part), ids[|responses|..];
      && !c.hung && c.settled == AnswersFor(ids, responses)
      && c.queue == if left == [] then [] else [Query(left[0], RowsIn(part), LastError(part))] + FreshQueue(left[1..])
  {
    hide Dispatch, DispatchAll, Benign, RowsIn, LastError, AnswersFor, Response;
    var left := ids[|responses|..];
    var c := Conn(FreshQueue(left), AnswersFor(ids, responses), false);
    EachQueryItsResponse(ids, responses);
    DispatchAppend(AllWaiting(ids), Flatten(responses), part);
    if left == [] {
      DispatchAllIds(c, part);
    } else {
      assert c.queue[1..] == FreshQueue(left[1..]);
      CollectsPrefix(c, part);
    }
  }

  /**
   Over a whole pipelined connection, however the bytes are cut into chunks and however sends and receipts
   interleave: once the bytes received so far are `responses`, a part of the next one and an unfinished frame,
   exactly the first |responses| queries are settled, each from its own response, and the next one has what came for it.
   */
  lemma PipelineMatchesResponses<Id>(es: seq<Event<Id>>, responses: seq<seq<Frame>>, part: seq<Frame>)
    requires Solicited(es) && Split(Received(es)).0 == Flatten(responses) + part && Unfinished(part)
    requires |responses| <= |Sends(es)| && forall i :: 0 <= i < |responses| ==> Response(responses[i])
    ensures var c, left := Run(es).conn, Sends(es)[|responses|..];
      && !c.hung && c.settled == AnswersFor(Sends(es), responses)
      && c.queue == if left == [] then [] else [Query(left[0], RowsIn(part), LastError(part))] + FreshQueue(left[1..])
  {
    FlattenBenign(responses);
    hide Benign, DispatchAll, RowsIn, LastError, AnswersFor, FreshQueue, Response, Flatten, Run, Sends, Received, Split;
    NoneEndless(Flatten(responses) + part);
    hide Endless, Unfinished;
    GoesOn(es);
    RunNormalForm(es);
    AfterResponses(Sends(es), responses, part);
  }

  lemma {:induction false} FlattenBenign(responses: seq<seq<Frame>>)
    requires forall i :: 0 <= i < |responses| ==> Response(responses[i])
    ensures forall f | f in Flatten(responses) :: Benign(f)
  {
    if responses != [] { FlattenBenign(responses[..|responses| - 1]); }
  }

  lemma NoneEndless(fs: seq<Frame>)
    requires forall f | f in fs :: Benign(f)
    ensures forall f | f in fs :: !Endless(f)
  {
    forall f | f in fs ensures !Endless(f) { EndsIffTerminated(f.payload); }
  }

  // ---------- rows survive the wire ----------

  function EncodeCells(cells: Cells): ByteString {
    if cells == [] then []
    else CellBytes(cells[0]) + EncodeCells(cells[1..])
  }

  function CellBytes(cell: Option<ByteString>): (b: ByteString)
    ensures |b| == 4 + if cell.None? then 0 else |cell.value|
  {
    match cell
    case None => BigEndian(0xffff_ffff, 4)
    case Some(v) => BigEndian(|v|, 4) + v
  }

  lemma OneCell(p: ByteString, off: nat, cell: Option<ByteString>)
    requires cell.Some? ==> |cell.value| < 0x8000_0000
    requires off + |CellBytes(cell)| <= |p| && p[off..off + |CellBytes(cell)|] == CellBytes(cell)
    ensures SignedBigEndian(p[off..off + 4]) == if cell.None? then -1 else |cell.value|
    ensures cell.Some? ==> Subarray(p, off + 4, off + 4 + |cell.value|) == cell.value
  {
    var enc := CellBytes(cell);
    Pow256Values();
    BigEndianRoundTrip(if cell.None? then 0xffff_ffff else |cell.value|, 4);
    assert p[off..off + 4] == p[off..off + |enc|][..4] == enc[..4];
    if cell.Some? {
      assert p[off + 4..off + |enc|] == p[off..off + |enc|][4..] == cell.value;
    }
  }

  lemma {:induction false} CellsRoundTrip(p: ByteString, off: nat, cells: Cells)
    requires forall i :: 0 <= i < |cells| && cells[i].Some? ==> |cells[i].value| < 0x8000_0000
    requires off <= |p| && p[off..] == EncodeCells(cells)
    ensures ReadCells(p, off, |cells|) == Some(cells)
    decreases |cells|
  {
    hide SignedBigEndian, Subarray, CellBytes;
    if cells != [] {
      var enc, tail := CellBytes(cells[0]), EncodeCells(cells[1..]);
      assert p[off..] == enc + tail;
      assert p[off..off + |enc|] == p[off..][..|enc|] == enc;
      assert p[off + |enc|..] == p[off..][|enc|..] == tail;
      OneCell(p, off, cells[0]);
      CellsRoundTrip(p, off + |enc|, cells[1..]);
      assert cells == [cells[0]] + cells[1..];
    }
  }

  /** A DataRow of up to 65535 columns decodes to the values it was made of, nulls included. */
  lemma DataRowRoundTrip(cells: Cells)
    requires |cells| < 0x1_0000
    requires forall i :: 0 <= i < |cells| && cells[i].Some? ==> |cells[i].value| < 0x8000_0000
    ensures DecodeDataRow(BigEndian(|cells|, 2) + EncodeCells(cells)) == Some(cells)
  {
    var p := BigEndian(|cells|, 2) + EncodeCells(cells);
    Pow256Values();
    BigEndianRoundTrip(|cells|, 2);
    assert p[..2] == BigEndian(|cells|, 2) && p[2..] == EncodeCells(cells);
    CellsRoundTrip(p, 2, cells);
  }
}
