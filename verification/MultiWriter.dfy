/**
 Any number of server processes issuing against one Postgres chain store.
 A run is a sequence of steps; a step that is not enabled changes nothing.
 */
module MultiWriter {
  import opened ChainLog
  import opened IssueRequest
  import opened PgChainStore
  import opened Ratchet

  type KeyId(!new, ==)
  type Sid(!new, ==)

  /** One issue attempt: the `serial`-th INSERT that a session put on its connection. */
  datatype Insert = Insert(serial: nat, keyId: KeyId, at: Position)
  datatype Answer = Answer(insert: Insert, result: AppendResult)
  datatype Ticket = Ticket(sid: Sid, serial: nat)

  /**
   A process and its single connection: in-memory chains, inserts the database has not taken yet, answers the process
   has not read yet, how many answers it has read, whether it saw a fatal error, and whether it has lost its writer lock,
   which no process ever gets back.
   */
  datatype Session = Session(
    chains: map<KeyId, Position>, sent: seq<Insert>, answered: seq<Answer>, read: nat, closed: bool, lost: bool)

  /** Can this process still put an INSERT on its connection? */
  predicate CanInsert(w: Session) {
    !w.closed && !w.lost
  }

  datatype Issued = Issued(ticket: Ticket, keyId: KeyId, counter: nat)

  datatype System = System(
    table: map<KeyId, seq<Row>>, sessions: map<Sid, Session>,
    owner: map<(KeyId, nat), Ticket>, issued: seq<Issued>)

  /** `readable` says whether the lease file can be read at the moment of the fence check. */
  datatype Step =
    | Connect(sid: Sid)
    | LoadKey(sid: Sid, keyId: KeyId)
    | Issue(sid: Sid, keyId: KeyId, request: Request, readable: bool)
    | LoseLock(sid: Sid)
    | Take(sid: Sid)
    | Read(sid: Sid)
    | Lose(sid: Sid)
    | Drop(sid: Sid)
    | Fail(sid: Sid)

  /** `room` is how deep arrays may be nested for the host to turn them into a number. */
  datatype Server = Server(sha: Sha3, seeds: KeyId -> Digest, room: nat)

  const Start := System(map[], map[], map[], [])

  function RowsOf(s: System, k: KeyId): seq<Row> {
    if k in s.table then s.table[k] else []
  }

  /** Boot: the key's rows are loaded; a load error ends the process. */
  function LoadStep(c: Server, s: System, sid: Sid, k: KeyId): System
    requires sid in s.sessions
  {
    var w := s.sessions[sid];
    if w.closed || k in w.chains then s else
    match LoadRows(c.sha, c.seeds(k), RowsOf(s, k))
    case Loaded(n, state, _) => s.(sessions := s.sessions[sid := w.(chains := w.chains[k := Position(n, state)])])
    case _ => s.(sessions := s.sessions[sid := w.(closed := true)])
  }

  function AdvancedSession(c: Server, w: Session, k: KeyId): Session
    requires k in w.chains
  {
    w.(chains := w.chains[k := Advanced(c.sha, w.chains[k])])
  }

  /**
   The issue route: advance in memory, build the token, check the fence, then put the INSERT on the connection. Whatever
   fails on the way ends the request after the advance.
   */
  function IssueSession(c: Server, w: Session, k: KeyId, inserts: bool): Session
    requires k in w.chains
  {
    var w' := AdvancedSession(c, w, k);
    if !CanInsert(w) || !inserts then w'
    else w'.(sent := w.sent + [Insert(w.read + |w.answered| + |w.sent|, k, w'.chains[k])])
  }

  function IssueStep(c: Server, s: System, sid: Sid, k: KeyId, r: Request, readable: bool): System
    requires sid in s.sessions
  {
    var w := s.sessions[sid];
    if k !in w.chains then s
    else s.(sessions := s.sessions[sid := IssueSession(c, w, k, Builds(r, c.room) && readable)])
  }

  /** The database takes the front INSERT of one connection. */
  function TakeStep(s: System, sid: Sid): System
    requires sid in s.sessions
  {
    var w := s.sessions[sid];
    if w.sent == [] then s else
    var i := w.sent[0];
    var (result, rows) := InsertRow(RowsOf(s, i.keyId), Row(i.at.counter, i.at.state));
    s.(table := s.table[i.keyId := rows],
       sessions := s.sessions[sid := w.(sent := w.sent[1..], answered := w.answered + [Answer(i, result)])],
       owner := if result == Appended then s.owner[(i.keyId, i.at.counter) := Ticket(sid, i.serial)] else s.owner)
  }

  /** The process reads the front answer: an accepted INSERT completes its issue request. */
  function ReadStep(s: System, sid: Sid): System
    requires sid in s.sessions
  {
    var w := s.sessions[sid];
    if w.closed || w.answered == [] then s else
    var a := w.answered[0];
    s.(sessions := s.sessions[sid := w.(answered := w.answered[1..], read := w.read + 1)],
       issued := if a.result == Appended
                 then s.issued + [Issued(Ticket(sid, a.insert.serial), a.insert.keyId, a.insert.at.counter)]
                 else s.issued)
  }

  function Next(c: Server, s: System, e: Step): System {
    if e.Connect? then
      if e.sid in s.sessions then s else s.(sessions := s.sessions[e.sid := Session(map[], [], [], 0, false, false)])
    else if e.sid !in s.sessions then s
    else
      var w := s.sessions[e.sid];
      match e
      case LoadKey(sid, k) => LoadStep(c, s, sid, k)
      case Issue(sid, k, r, readable) => IssueStep(c, s, sid, k, r, readable)
      // the lock is released, or another process has stolen the lease, or the file is damaged
      case LoseLock(sid) => s.(sessions := s.sessions[sid := w.(lost := true)])
      case Take(sid) => TakeStep(s, sid)
      case Read(sid) => ReadStep(s, sid)
      // the socket fails or a query times out: pending promises reject, later queries are refused
      case Lose(sid) => s.(sessions := s.sessions[sid := w.(closed := true)])
      // inserts still in flight on a lost connection never reach the database
      case Drop(sid) => if w.closed then s.(sessions := s.sessions[sid := w.(sent := [])]) else s
      // an INSERT fails for another reason although the connection stays up
      case Fail(sid) =>
        if w.sent == [] then s
        else s.(sessions := s.sessions[sid := w.(sent := w.sent[1..], answered := w.answered + [Answer(w.sent[0], Conflict)])])
  }

  function RunFrom(c: Server, s: System, steps: seq<Step>): System {
    if steps == [] then s else Next(c, RunFrom(c, s, steps[..|steps| - 1]), steps[|steps| - 1])
  }

  function Run(c: Server, steps: seq<Step>): System {
    RunFrom(c, Start, steps)
  }

  /** A sound request, a lease that can be read at the check; an INSERT fails only as a duplicate or with its connection. */
  predicate CleanStep(c: Server, e: Step) {
    !e.Fail? && (e.Issue? ==> Sound(e.request, c.room) && e.readable)
  }

  predicate Clean(c: Server, steps: seq<Step>) {
    forall i :: 0 <= i < |steps| ==> CleanStep(c, steps[i])
  }

  // ---------- the invariant ----------

  ghost predicate TableIsChain(c: Server, s: System) {
    forall k :: k in s.table ==> s.table[k] == ChainRows(c.sha, c.seeds(k), |s.table[k]|)
  }

  /** Counter `n` of key `k` is in the table, or one of the first `before` unsent inserts will put it there. */
  ghost predicate Reached(s: System, sent: seq<Insert>, k: KeyId, n: nat, before: nat)
    requires before <= |sent|
  {
    n <= |RowsOf(s, k)| || exists j :: 0 <= j < before && sent[j].keyId == k && sent[j].at.counter == n
  }

  ghost predicate ChainsOk(c: Server, s: System, w: Session) {
    forall k :: k in w.chains ==>
      OnChain(c.sha, c.seeds(k), w.chains[k]) && (CanInsert(w) ==> Reached(s, w.sent, k, w.chains[k].counter, |w.sent|))
  }

  ghost predicate SentOk(c: Server, s: System, sent: seq<Insert>) {
    forall i :: 0 <= i < |sent| ==>
      && sent[i].at.counter > 0 && OnChain(c.sha, c.seeds(sent[i].keyId), sent[i].at)
      && Reached(s, sent, sent[i].keyId, sent[i].at.counter - 1, i)
  }

  ghost predicate SerialsOk(w: Session) {
    && (forall i :: 0 <= i < |w.answered| ==> w.answered[i].insert.serial == w.read + i)
    && (forall i :: 0 <= i < |w.sent| ==> w.sent[i].serial == w.read + |w.answered| + i)
  }

  ghost predicate AnswersOwn(s: System, sid: Sid, w: Session) {
    forall i :: 0 <= i < |w.answered| && w.answered[i].result == Appended ==>
      var ins := w.answered[i].insert;
      (ins.keyId, ins.at.counter) in s.owner && s.owner[(ins.keyId, ins.at.counter)] == Ticket(sid, ins.serial)
  }

  ghost predicate SessionOk(c: Server, s: System, sid: Sid, w: Session) {
    ChainsOk(c, s, w) && SentOk(c, s, w.sent) && SerialsOk(w) && AnswersOwn(s, sid, w)
  }

  ghost predicate OwnersOk(s: System) {
    forall p :: p in s.owner ==> 1 <= p.1 <= |RowsOf(s, p.0)|
  }

  ghost predicate IssuedOk(s: System) {
    && (forall i :: 0 <= i < |s.issued| ==>
          var x := s.issued[i];
          && (x.keyId, x.counter) in s.owner && s.owner[(x.keyId, x.counter)] == x.ticket
          && x.ticket.sid in s.sessions && x.ticket.serial < s.sessions[x.ticket.sid].read)
    && (forall i, j :: 0 <= i < j < |s.issued| ==> s.issued[i].ticket != s.issued[j].ticket)
  }

  ghost predicate Inv(c: Server, s: System) {
    && TableIsChain(c, s)
    && (forall sid :: sid in s.sessions ==> SessionOk(c, s, sid, s.sessions[sid]))
    && OwnersOk(s)
    && IssuedOk(s)
  }

  // ---------- every step keeps the invariant ----------

  ghost predicate Grows(s: System, s': System) {
    && (forall k :: |RowsOf(s, k)| <= |RowsOf(s', k)|)
    && (forall p :: p in s.owner ==> p in s'.owner && s'.owner[p] == s.owner[p])
  }

  lemma ReachedGrows(s: System, s': System, sent: seq<Insert>, k: KeyId, n: nat, before: nat)
    requires Grows(s, s') && before <= |sent| && Reached(s, sent, k, n, before)
    ensures Reached(s', sent, k, n, before)
  {
    if n > |RowsOf(s', k)| {
      var j :| 0 <= j < before && sent[j].keyId == k && sent[j].at.counter == n;
      assert sent[j].keyId == k;
    }
  }

  lemma SentGrows(c: Server, s: System, s': System, sent: seq<Insert>)
    requires Grows(s, s') && SentOk(c, s, sent)
    ensures SentOk(c, s', sent)
  {
    forall i | 0 <= i < |sent|
      ensures sent[i].at.counter > 0 && Reached(s', sent, sent[i].keyId, sent[i].at.counter - 1, i)
    {
      assert sent[i].at.counter > 0;
      ReachedGrows(s, s', sent, sent[i].keyId, sent[i].at.counter - 1, i);
    }
  }

  lemma SessionGrows(c: Server, s: System, s': System, sid: Sid, w: Session)
    requires Grows(s, s') && SessionOk(c, s, sid, w)
    ensures SessionOk(c, s', sid, w)
  {
    SentGrows(c, s, s', w.sent);
    forall k | k in w.chains && CanInsert(w)
      ensures Reached(s', w.sent, k, w.chains[k].counter, |w.sent|)
    {
      ReachedGrows(s, s', w.sent, k, w.chains[k].counter, |w.sent|);
    }
  }

  /** A step that only replaces session `sid` and lets the table grow keeps every other session's part. */
  lemma SessionReplaced(c: Server, s: System, s': System, sid: Sid, w: Session)
    requires Inv(c, s) && Grows(s, s') && s'.sessions == s.sessions[sid := w]
    requires SessionOk(c, s', sid, w)
    ensures forall t :: t in s'.sessions ==> SessionOk(c, s', t, s'.sessions[t])
  {
    forall t | t in s'.sessions
      ensures SessionOk(c, s', t, s'.sessions[t])
    {
      if t != sid {
        SessionGrows(c, s, s', t, s.sessions[t]);
      }
    }
  }

  /** A step that touches nothing but session `sid`. */
  lemma OnlySession(c: Server, s: System, s': System, sid: Sid, w: Session)
    requires Inv(c, s) && s' == s.(sessions := s.sessions[sid := w]) && SessionOk(c, s, sid, w)
    requires sid in s.sessions ==> s.sessions[sid].read <= w.read
    ensures Inv(c, s')
  {
    SessionGrows(c, s, s', sid, w);
    SessionReplaced(c, s, s', sid, w);
    forall i | 0 <= i < |s'.issued|
      ensures var x := s'.issued[i]; x.ticket.sid in s'.sessions && x.ticket.serial < s'.sessions[x.ticket.sid].read
    {
      assert s.issued[i].ticket.sid in s.sessions;
    }
  }

  lemma ConnectKeeps(c: Server, s: System, sid: Sid)
    requires Inv(c, s)
    ensures Inv(c, Next(c, s, Connect(sid))) && Grows(s, Next(c, s, Connect(sid)))
  {
    if sid !in s.sessions {
      OnlySession(c, s, Next(c, s, Connect(sid)), sid, Session(map[], [], [], 0, false, false));
    }
  }

  lemma LoadKeeps(c: Server, s: System, sid: Sid, k: KeyId)
    requires Inv(c, s) && sid in s.sessions
    ensures Inv(c, LoadStep(c, s, sid, k)) && Grows(s, LoadStep(c, s, sid, k))
    ensures LoadStep(c, s, sid, k).sessions[sid].closed == s.sessions[sid].closed
  {
    var w := s.sessions[sid];
    if !w.closed && k !in w.chains {
      var n := |RowsOf(s, k)|;
      var p := Position(n, ChainState(c.sha, c.seeds(k), n));
      LoadRowsExact(c.sha, c.seeds(k), RowsOf(s, k), Loaded(n, p.state, n));
      OnlySession(c, s, LoadStep(c, s, sid, k), sid, w.(chains := w.chains[k := p]));
    }
  }

  lemma ReachedLater(s: System, sent: seq<Insert>, i: Insert, k: KeyId, n: nat, before: nat)
    requires before <= |sent| && Reached(s, sent, k, n, before)
    ensures Reached(s, sent + [i], k, n, before) && Reached(s, sent + [i], k, n, before + 1)
  {
    if n > |RowsOf(s, k)| {
      var j :| 0 <= j < before && sent[j].keyId == k && sent[j].at.counter == n;
      assert (sent + [i])[j].keyId == k && (sent + [i])[j].at.counter == n;
    }
  }

  lemma SentSnoc(c: Server, s: System, sent: seq<Insert>, i: Insert)
    requires SentOk(c, s, sent)
    requires i.at.counter > 0 && OnChain(c.sha, c.seeds(i.keyId), i.at)
    requires Reached(s, sent, i.keyId, i.at.counter - 1, |sent|)
    ensures SentOk(c, s, sent + [i])
  {
    var sent' := sent + [i];
    forall j | 0 <= j < |sent'|
      ensures sent'[j].at.counter > 0 && Reached(s, sent', sent'[j].keyId, sent'[j].at.counter - 1, j)
    {
      if j < |sent| {
        assert sent'[j] == sent[j] && sent[j].at.counter > 0;
        ReachedLater(s, sent, i, sent[j].keyId, sent[j].at.counter - 1, j);
      } else {
        ReachedLater(s, sent, i, i.keyId, i.at.counter - 1, j);
      }
    }
  }

  lemma ChainsSnoc(c: Server, s: System, w: Session, w': Session, k: KeyId, i: Insert)
    requires ChainsOk(c, s, w) && k in w.chains && OnChain(c.sha, c.seeds(k), i.at) && i.keyId == k
    requires w'.chains == w.chains[k := i.at] && w'.sent == w.sent + [i] && CanInsert(w') == CanInsert(w)
    ensures ChainsOk(c, s, w')
  {
    forall k' | k' in w'.chains && CanInsert(w)
      ensures Reached(s, w'.sent, k', w'.chains[k'].counter, |w'.sent|)
    {
      if k' == k {
        assert w'.sent[|w.sent|] == i;
      } else {
        ReachedLater(s, w.sent, i, k', w.chains[k'].counter, |w.sent|);
      }
    }
  }

  lemma IssueKeepsOpen(c: Server, s: System, sid: Sid, k: KeyId, w: Session)
    requires SessionOk(c, s, sid, w) && k in w.chains && CanInsert(w)
    ensures SessionOk(c, s, sid, IssueSession(c, w, k, true))
  {
    hide Reached, ChainState;
    var p := Advanced(c.sha, w.chains[k]);
    var i := Insert(w.read + |w.answered| + |w.sent|, k, p);
    assert OnChain(c.sha, c.seeds(k), p) by { AdvancedOnChain(c.sha, c.seeds(k), w.chains[k]); }
    assert SentOk(c, s, w.sent + [i]) by { SentSnoc(c, s, w.sent, i); }
    assert ChainsOk(c, s, IssueSession(c, w, k, true)) by { ChainsSnoc(c, s, w, IssueSession(c, w, k, true), k, i); }
  }

  /** Advancing without an INSERT does no harm when nobody will miss the INSERT. */
  lemma AdvanceKeeps(c: Server, s: System, sid: Sid, k: KeyId, w: Session)
    requires SessionOk(c, s, sid, w) && k in w.chains
    requires !CanInsert(w) || Reached(s, w.sent, k, w.chains[k].counter + 1, |w.sent|)
    ensures SessionOk(c, s, sid, AdvancedSession(c, w, k))
  {
    AdvancedOnChain(c.sha, c.seeds(k), w.chains[k]);
  }

  /** The counter that an issue of `k` would take next is in the table or on its way there. */
  ghost predicate NextReached(s: System, w: Session, k: KeyId)
    requires k in w.chains
  {
    Reached(s, w.sent, k, w.chains[k].counter + 1, |w.sent|)
  }

  lemma IssueSessionKeeps(c: Server, s: System, sid: Sid, k: KeyId, w: Session, inserts: bool)
    requires SessionOk(c, s, sid, w) && k in w.chains && (inserts || !CanInsert(w) || NextReached(s, w, k))
    ensures SessionOk(c, s, sid, IssueSession(c, w, k, inserts)) && IssueSession(c, w, k, inserts).read == w.read
  {
    hide SessionOk, Advanced;
    if !CanInsert(w) || !inserts {
      AdvanceKeeps(c, s, sid, k, w);
    } else {
      IssueKeepsOpen(c, s, sid, k, w);
    }
  }

  /** An issue that does no harm: it inserts, or nobody will miss its INSERT. */
  ghost predicate Harmless(c: Server, s: System, sid: Sid, k: KeyId, r: Request, readable: bool)
    requires sid in s.sessions && k in s.sessions[sid].chains
  {
    (Sound(r, c.room) && readable) || !CanInsert(s.sessions[sid]) || NextReached(s, s.sessions[sid], k)
  }

  lemma IssueKeeps(c: Server, s: System, sid: Sid, k: KeyId, r: Request, readable: bool)
    requires Inv(c, s) && sid in s.sessions
    requires k in s.sessions[sid].chains ==> Harmless(c, s, sid, k, r, readable)
    ensures Inv(c, IssueStep(c, s, sid, k, r, readable)) && Grows(s, IssueStep(c, s, sid, k, r, readable))
  {
    var w := s.sessions[sid];
    BuildsIffSound(r, c.room);
    assert Grows(s, IssueStep(c, s, sid, k, r, readable)) by { hide IssueSession, Builds; }
    if k in w.chains {
      assert SessionOk(c, s, sid, w);
      hide Builds, Sound, IssueSession, SessionOk, NextReached, CanInsert;
      var inserts := Builds(r, c.room) && readable;
      IssueSessionKeeps(c, s, sid, k, w, inserts);
      OnlySession(c, s, IssueStep(c, s, sid, k, r, readable), sid, IssueSession(c, w, k, inserts));
    }
  }

  /** What the database does with the front INSERT of any session of any reachable state. */
  lemma FrontInsert(c: Server, s: System, sid: Sid)
    requires Inv(c, s) && sid in s.sessions && s.sessions[sid].sent != []
    ensures var i := s.sessions[sid].sent[0];
      var m := |RowsOf(s, i.keyId)|;
      && 1 <= i.at.counter <= m + 1 && OnChain(c.sha, c.seeds(i.keyId), i.at)
      && InsertRow(RowsOf(s, i.keyId), Row(i.at.counter, i.at.state))
         == if i.at.counter <= m then (Conflict, RowsOf(s, i.keyId))
            else (Appended, ChainRows(c.sha, c.seeds(i.keyId), m + 1))
  {
    var w := s.sessions[sid];
    var i := w.sent[0];
    var m := |RowsOf(s, i.keyId)|;
    assert Reached(s, w.sent, i.keyId, i.at.counter - 1, 0);
    TakenOnChain(c.sha, c.seeds(i.keyId), m, i.at.counter);
    if i.at.counter == m + 1 {
      InsertKeepsChainIff(c.sha, c.seeds(i.keyId), m, Row(i.at.counter, i.at.state));
    }
  }

  /** Once the front insert's counter is in the table, what relied on it can rely on the table. */
  lemma ReachedPop(s: System, s': System, sent: seq<Insert>, k: KeyId, n: nat, before: nat)
    requires Grows(s, s') && before < |sent| && sent[0].at.counter <= |RowsOf(s', sent[0].keyId)|
    requires Reached(s, sent, k, n, before + 1)
    ensures Reached(s', sent[1..], k, n, before)
  {
    if n > |RowsOf(s', k)| {
      var j :| 0 <= j < before + 1 && sent[j].keyId == k && sent[j].at.counter == n;
      assert j > 0;
      assert sent[1..][j - 1].keyId == k && sent[1..][j - 1].at.counter == n;
    }
  }

  lemma SentPop(c: Server, s: System, s': System, sent: seq<Insert>)
    requires Grows(s, s') && SentOk(c, s, sent) && sent != []
    requires sent[0].at.counter <= |RowsOf(s', sent[0].keyId)|
    ensures SentOk(c, s', sent[1..])
  {
    forall j | 0 <= j < |sent[1..]|
      ensures sent[1..][j].at.counter > 0
      ensures Reached(s', sent[1..], sent[1..][j].keyId, sent[1..][j].at.counter - 1, j)
    {
      assert sent[1..][j] == sent[j + 1] && sent[j + 1].at.counter > 0;
      ReachedPop(s, s', sent, sent[j + 1].keyId, sent[j + 1].at.counter - 1, j);
    }
  }

  lemma TakeGrows(c: Server, s: System, sid: Sid)
    requires Inv(c, s) && sid in s.sessions && s.sessions[sid].sent != []
    ensures var s' := TakeStep(s, sid);
      && Grows(s, s') && TableIsChain(c, s') && OwnersOk(s')
      && s.sessions[sid].sent[0].at.counter <= |RowsOf(s', s.sessions[sid].sent[0].keyId)|
  {
    FrontInsert(c, s, sid);
  }

  lemma TakeKeepsSession(c: Server, s: System, sid: Sid)
    requires Inv(c, s) && sid in s.sessions && s.sessions[sid].sent != []
    ensures var s' := TakeStep(s, sid); SessionOk(c, s', sid, s'.sessions[sid])
  {
    hide ChainState, InsertOrdered, Taken, TableIsChain;
    var w := s.sessions[sid];
    var s' := TakeStep(s, sid);
    var w' := s'.sessions[sid];
    TakeGrows(c, s, sid);
    SentPop(c, s, s', w.sent);
    assert w'.sent == w.sent[1..];
    forall k | k in w'.chains && CanInsert(w')
      ensures Reached(s', w'.sent, k, w'.chains[k].counter, |w'.sent|)
    {
      assert Reached(s, w.sent, k, w.chains[k].counter, |w.sent|);
      ReachedPop(s, s', w.sent, k, w.chains[k].counter, |w'.sent|);
    }
    assert ChainsOk(c, s', w');
    assert AnswersOwn(s', sid, w') by {
      assert AnswersOwn(s', sid, w);
    }
  }

  lemma TakeKeeps(c: Server, s: System, sid: Sid)
    requires Inv(c, s) && sid in s.sessions
    ensures Inv(c, TakeStep(s, sid)) && Grows(s, TakeStep(s, sid))
  {
    if s.sessions[sid].sent != [] {
      var s' := TakeStep(s, sid);
      TakeGrows(c, s, sid);
      TakeKeepsSession(c, s, sid);
      TakeIssued(s, sid);
      hide InsertRow, SessionOk, TableIsChain, OwnersOk, IssuedOk, Grows;
      SessionReplaced(c, s, s', sid, s'.sessions[sid]);
    }
  }

  lemma TakeIssued(s: System, sid: Sid)
    requires IssuedOk(s) && sid in s.sessions && Grows(s, TakeStep(s, sid))
    ensures IssuedOk(TakeStep(s, sid))
  {
    hide InsertRow;
  }

  lemma ReadSession(c: Server, s: System, sid: Sid, w: Session)
    requires SessionOk(c, s, sid, w) && w.answered != []
    ensures SessionOk(c, s, sid, w.(answered := w.answered[1..], read := w.read + 1))
  {
    hide Reached, ChainState;
  }

  lemma ReadIssued(s: System, s': System, sid: Sid)
    requires IssuedOk(s) && sid in s.sessions && AnswersOwn(s, sid, s.sessions[sid]) && SerialsOk(s.sessions[sid])
    requires !s.sessions[sid].closed && s.sessions[sid].answered != [] && s' == ReadStep(s, sid)
    ensures IssuedOk(s')
  {
    var w := s.sessions[sid];
    assert w.answered[0].insert.serial == w.read;
  }

  lemma ReadKeeps(c: Server, s: System, sid: Sid)
    requires Inv(c, s) && sid in s.sessions
    ensures Inv(c, ReadStep(s, sid)) && Grows(s, ReadStep(s, sid))
  {
    var w := s.sessions[sid];
    if !w.closed && w.answered != [] {
      var s' := ReadStep(s, sid);
      var w' := s'.sessions[sid];
      ReadSession(c, s, sid, w);
      ReadIssued(s, s', sid);
      assert Grows(s, s') && s'.table == s.table && s'.owner == s.owner;
      hide SessionOk, IssuedOk;
      SessionGrows(c, s, s', sid, w');
      SessionReplaced(c, s, s', sid, w');
    }
  }

  lemma CloseKeeps(c: Server, s: System, sid: Sid, e: Step)
    requires Inv(c, s) && sid in s.sessions && (e == Lose(sid) || e == Drop(sid) || e == LoseLock(sid))
    ensures Inv(c, Next(c, s, e)) && Grows(s, Next(c, s, e))
  {
    OnlySession(c, s, Next(c, s, e), sid, Next(c, s, e).sessions[sid]);
  }

  lemma NextKeeps(c: Server, s: System, e: Step)
    requires Inv(c, s) && CleanStep(c, e)
    ensures Inv(c, Next(c, s, e)) && Grows(s, Next(c, s, e))
  {
    assert Grows(s, s);
    hide Inv, Grows, LoadStep, IssueStep, TakeStep, ReadStep;
    if e.Connect? {
      ConnectKeeps(c, s, e.sid);
    } else if e.sid in s.sessions {
      match e
      case LoadKey(sid, k) => LoadKeeps(c, s, sid, k);
      case Issue(sid, k, r, readable) => IssueKeeps(c, s, sid, k, r, readable);
      case LoseLock(sid) => CloseKeeps(c, s, sid, e);
      case Take(sid) => TakeKeeps(c, s, sid);
      case Read(sid) => ReadKeeps(c, s, sid);
      case Lose(sid) => CloseKeeps(c, s, sid, e);
      case Drop(sid) => CloseKeeps(c, s, sid, e);
    }
  }

  lemma {:induction false} RunFromInv(c: Server, s: System, steps: seq<Step>)
    requires Inv(c, s) && Clean(c, steps)
    ensures Inv(c, RunFrom(c, s, steps))
  {
    if steps != [] {
      RunFromInv(c, s, steps[..|steps| - 1]);
      NextKeeps(c, RunFrom(c, s, steps[..|steps| - 1]), steps[|steps| - 1]);
    }
  }

  lemma RunInv(c: Server, steps: seq<Step>)
    requires Clean(c, steps)
    ensures Inv(c, Run(c, steps))
  {
    RunFromInv(c, Start, steps);
  }

  // ---------- what every run keeps ----------

  /** The table of every key is counters 1..M with the ratchet states, so a boot at any moment loads (M, state_M). */
  lemma TableAlwaysLinked(c: Server, steps: seq<Step>, k: KeyId)
    requires Clean(c, steps)
    ensures var rows := RowsOf(Run(c, steps), k);
      && rows == ChainRows(c.sha, c.seeds(k), |rows|)
      && LoadRows(c.sha, c.seeds(k), rows) == Loaded(|rows|, ChainState(c.sha, c.seeds(k), |rows|), |rows|)
  {
    RunInv(c, steps);
    var rows := RowsOf(Run(c, steps), k);
    LoadRowsExact(c.sha, c.seeds(k), rows, Loaded(|rows|, ChainState(c.sha, c.seeds(k), |rows|), |rows|));
  }

  /** No two completed issue requests of any processes hold the same counter of the same key. */
  lemma IssuedCountersDistinct(c: Server, steps: seq<Step>, i: nat, j: nat)
    requires Clean(c, steps)
    requires i < j < |Run(c, steps).issued|
    ensures var a, b := Run(c, steps).issued[i], Run(c, steps).issued[j];
      && (a.keyId != b.keyId || a.counter != b.counter)
      && 1 <= b.counter <= |RowsOf(Run(c, steps), b.keyId)|
  {
    RunInv(c, steps);
    var s := Run(c, steps);
    assert s.issued[i].ticket != s.issued[j].ticket;
    assert (s.issued[j].keyId, s.issued[j].counter) in s.owner;
  }

  /**
   A writer never has to refresh: whatever races it lost before, its in-memory chain is on the ratchet,
   and its next INSERT is accepted exactly when it is one past the table, with the state the table needs there.
   */
  lemma LosersKeepLinking(c: Server, steps: seq<Step>, sid: Sid)
    requires Clean(c, steps) && sid in Run(c, steps).sessions
    ensures var s := Run(c, steps);
      var w := s.sessions[sid];
      && (forall k :: k in w.chains ==> OnChain(c.sha, c.seeds(k), w.chains[k]))
      && (w.sent != [] ==>
            var i := w.sent[0];
            var m := |RowsOf(s, i.keyId)|;
            && i.at.counter <= m + 1
            && RowsOf(TakeStep(s, sid), i.keyId)
               == ChainRows(c.sha, c.seeds(i.keyId), if i.at.counter == m + 1 then m + 1 else m))
  {
    RunInv(c, steps);
    if Run(c, steps).sessions[sid].sent != [] {
      FrontInsert(c, Run(c, steps), sid);
    }
  }

  /** Tables only grow, by whole links: an earlier table is a prefix of every later one. */
  lemma {:induction false} TablesOnlyGrow(c: Server, steps: seq<Step>, more: seq<Step>, k: KeyId)
    requires Clean(c, steps + more)
    ensures RowsOf(Run(c, steps), k) <= RowsOf(Run(c, steps + more), k)
  {
    if more == [] {
      assert steps + more == steps;
    } else {
      var init := more[..|more| - 1];
      assert (steps + more)[..|steps + more| - 1] == steps + init;
      TablesOnlyGrow(c, steps, init, k);
      RunInv(c, steps + init);
      RunInv(c, steps + more);
      NextKeeps(c, Run(c, steps + init), more[|more| - 1]);
      var m, m' := |RowsOf(Run(c, steps + init), k)|, |RowsOf(Run(c, steps + more), k)|;
      ChainRowsPrefix(c.sha, c.seeds(k), m', m);
    }
  }

  /**
   Why other failures are excluded, exactly: when the front INSERT fails although the connection stays up
   and the session's next link of the same key is taken, the table stays linked if and only if the failed
   INSERT would have been a duplicate anyway.
   */
  lemma SpuriousFailureHarmlessIff(c: Server, s: System, sid: Sid)
    requires Inv(c, s) && sid in s.sessions && |s.sessions[sid].sent| >= 2
    requires var q := s.sessions[sid].sent;
      q[1].keyId == q[0].keyId && q[1].at.counter == q[0].at.counter + 1
    ensures var i := s.sessions[sid].sent[0];
      var m := |RowsOf(s, i.keyId)|;
      var rows := RowsOf(TakeStep(Next(c, s, Fail(sid)), sid), i.keyId);
      && (LoadRows(c.sha, c.seeds(i.keyId), rows).Loaded? <==> i.at.counter <= m)
      && (i.at.counter > m ==> LoadRows(c.sha, c.seeds(i.keyId), rows) == NonMonotonic(m))
  {
    var i, i' := s.sessions[sid].sent[0], s.sessions[sid].sent[1];
    var m := |RowsOf(s, i.keyId)|;
    FrontInsert(c, s, sid);
    var s' := Next(c, s, Fail(sid));
    assert s'.sessions[sid].sent[0] == i' && RowsOf(s', i.keyId) == ChainRows(c.sha, c.seeds(i.keyId), m);
    assert OnChain(c.sha, c.seeds(i.keyId), i'.at) by { assert SentOk(c, s, s.sessions[sid].sent); }
    var rows := RowsOf(TakeStep(s', sid), i.keyId);
    assert rows == InsertRow(ChainRows(c.sha, c.seeds(i.keyId), m), Row(i'.at.counter, i'.at.state)).1;
    hide Inv, InsertRow, LoadRows, ChainRows, TakeStep, Next;
    InsertOutcome(c.sha, c.seeds(i.keyId), m, i'.at);
  }

  /** What a table of `m` links loads to after the INSERT of any position of the chain. */
  lemma InsertOutcome(sha: Sha3, seed: Digest, m: nat, p: Position)
    requires OnChain(sha, seed, p) && p.counter >= 1
    ensures var r := LoadRows(sha, seed, InsertRow(ChainRows(sha, seed, m), Row(p.counter, p.state)).1);
      if p.counter <= m then r == Loaded(m, ChainState(sha, seed, m), m)
      else if p.counter == m + 1 then r == Loaded(m + 1, p.state, m + 1)
      else r == NonMonotonic(m)
  {
    TakenOnChain(sha, seed, m, p.counter);
    LoadRowsExact(sha, seed, ChainRows(sha, seed, m), Loaded(m, ChainState(sha, seed, m), m));
    LoadRowsExact(sha, seed, ChainRows(sha, seed, m + 1), Loaded(m + 1, ChainState(sha, seed, m + 1), m + 1));
    hide LoadRows;
    if p.counter > m {
      InsertKeepsChainIff(sha, seed, m, Row(p.counter, p.state));
    }
  }

  // ---------- issues that advance without an INSERT ----------

  /** A boot at this moment would load every key. */
  ghost predicate Linked(c: Server, s: System) {
    forall k :: LoadRows(c.sha, c.seeds(k), RowsOf(s, k)).Loaded?
  }

  lemma InvLinked(c: Server, s: System)
    requires Inv(c, s)
    ensures Linked(c, s)
  {
    forall k ensures LoadRows(c.sha, c.seeds(k), RowsOf(s, k)).Loaded? {
      var n := |RowsOf(s, k)|;
      LoadRowsExact(c.sha, c.seeds(k), RowsOf(s, k), Loaded(n, ChainState(c.sha, c.seeds(k), n), n));
    }
  }

  function Takes(sid: Sid, n: nat): (steps: seq<Step>)
    ensures |steps| == n && forall i :: 0 <= i < n ==> steps[i] == Take(sid)
  {
    seq(n, i requires 0 <= i < n => Take(sid))
  }

  lemma RunFromSnoc(c: Server, s: System, steps: seq<Step>, e: Step)
    ensures RunFrom(c, s, steps + [e]) == Next(c, RunFrom(c, s, steps), e)
  {
    assert (steps + [e])[..|steps + [e]| - 1] == steps;
  }

  /** The same system with other in-memory chains in one session. */
  function WithChains(s: System, sid: Sid, chains: map<KeyId, Position>): System
    requires sid in s.sessions
  {
    s.(sessions := s.sessions[sid := s.sessions[sid].(chains := chains)])
  }

  /** The database does not look at a process's memory. */
  lemma TakeIgnoresChains(s: System, sid: Sid, chains: map<KeyId, Position>)
    requires sid in s.sessions
    ensures TakeStep(WithChains(s, sid, chains), sid) == WithChains(TakeStep(s, sid), sid, chains)
  {
    hide InsertRow;
    var s', t := WithChains(s, sid, chains), TakeStep(s, sid);
    assert TakeStep(s', sid).sessions == WithChains(t, sid, chains).sessions;
    assert TakeStep(s', sid).table == t.table && TakeStep(s', sid).owner == t.owner;
  }

  /** One INSERT less to come changes nothing about which counters the table has or will have. */
  lemma TakeReaches(c: Server, s: System, sid: Sid, k: KeyId, n: nat)
    requires Inv(c, s) && sid in s.sessions && s.sessions[sid].sent != []
    ensures var w, s' := s.sessions[sid], TakeStep(s, sid);
      Reached(s', w.sent[1..], k, n, |w.sent| - 1) <==> Reached(s, w.sent, k, n, |w.sent|)
  {
    var w, s' := s.sessions[sid], TakeStep(s, sid);
    TakeGrows(c, s, sid);
    OnlyFrontAdded(c, s, sid, k);
    hide Inv, TakeStep, TableIsChain, OwnersOk, Reached;
    if Reached(s, w.sent, k, n, |w.sent|) {
      ReachedPop(s, s', w.sent, k, n, |w.sent| - 1);
    }
    if Reached(s', w.sent[1..], k, n, |w.sent| - 1) {
      ReachedPush(s, s', w.sent, k, n);
    }
  }

  lemma ReachedPush(s: System, s': System, sent: seq<Insert>, k: KeyId, n: nat)
    requires sent != [] && Reached(s', sent[1..], k, n, |sent| - 1)
    requires var m, m' := |RowsOf(s, k)|, |RowsOf(s', k)|;
      m' == m || (sent[0].keyId == k && m' == m + 1 == sent[0].at.counter)
    ensures Reached(s, sent, k, n, |sent|)
  {
    hide RowsOf;
    if n > |RowsOf(s, k)| {
      if n <= |RowsOf(s', k)| {
        assert sent[0].keyId == k && sent[0].at.counter == n;
      } else {
        var j :| 0 <= j < |sent| - 1 && sent[1..][j].keyId == k && sent[1..][j].at.counter == n;
        assert sent[j + 1].keyId == k && sent[j + 1].at.counter == n;
      }
    }
  }

  lemma OnlyFrontAdded(c: Server, s: System, sid: Sid, k: KeyId)
    requires Inv(c, s) && sid in s.sessions && s.sessions[sid].sent != []
    ensures var i, m, m' := s.sessions[sid].sent[0], |RowsOf(s, k)|, |RowsOf(TakeStep(s, sid), k)|;
      m' == m || (i.keyId == k && m' == m + 1 == i.at.counter)
  {
    FrontInsert(c, s, sid);
    hide Inv, InsertRow;
  }

  lemma TakeOnce(c: Server, s: System, sid: Sid)
    requires Inv(c, s) && sid in s.sessions && s.sessions[sid].sent != []
    ensures var w, s' := s.sessions[sid], TakeStep(s, sid);
      && Inv(c, s') && sid in s'.sessions && s'.sessions[sid].sent == w.sent[1..]
      && s'.sessions[sid].chains == w.chains && CanInsert(s'.sessions[sid]) == CanInsert(w)
  {
    TakeKeeps(c, s, sid);
    hide Inv, InsertRow;
  }

  lemma TakesSnoc(c: Server, s: System, sid: Sid, j: nat)
    requires j > 0 && sid in RunFrom(c, s, Takes(sid, j - 1)).sessions
    ensures RunFrom(c, s, Takes(sid, j)) == TakeStep(RunFrom(c, s, Takes(sid, j - 1)), sid)
  {
    hide TakeStep, RunFrom;
    assert Takes(sid, j) == Takes(sid, j - 1) + [Take(sid)];
    hide Takes;
    RunFromSnoc(c, s, Takes(sid, j - 1), Take(sid));
    NextTakes(c, RunFrom(c, s, Takes(sid, j - 1)), sid);
  }

  lemma NextTakes(c: Server, s: System, sid: Sid)
    requires sid in s.sessions
    ensures Next(c, s, Take(sid)) == TakeStep(s, sid)
  {
    hide TakeStep;
  }

  lemma TakesNone(c: Server, s: System, sid: Sid)
    ensures RunFrom(c, s, Takes(sid, 0)) == s
  {}

  /** A session whose first `j` inserts the database has taken. */
  lemma {:induction false} Drained(c: Server, s: System, sid: Sid, j: nat)
    requires Inv(c, s) && sid in s.sessions && j <= |s.sessions[sid].sent|
    ensures var w, d := s.sessions[sid], RunFrom(c, s, Takes(sid, j));
      && Inv(c, d) && sid in d.sessions && d.sessions[sid].sent == w.sent[j..]
      && d.sessions[sid].chains == w.chains && CanInsert(d.sessions[sid]) == CanInsert(w)
  {
    hide Inv, RunFrom, TakeStep, Takes;
    if j == 0 {
      TakesNone(c, s, sid);
    } else {
      Drained(c, s, sid, j - 1);
      TakesSnoc(c, s, sid, j);
      var d := RunFrom(c, s, Takes(sid, j - 1));
      TakeOnce(c, d, sid);
      DropOne(s.sessions[sid].sent, j - 1);
    }
  }

  lemma DropOne<T>(q: seq<T>, j: nat)
    requires j < |q|
    ensures q[j..] != [] && q[j..][1..] == q[j + 1..]
  {
  }

  lemma StillThere(s: System, sid: Sid, chains: map<KeyId, Position>)
    requires sid in s.sessions
    ensures sid in WithChains(s, sid, chains).sessions
  {}

  lemma {:induction false} DrainIgnoresChains(c: Server, s: System, sid: Sid, chains: map<KeyId, Position>, j: nat)
    requires Inv(c, s) && sid in s.sessions && j <= |s.sessions[sid].sent|
    ensures sid in RunFrom(c, s, Takes(sid, j)).sessions
    ensures RunFrom(c, WithChains(s, sid, chains), Takes(sid, j)) == WithChains(RunFrom(c, s, Takes(sid, j)), sid, chains)
  {
    hide Inv, RunFrom, TakeStep, WithChains;
    if j == 0 {
      TakesNone(c, s, sid);
      TakesNone(c, WithChains(s, sid, chains), sid);
    } else {
      DrainIgnoresChains(c, s, sid, chains, j - 1);
      Drained(c, s, sid, j);
      Drained(c, s, sid, j - 1);
      StillThere(RunFrom(c, s, Takes(sid, j - 1)), sid, chains);
      TakesSnoc(c, s, sid, j);
      TakesSnoc(c, WithChains(s, sid, chains), sid, j);
      TakeIgnoresChains(RunFrom(c, s, Takes(sid, j - 1)), sid, chains);
    }
  }

  lemma {:induction false} DrainReaches(c: Server, s: System, sid: Sid, k: KeyId, n: nat, j: nat)
    requires Inv(c, s) && sid in s.sessions && j <= |s.sessions[sid].sent|
    ensures var w, d := s.sessions[sid], RunFrom(c, s, Takes(sid, j));
      Reached(d, w.sent[j..], k, n, |w.sent| - j) <==> Reached(s, w.sent, k, n, |w.sent|)
  {
    hide Inv, RunFrom, TakeStep, Reached, Takes;
    if j == 0 {
      TakesNone(c, s, sid);
    } else {
      DrainReaches(c, s, sid, k, n, j - 1);
      Drained(c, s, sid, j - 1);
      TakesSnoc(c, s, sid, j);
      TakeReaches(c, RunFrom(c, s, Takes(sid, j - 1)), sid, k, n);
      DropOne(s.sessions[sid].sent, j - 1);
    }
  }

  /** The chain for `k` has been advanced once without an INSERT. */
  function Skipped(c: Server, s: System, sid: Sid, k: KeyId): System
    requires sid in s.sessions && k in s.sessions[sid].chains
  {
    WithChains(s, sid, AdvancedSession(c, s.sessions[sid], k).chains)
  }

  lemma SkippedRows(c: Server, s: System, sid: Sid, k: KeyId, good: Request)
    requires sid in s.sessions && s.sessions[sid].sent == [] && CanInsert(s.sessions[sid])
    requires k in s.sessions[sid].chains && Sound(good, c.room)
    ensures var q := Advanced(c.sha, Advanced(c.sha, s.sessions[sid].chains[k]));
      RowsOf(Next(c, Next(c, Skipped(c, s, sid, k), Issue(sid, k, good, true)), Take(sid)), k)
      == InsertRow(RowsOf(s, k), Row(q.counter, q.state)).1
  {
    BuildsIffSound(good, c.room);
    hide Builds, Sound, InsertRow, Advanced;
  }

  /** With nothing on the connection and the chain at the end of the table: an advance without INSERT, then a good issue. */
  lemma GapAfterAdvance(c: Server, s: System, sid: Sid, k: KeyId, good: Request)
    requires Inv(c, s) && sid in s.sessions && s.sessions[sid].sent == [] && CanInsert(s.sessions[sid])
    requires k in s.sessions[sid].chains && s.sessions[sid].chains[k].counter == |RowsOf(s, k)| && Sound(good, c.room)
    ensures var t := Next(c, Next(c, Skipped(c, s, sid, k), Issue(sid, k, good, true)), Take(sid));
      LoadRows(c.sha, c.seeds(k), RowsOf(t, k)) == NonMonotonic(|RowsOf(s, k)|)
  {
    var m, seed, p := |RowsOf(s, k)|, c.seeds(k), s.sessions[sid].chains[k];
    assert RowsOf(s, k) == ChainRows(c.sha, seed, m);
    SkippedRows(c, s, sid, k, good);
    assert OnChain(c.sha, seed, p) by { assert SessionOk(c, s, sid, s.sessions[sid]); }
    hide Inv, InsertRow, LoadRows, ChainRows, Next, Skipped, OnChain, RowsOf, Sound;
    AdvancedOnChain(c.sha, seed, p);
    AdvancedOnChain(c.sha, seed, Advanced(c.sha, p));
    InsertOutcome(c.sha, seed, m, Advanced(c.sha, Advanced(c.sha, p)));
  }

  lemma DrainedEnd(c: Server, s: System, sid: Sid, k: KeyId)
    requires Inv(c, s) && sid in s.sessions && CanInsert(s.sessions[sid]) && k in s.sessions[sid].chains
    requires !NextReached(s, s.sessions[sid], k)
    ensures var w, d := s.sessions[sid], RunFrom(c, s, Takes(sid, |s.sessions[sid].sent|));
      |RowsOf(d, k)| == w.chains[k].counter
  {
    var w := s.sessions[sid];
    var p, n := w.chains[k], |w.sent|;
    assert Reached(s, w.sent, k, p.counter, n) by { assert SessionOk(c, s, sid, w); }
    DrainReaches(c, s, sid, k, p.counter, n);
    DrainReaches(c, s, sid, k, p.counter + 1, n);
    assert w.sent[n..] == [];
  }

  lemma NotLinked(c: Server, s: System, k: KeyId)
    requires !LoadRows(c.sha, c.seeds(k), RowsOf(s, k)).Loaded?
    ensures !Linked(c, s)
  {
  }

  lemma DrainIssueTakeClean(c: Server, sid: Sid, n: nat, k: KeyId, good: Request)
    requires Sound(good, c.room)
    ensures Clean(c, Takes(sid, n) + [Issue(sid, k, good, true)] + [Take(sid)])
  {
    hide Sound;
  }

  lemma GapReachable(c: Server, s: System, sid: Sid, k: KeyId) returns (more: seq<Step>)
    requires Inv(c, s) && sid in s.sessions && CanInsert(s.sessions[sid]) && k in s.sessions[sid].chains
    requires !NextReached(s, s.sessions[sid], k)
    ensures Clean(c, more)
    ensures !Linked(c, RunFrom(c, Skipped(c, s, sid, k), more))
  {
    var chains, n, good := AdvancedSession(c, s.sessions[sid], k).chains, |s.sessions[sid].sent|, OrdinaryRequest();
    var takes, issue := Takes(sid, n), Issue(sid, k, good, true);
    more := takes + [issue] + [Take(sid)];
    WhichAreSound(c.room);
    DrainIssueTakeClean(c, sid, n, k, good);
    hide Inv, RunFrom, NextReached, Next, Clean, Linked, WithChains, LoadRows, RowsOf, Sound, CanInsert;
    DrainedEnd(c, s, sid, k);
    Drained(c, s, sid, n);
    DrainIgnoresChains(c, s, sid, chains, n);
    var d := RunFrom(c, s, takes);
    GapAfterAdvance(c, d, sid, k, good);
    RunFromSnoc(c, Skipped(c, s, sid, k), takes, issue);
    RunFromSnoc(c, Skipped(c, s, sid, k), takes + [issue], Take(sid));
    NotLinked(c, RunFrom(c, Skipped(c, s, sid, k), more), k);
  }

  /**
   Exactly which issues are safe, in any good state: every continuation keeps every table loadable if and only if the
   request is sound and the lease can be read, or the session no longer inserts, or another writer has put or will have
   put the counter there that this issue burns.
   */
  lemma IssueSafeIff(c: Server, s: System, sid: Sid, k: KeyId, r: Request, readable: bool)
    requires Inv(c, s) && sid in s.sessions && k in s.sessions[sid].chains
    ensures (forall more | Clean(c, more) :: Linked(c, RunFrom(c, Next(c, s, Issue(sid, k, r, readable)), more)))
       <==> (Sound(r, c.room) && readable) || !CanInsert(s.sessions[sid]) || NextReached(s, s.sessions[sid], k)
  {
    hide Sound, Builds;
    var s' := Next(c, s, Issue(sid, k, r, readable));
    if Harmless(c, s, sid, k, r, readable) {
      IssueKeeps(c, s, sid, k, r, readable);
      forall more | Clean(c, more) ensures Linked(c, RunFrom(c, s', more)) {
        RunFromInv(c, s', more);
        InvLinked(c, RunFrom(c, s', more));
      }
    } else {
      BuildsIffSound(r, c.room);
      var more := GapReachable(c, s, sid, k);
      assert s' == Skipped(c, s, sid, k);
    }
  }

  /** One process, one key, a request that is not sound or whose lease cannot be read, and a good one. */
  function TwoIssues(sid: Sid, k: KeyId, bad: Request, readable: bool, good: Request): seq<Step> {
    [Connect(sid), LoadKey(sid, k), Issue(sid, k, bad, readable), Issue(sid, k, good, true), Take(sid)]
  }

  lemma BadIssueBreaksTable(c: Server, sid: Sid, k: KeyId, bad: Request, readable: bool, good: Request)
    requires !(Sound(bad, c.room) && readable) && Sound(good, c.room)
    ensures LoadRows(c.sha, c.seeds(k), RowsOf(Run(c, TwoIssues(sid, k, bad, readable, good)), k)) == NonMonotonic(0)
  {
    var steps := TwoIssues(sid, k, bad, readable, good);
    RunFromSnoc(c, Start, steps[..2], steps[2]);
    RunFromSnoc(c, Start, steps[..3], steps[3]);
    RunFromSnoc(c, Start, steps[..4], steps[4]);
    assert steps[..3] == steps[..2] + [steps[2]] && steps[..4] == steps[..3] + [steps[3]] && steps == steps[..4] + [steps[4]];
    Booted(c, sid, k);
    assert steps[..2] == [Connect(sid), LoadKey(sid, k)];
    var s := RunFrom(c, Start, steps[..2]);
    BuildsIffSound(bad, c.room);
    hide RunFrom, Inv, LoadRows, Builds, Sound;
    GapAfterAdvance(c, s, sid, k, good);
    assert Next(c, s, Issue(sid, k, bad, readable)) == Skipped(c, s, sid, k);
  }

  /** Sixteen claims. */
  lemma SixteenClaimsBreakTable(c: Server, sid: Sid, k: KeyId)
    ensures var steps := TwoIssues(sid, k, SixteenClaimsRequest(), true, OrdinaryRequest());
      LoadRows(c.sha, c.seeds(k), RowsOf(Run(c, steps), k)) == NonMonotonic(0)
  {
    WhichAreSound(c.room);
    hide Sound, Run, LoadRows;
    BadIssueBreaksTable(c, sid, k, SixteenClaimsRequest(), true, OrdinaryRequest());
  }

  /** No claims, and a lifetime that is an object with a member called "toString". */
  lemma OddTtlBreaksTable(c: Server, sid: Sid, k: KeyId)
    ensures var steps := TwoIssues(sid, k, OddTtlRequest(), true, OrdinaryRequest());
      LoadRows(c.sha, c.seeds(k), RowsOf(Run(c, steps), k)) == NonMonotonic(0)
  {
    WhichAreSound(c.room);
    hide Sound, Run, LoadRows;
    BadIssueBreaksTable(c, sid, k, OddTtlRequest(), true, OrdinaryRequest());
  }

  /** A lease that cannot be read at one check, while the lock is not lost. */
  lemma UnreadLeaseBreaksTable(c: Server, sid: Sid, k: KeyId)
    ensures var steps := TwoIssues(sid, k, OrdinaryRequest(), false, OrdinaryRequest());
      LoadRows(c.sha, c.seeds(k), RowsOf(Run(c, steps), k)) == NonMonotonic(0)
  {
    WhichAreSound(c.room);
    hide Sound, Run, LoadRows;
    BadIssueBreaksTable(c, sid, k, OrdinaryRequest(), false, OrdinaryRequest());
  }

  lemma Booted(c: Server, sid: Sid, k: KeyId)
    ensures var s := RunFrom(c, Start, [Connect(sid), LoadKey(sid, k)]);
      && Inv(c, s) && sid in s.sessions && s.sessions[sid] == Session(map[k := Position(0, c.seeds(k))], [], [], 0, false, false)
      && RowsOf(s, k) == []
  {
    var steps := [Connect(sid), LoadKey(sid, k)];
    RunFromInv(c, Start, steps);
    assert steps == [Connect(sid)] + [LoadKey(sid, k)] && [Connect(sid)] == [] + [Connect(sid)];
    RunFromSnoc(c, Start, [], Connect(sid));
    RunFromSnoc(c, Start, [Connect(sid)], LoadKey(sid, k));
    hide Inv;
  }
}
