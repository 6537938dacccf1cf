/**
 What becomes of an issue request once several processes share one table: which rows answer which request, when the
 request completes, and what a process that lost its connection or its lock can still do.
 */
module IssueCompletion {
  import opened ChainLog
  import opened IssueRequest
  import opened MultiWriter
  import opened PgChainStore
  import opened Ratchet

  // ---------- every row is some request's row ----------

  /** The owner of row `p` has been told so, or its answer is waiting in the right place. */
  ghost predicate Followed(s: System, t: Ticket, p: (KeyId, nat)) {
    && t.sid in s.sessions
    && var w := s.sessions[t.sid];
       if t.serial < w.read then Issued(t, p.0, p.1) in s.issued
       else t.serial < w.read + |w.answered| && AnswersRow(w.answered[t.serial - w.read], t.serial, p)
  }

  ghost predicate AnswersRow(a: Answer, serial: nat, p: (KeyId, nat)) {
    a.result == Appended && a.insert.serial == serial && a.insert.keyId == p.0 && a.insert.at.counter == p.1
  }

  ghost predicate AllFollowed(s: System) {
    forall p :: p in s.owner ==> Followed(s, s.owner[p], p)
  }

  ghost predicate RowsOwned(s: System) {
    forall k: KeyId, n: nat :: 1 <= n <= |RowsOf(s, k)| ==> (k, n) in s.owner
  }

  ghost predicate Tracked(s: System) {
    AllFollowed(s) && RowsOwned(s)
  }

  /** What `Tracked` does not look at. */
  ghost predicate SameAnswers(s: System, s': System) {
    && s'.table == s.table && s'.owner == s.owner && s'.issued == s.issued
    && forall t :: t in s.sessions ==>
         && t in s'.sessions && s'.sessions[t].read == s.sessions[t].read
         && s'.sessions[t].answered == s.sessions[t].answered
  }

  lemma SameAnswersKeep(s: System, s': System)
    requires Tracked(s) && SameAnswers(s, s')
    ensures Tracked(s')
  {
    forall p | p in s'.owner ensures Followed(s', s'.owner[p], p) {
      assert Followed(s, s.owner[p], p);
    }
  }

  lemma OtherSteps(c: Server, s: System, e: Step)
    requires !e.Take? && !e.Read? && !e.Fail?
    ensures SameAnswers(s, Next(c, s, e))
  {
    hide LoadRows, Builds, Advanced;
  }

  lemma TakeTracked(c: Server, s: System, sid: Sid)
    requires Inv(c, s) && sid in s.sessions && Tracked(s)
    ensures Tracked(TakeStep(s, sid))
  {
    if s.sessions[sid].sent != [] {
      TakeOwned(c, s, sid);
      TakeFollowed(c, s, sid);
    }
  }

  lemma TakeOwned(c: Server, s: System, sid: Sid)
    requires Inv(c, s) && sid in s.sessions && s.sessions[sid].sent != [] && RowsOwned(s)
    ensures RowsOwned(TakeStep(s, sid))
  {
    hide Inv, TakeStep, RowsOf;
    var s' := TakeStep(s, sid);
    forall k: KeyId, n: nat | 1 <= n <= |RowsOf(s', k)| ensures (k, n) in s'.owner {
      OnlyFrontAdded(c, s, sid, k);
      TakeOwnedRow(s, sid, k, n);
    }
  }

  lemma TakeOwnedRow(s: System, sid: Sid, k: KeyId, n: nat)
    requires sid in s.sessions && s.sessions[sid].sent != []
    requires 1 <= n <= |RowsOf(TakeStep(s, sid), k)| && (n <= |RowsOf(s, k)| ==> (k, n) in s.owner)
    requires var i, m, m' := s.sessions[sid].sent[0], |RowsOf(s, k)|, |RowsOf(TakeStep(s, sid), k)|;
      m' == m || (i.keyId == k && m' == m + 1 == i.at.counter)
    ensures (k, n) in TakeStep(s, sid).owner
  {
    hide InsertOrdered, Taken;
  }

  lemma TakeFollowed(c: Server, s: System, sid: Sid)
    requires Inv(c, s) && sid in s.sessions && s.sessions[sid].sent != [] && AllFollowed(s)
    ensures AllFollowed(TakeStep(s, sid))
  {
    var w, s' := s.sessions[sid], TakeStep(s, sid);
    var m := |RowsOf(s, w.sent[0].keyId)|;
    assert SerialsOk(w) by { assert SessionOk(c, s, sid, w); }
    assert OwnersOk(s);
    FrontInsert(c, s, sid);
    hide Inv, SessionOk, InsertRow, OwnersOk, ChainRows, OnChain;
    forall p | p in s'.owner ensures Followed(s', s'.owner[p], p) {
      if p in s.owner {
        assert p != (w.sent[0].keyId, w.sent[0].at.counter) || w.sent[0].at.counter <= m by { }
        TakeKeepsFollowed(s, sid, s.owner[p], p);
      }
    }
  }

  lemma TakeKeepsFollowed(s: System, sid: Sid, t: Ticket, p: (KeyId, nat))
    requires sid in s.sessions && Followed(s, t, p)
    ensures Followed(TakeStep(s, sid), t, p)
  {
    hide InsertRow;
  }

  lemma ReadTracked(c: Server, s: System, sid: Sid)
    requires Inv(c, s) && sid in s.sessions && Tracked(s)
    ensures Tracked(ReadStep(s, sid))
  {
    var w, s' := s.sessions[sid], ReadStep(s, sid);
    assert SerialsOk(w) by { assert SessionOk(c, s, sid, w); }
    hide Inv, SessionOk;
    forall p | p in s'.owner ensures Followed(s', s'.owner[p], p) {
      ReadKeepsFollowed(s, sid, s.owner[p], p);
    }
  }

  lemma ReadKeepsFollowed(s: System, sid: Sid, t: Ticket, p: (KeyId, nat))
    requires sid in s.sessions && SerialsOk(s.sessions[sid]) && Followed(s, t, p)
    ensures Followed(ReadStep(s, sid), t, p)
  {}

  lemma NextTracked(c: Server, s: System, e: Step)
    requires Inv(c, s) && CleanStep(c, e) && Tracked(s)
    ensures Tracked(Next(c, s, e))
  {
    hide Inv, Tracked, SameAnswers, TakeStep, ReadStep, LoadStep, IssueStep;
    if e.Take? && e.sid in s.sessions {
      TakeTracked(c, s, e.sid);
    } else if e.Read? && e.sid in s.sessions {
      ReadTracked(c, s, e.sid);
    } else if !e.Take? && !e.Read? {
      OtherSteps(c, s, e);
      SameAnswersKeep(s, Next(c, s, e));
    }
  }

  lemma {:induction false} RunTracked(c: Server, steps: seq<Step>)
    requires Clean(c, steps)
    ensures Inv(c, Run(c, steps)) && Tracked(Run(c, steps))
  {
    RunInv(c, steps);
    if steps != [] {
      RunTracked(c, steps[..|steps| - 1]);
      NextTracked(c, Run(c, steps[..|steps| - 1]), steps[|steps| - 1]);
    }
  }

  // ---------- which requests complete ----------

  /** Has the process of ticket `t` read the answer to that INSERT? */
  ghost predicate HasRead(s: System, t: Ticket) {
    t.sid in s.sessions && t.serial < s.sessions[t.sid].read
  }

  predicate SameRow(a: Issued, b: Issued) {
    a.keyId == b.keyId && a.counter == b.counter
  }

  /**
   Every row of every table is there for exactly one request, its owner. That request is completed, with the row's key
   and counter, if and only if its process has read the answer; it is then completed once; nothing else is completed.
   */
  lemma RowsCompleteOnce(c: Server, steps: seq<Step>, k: KeyId, n: nat, t: Ticket)
    requires Clean(c, steps)
    ensures var s := Run(c, steps);
      && (1 <= n <= |RowsOf(s, k)| <==> (k, n) in s.owner)
      && (Issued(t, k, n) in s.issued <==> (k, n) in s.owner && s.owner[(k, n)] == t && HasRead(s, t))
      && forall i, j :: 0 <= i < |s.issued| && 0 <= j < |s.issued| && SameRow(s.issued[i], s.issued[j]) ==> i == j
  {
    RunTracked(c, steps);
    var s := Run(c, steps);
    hide Run;
    if (k, n) in s.owner {
      assert Followed(s, s.owner[(k, n)], (k, n));
    }
    forall i, j | 0 <= i < |s.issued| && 0 <= j < |s.issued| && SameRow(s.issued[i], s.issued[j])
      ensures i == j
    {
      assert s.issued[i].ticket == s.issued[j].ticket == s.owner[(s.issued[i].keyId, s.issued[i].counter)];
    }
  }

  /**
   The request whose answer is read completes at that moment if and only if the database accepted its INSERT; a duplicate
   never completes it, and nobody else's request completes.
   */
  lemma ReadCompletesIff(c: Server, steps: seq<Step>, sid: Sid, x: Issued)
    requires Clean(c, steps) && sid in Run(c, steps).sessions
    requires !Run(c, steps).sessions[sid].closed && Run(c, steps).sessions[sid].answered != []
    ensures var s := Run(c, steps);
      var a := s.sessions[sid].answered[0];
      var own := Issued(Ticket(sid, a.insert.serial), a.insert.keyId, a.insert.at.counter);
      x in Next(c, s, Read(sid)).issued <==> x in s.issued || (a.result == Appended && x == own)
    ensures var s := Run(c, steps);
      var t := Ticket(sid, s.sessions[sid].answered[0].insert.serial);
      && !HasRead(s, t) && HasRead(Next(c, s, Read(sid)), t) && forall y :: y in s.issued ==> y.ticket != t
  {
    RunTracked(c, steps);
    var s := Run(c, steps);
    assert SerialsOk(s.sessions[sid]) by { assert SessionOk(c, s, sid, s.sessions[sid]); }
    hide Run, SessionOk, Tracked;
  }

  /**
   An INSERT that fails although the connection stays up leaves the table as it is, is answered after the earlier ones, and
   whenever its answer is read, completes nothing.
   */
  lemma FailedInsertCompletesNothing(c: Server, s: System, sid: Sid, t: System)
    requires sid in s.sessions && s.sessions[sid].sent != [] && sid in t.sessions && t.sessions[sid].answered != []
    ensures var w, s' := s.sessions[sid], Next(c, s, Fail(sid));
      var w' := s'.sessions[sid];
      && s'.table == s.table && s'.owner == s.owner && s'.issued == s.issued && w'.sent == w.sent[1..]
      && |w'.answered| == |w.answered| + 1 && w'.answered[..|w.answered|] == w.answered
      && w'.answered[|w.answered|].insert == w.sent[0]
      && (t.sessions[sid].answered[0] == w'.answered[|w.answered|] ==> Next(c, t, Read(sid)).issued == t.issued)
  {
  }

  /** One process, one ordinary request: the answer is read and the token carries counter 1. */
  lemma FirstIssueCompletes(c: Server, sid: Sid, k: KeyId)
    ensures var steps := [Connect(sid), LoadKey(sid, k)] + [Issue(sid, k, OrdinaryRequest(), true)] + [Take(sid)] + [Read(sid)];
      Run(c, steps).issued == [Issued(Ticket(sid, 0), k, 1)]
  {
    var boot, issue := [Connect(sid), LoadKey(sid, k)], Issue(sid, k, OrdinaryRequest(), true);
    Booted(c, sid, k);
    assert Run(c, boot).issued == [] by { BootIssuesNothing(c, sid, k); }
    RunFromSnoc(c, Start, boot, issue);
    RunFromSnoc(c, Start, boot + [issue], Take(sid));
    RunFromSnoc(c, Start, boot + [issue] + [Take(sid)], Read(sid));
    WhichAreSound(c.room);
    hide Inv, RunFrom, Sound, Next;
    IssueTakeRead(c, Run(c, boot), sid, k, OrdinaryRequest());
  }

  lemma IssueTakeRead(c: Server, s: System, sid: Sid, k: KeyId, r: Request)
    requires sid in s.sessions && Sound(r, c.room) && RowsOf(s, k) == []
    requires s.sessions[sid] == Session(map[k := Position(0, c.seeds(k))], [], [], 0, false, false)
    ensures Next(c, Next(c, Next(c, s, Issue(sid, k, r, true)), Take(sid)), Read(sid)).issued
         == s.issued + [Issued(Ticket(sid, 0), k, 1)]
  {
    BuildsIffSound(r, c.room);
    hide Builds, Sound, DeriveNext, InsertOrdered;
  }

  lemma BootIssuesNothing(c: Server, sid: Sid, k: KeyId)
    ensures Run(c, [Connect(sid), LoadKey(sid, k)]).issued == []
  {
    assert [Connect(sid), LoadKey(sid, k)] == [Connect(sid)] + [LoadKey(sid, k)] && [Connect(sid)] == [] + [Connect(sid)];
    RunFromSnoc(c, Start, [], Connect(sid));
    RunFromSnoc(c, Start, [Connect(sid)], LoadKey(sid, k));
    hide LoadRows;
  }

  // ---------- booting, and what memory holds afterwards ----------

  /** A boot takes up a key if and only if its rows are the chain of its seed, at their end; otherwise the process is over. */
  lemma LoadTakesUpIff(c: Server, s: System, sid: Sid, k: KeyId)
    requires sid in s.sessions && !s.sessions[sid].closed && k !in s.sessions[sid].chains
    ensures var rows, w := RowsOf(s, k), Next(c, s, LoadKey(sid, k)).sessions[sid];
      if rows == ChainRows(c.sha, c.seeds(k), |rows|)
      then !w.closed && w.chains == s.sessions[sid].chains[k := Position(|rows|, ChainState(c.sha, c.seeds(k), |rows|))]
      else w.closed && k !in w.chains
  {
    var rows := RowsOf(s, k);
    LoadRowsExact(c.sha, c.seeds(k), rows, LoadRows(c.sha, c.seeds(k), rows));
    LoadRowsExact(c.sha, c.seeds(k), rows, Loaded(|rows|, ChainState(c.sha, c.seeds(k), |rows|), |rows|));
    hide LoadRows;
  }

  function IssuesOf(steps: seq<Step>, sid: Sid, k: KeyId): nat {
    if steps == [] then 0
    else var e := steps[|steps| - 1];
      IssuesOf(steps[..|steps| - 1], sid, k) + (if e.Issue? && e.sid == sid && e.keyId == k then 1 else 0)
  }

  lemma OthersStep(c: Server, s: System, sid: Sid, e: Step)
    requires sid in s.sessions && e.sid != sid
    ensures var s' := Next(c, s, e);
      && sid in s'.sessions && s'.sessions[sid] == s.sessions[sid]
      && (forall x :: x in s'.issued && x.ticket.sid == sid ==> x in s.issued)
      && (forall p :: p in s'.owner && s'.owner[p].sid == sid ==> p in s.owner && s.owner[p] == s'.owner[p])
  {
    hide LoadRows, Builds, InsertRow, Advanced;
  }

  lemma OneStepMemory(c: Server, s: System, sid: Sid, k: KeyId, e: Step)
    requires sid in s.sessions && k in s.sessions[sid].chains
    ensures var s' := Next(c, s, e);
      && sid in s'.sessions && k in s'.sessions[sid].chains
      && s'.sessions[sid].chains[k].counter
         == s.sessions[sid].chains[k].counter + (if e.Issue? && e.sid == sid && e.keyId == k then 1 else 0)
  {
    if e.sid == sid {
      OwnStepMemory(c, s, k, e);
    } else {
      OthersStep(c, s, sid, e);
    }
    hide Next;
  }

  lemma OwnStepMemory(c: Server, s: System, k: KeyId, e: Step)
    requires e.sid in s.sessions && k in s.sessions[e.sid].chains
    ensures var s' := Next(c, s, e);
      && e.sid in s'.sessions && k in s'.sessions[e.sid].chains
      && s'.sessions[e.sid].chains[k].counter
         == s.sessions[e.sid].chains[k].counter + (if e.Issue? && e.keyId == k then 1 else 0)
  {
    hide LoadRows, Builds, InsertRow, DeriveNext;
  }

  /** Every issue moves the process's own chain by one, whether it inserts, completes, loses the race or fails. */
  lemma {:induction false} MemoryCountsIssues(c: Server, s: System, sid: Sid, k: KeyId, steps: seq<Step>)
    requires sid in s.sessions && k in s.sessions[sid].chains
    ensures var s' := RunFrom(c, s, steps);
      && sid in s'.sessions && k in s'.sessions[sid].chains
      && s'.sessions[sid].chains[k].counter == s.sessions[sid].chains[k].counter + IssuesOf(steps, sid, k)
  {
    hide Next;
    if steps != [] {
      MemoryCountsIssues(c, s, sid, k, steps[..|steps| - 1]);
      OneStepMemory(c, RunFrom(c, s, steps[..|steps| - 1]), sid, k, steps[|steps| - 1]);
    }
  }

  /**
   The issue route's reply reads the counter from the chain again once the INSERT is answered. It names the counter that
   the token carries if and only if the process began no other issue of the key in between; otherwise it names a later one.
   */
  lemma EchoedCounterIff(c: Server, s: System, sid: Sid, k: KeyId, r: Request, readable: bool, between: seq<Step>)
    requires sid in s.sessions && k in s.sessions[sid].chains
    requires Sound(r, c.room) && readable && CanInsert(s.sessions[sid])
    ensures var s1 := Next(c, s, Issue(sid, k, r, readable));
      var s2 := RunFrom(c, s1, between);
      && s1.sessions[sid].sent != []
      && sid in s2.sessions && k in s2.sessions[sid].chains
      && var token, echoed := s1.sessions[sid].sent[|s1.sessions[sid].sent| - 1].at.counter, s2.sessions[sid].chains[k].counter;
         token <= echoed && (token == echoed <==> IssuesOf(between, sid, k) == 0)
  {
    BuildsIffSound(r, c.room);
    hide Builds, Sound;
    MemoryCountsIssues(c, Next(c, s, Issue(sid, k, r, readable)), sid, k, between);
  }

  // ---------- a process that lost its connection or its lock ----------

  ghost predicate Silent(s: System, s': System, sid: Sid)
    requires sid in s.sessions
  {
    && sid in s'.sessions && !CanInsert(s'.sessions[sid])
    && (forall i :: i in s'.sessions[sid].sent ==> i in s.sessions[sid].sent)
    && (s.sessions[sid].closed ==>
          && s'.sessions[sid].closed && (forall x :: x in s'.issued && x.ticket.sid == sid ==> x in s.issued))
    && (s.sessions[sid].sent == [] ==>
          forall p :: p in s'.owner && s'.owner[p].sid == sid ==> p in s.owner && s.owner[p] == s'.owner[p])
  }

  lemma StaysSilent(c: Server, s: System, s': System, sid: Sid, e: Step)
    requires sid in s.sessions && Silent(s, s', sid)
    ensures Silent(s, Next(c, s', e), sid)
  {
    assert s.sessions[sid].sent == [] ==> s'.sessions[sid].sent == [] by {
      if s'.sessions[sid].sent != [] {
        assert s'.sessions[sid].sent[0] in s.sessions[sid].sent;
      }
    }
    if e.sid != sid {
      OthersStep(c, s', sid, e);
    } else {
      SilentStep(c, s', sid, e);
    }
    hide Next;
  }

  lemma SilentStep(c: Server, s: System, sid: Sid, e: Step)
    requires sid in s.sessions && e.sid == sid && !CanInsert(s.sessions[sid])
    ensures var s' := Next(c, s, e);
      && sid in s'.sessions && !CanInsert(s'.sessions[sid])
      && (forall i :: i in s'.sessions[sid].sent ==> i in s.sessions[sid].sent)
      && (s.sessions[sid].closed ==> s'.sessions[sid].closed && s'.issued == s.issued)
      && (s.sessions[sid].sent == [] ==> s'.owner == s.owner)
  {
    hide LoadRows, Builds, InsertRow, Advanced;
  }

  lemma {:induction false} SilentRun(c: Server, s: System, sid: Sid, steps: seq<Step>)
    requires sid in s.sessions && !CanInsert(s.sessions[sid])
    ensures Silent(s, RunFrom(c, s, steps), sid)
  {
    hide Next;
    if steps != [] {
      SilentRun(c, s, sid, steps[..|steps| - 1]);
      StaysSilent(c, s, RunFrom(c, s, steps[..|steps| - 1]), sid, steps[|steps| - 1]);
    }
  }

  /**
   A process whose connection or lock is lost never puts another INSERT on its connection. When the connection is lost, no
   request of it completes any more; and once what was in flight is gone too, it never gets another row.
   */
  lemma LossSilences(c: Server, s: System, sid: Sid, e: Step, steps: seq<Step>)
    requires sid in s.sessions && (e == Lose(sid) || e == LoseLock(sid))
    ensures var s1 := Next(c, s, e);
      && sid in RunFrom(c, s1, steps).sessions
      && (forall i :: i in RunFrom(c, s1, steps).sessions[sid].sent ==> i in s.sessions[sid].sent)
      && (e.Lose? ==>
            && (forall x :: x in RunFrom(c, s1, steps).issued && x.ticket.sid == sid ==> x in s.issued)
            && var s2 := RunFrom(c, Next(c, s1, Drop(sid)), steps);
               forall p :: p in s2.owner && s2.owner[p].sid == sid ==> p in s.owner && s.owner[p] == s2.owner[p])
  {
    var s1 := Next(c, s, e);
    SilentRun(c, s1, sid, steps);
    if e.Lose? {
      SilentRun(c, Next(c, s1, Drop(sid)), sid, steps);
    }
  }
}
