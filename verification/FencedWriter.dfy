/**
 Any number of server processes sharing one data directory: the lease file, the chain logs and what each
 process holds in memory. Each synchronous call of the server is one step; in particular the issue route
 advances the chain, builds the token, checks the fence and appends without giving up the event loop.
 */
module FencedWriter {
  import opened Bytes
  import opened ChainLog
  import opened IssueRequest
  import opened Ratchet
  import opened Wrappers
  import opened WriterLock

  type KeyId(!new, ==)

  datatype Process = Process(fence: int, released: bool, chains: map<KeyId, Position>)

  /** `used` holds every holder id ever drawn, a fresh UUID is not among them; `lastFence` is the last fence handed out, 0 if none. */
  datatype System = System(
    lease: Content, logs: map<KeyId, ByteString>, procs: map<HolderId, Process>, used: set<HolderId>, lastFence: int)

  /**
   `readable` says whether the lease file can be read at the moment of the check, `written` how many bytes of the record
   the append puts into the log before it succeeds or fails. A crash in an append leaves `cut` bytes of it. The last three
   steps are damage from outside to the lease file or to its fence number.
   */
  datatype Step =
    | Boot(me: HolderId, allowSteal: bool, at: Host)
    | LoadKey(me: HolderId, keyId: KeyId)
    | Issue(me: HolderId, keyId: KeyId, request: Request, readable: bool, written: nat)
    | CrashInAppend(me: HolderId, keyId: KeyId, cut: nat)
    | RenewLease(me: HolderId, at: Host)
    | Release(me: HolderId)
    | Crash(me: HolderId)
    | Garble
    | Vanish
    | GarbleFence

  /** `room` is how deep arrays may be nested for the host to turn them into a number. */
  datatype Server = Server(sha: Sha3, seeds: KeyId -> Digest, room: nat)

  const Start := System(Absent, map[], map[], {}, 0)

  function LogOf(s: System, k: KeyId): Option<ByteString> {
    if k in s.logs then Some(s.logs[k]) else None
  }

  /** The fence check of process `me` succeeds in this state, if it can read the lease. */
  predicate Passes(s: System, me: HolderId) {
    me in s.procs && !s.procs[me].released && Owns(s.lease, me, s.procs[me].fence)
  }

  /** What a check of process `me` answers. */
  predicate CheckSucceeds(s: System, me: HolderId, readable: bool) {
    readable && Passes(s, me)
  }

  /** The lock is taken before anything is loaded; a refused process exits. */
  function BootStep(s: System, me: HolderId, allowSteal: bool, at: Host): System {
    if me in s.used then s else
    match Acquire(s.lease, me, allowSteal, at)
    case Acquired(f, content) =>
      s.(lease := content, procs := s.procs[me := Process(f, false, map[])], used := s.used + {me}, lastFence := f)
    case _ => s.(used := s.used + {me})
  }

  /** A log that does not verify ends the boot. */
  function LoadStep(c: Server, s: System, me: HolderId, k: KeyId): System
    requires me in s.procs
  {
    var p := s.procs[me];
    if k in p.chains then s else
    match LoadFile(c.sha, c.seeds(k), LogOf(s, k))
    case Loaded(n, state, _) => s.(procs := s.procs[me := p.(chains := p.chains[k := Position(n, state)])])
    case _ => s.(procs := s.procs - {me})
  }

  /** Can process `me` issue for this key? No issue goes past the last u64 counter. */
  predicate CanIssue(s: System, me: HolderId, k: KeyId) {
    me in s.procs && k in s.procs[me].chains && s.procs[me].chains[k].counter + 1 < U64
  }

  function NextRow(c: Server, s: System, me: HolderId, k: KeyId): (row: Row)
    requires CanIssue(s, me, k)
    ensures 0 <= row.counter < U64 && |row.state| == 32
  {
    var q := Advanced(c.sha, s.procs[me].chains[k]);
    Row(q.counter, q.state)
  }

  /** Advance in memory, and append or not. */
  function IssueStep(c: Server, s: System, me: HolderId, k: KeyId, appends: bool): System
    requires CanIssue(s, me, k)
  {
    var p := s.procs[me];
    var s' := s.(procs := s.procs[me := p.(chains := p.chains[k := Advanced(c.sha, p.chains[k])])]);
    if appends then s'.(logs := s.logs[k := Extended(LogOf(s, k), NextRow(c, s, me, k))]) else s'
  }

  /** Advance in memory; the append fails after `written` bytes of the record, and the process lives on. */
  function ShortStep(c: Server, s: System, me: HolderId, k: KeyId, written: nat): System
    requires CanIssue(s, me, k) && written < RECORD_BYTES
  {
    IssueStep(c, s, me, k, false).(logs := s.logs[k := Stored(LogOf(s, k)) + Cut(NextRow(c, s, me, k), written)])
  }

  /** The first bytes of a record. */
  function Cut(row: Row, cut: nat): ByteString
    requires 0 <= row.counter < U64
  {
    var rec := EncodeRow(row);
    rec[..if cut < |rec| then cut else |rec|]
  }

  /** The process dies while it writes its record: the log ends with the first `cut` bytes of it. */
  function TornStep(c: Server, s: System, me: HolderId, k: KeyId, cut: nat): System
    requires CanIssue(s, me, k)
  {
    s.(procs := s.procs - {me}, logs := s.logs[k := Stored(LogOf(s, k)) + Cut(NextRow(c, s, me, k), cut)])
  }

  function Next(c: Server, s: System, e: Step): System {
    if e.Boot? then BootStep(s, e.me, e.allowSteal, e.at)
    else if e.Garble? then s.(lease := Unreadable)
    else if e.Vanish? then s.(lease := Absent)
    else if e.GarbleFence? then
      if s.lease.Held? then s.(lease := Held(s.lease.lease.(fence := None))) else s
    else if e.me !in s.procs then s
    else
      match e
      case LoadKey(me, k) => LoadStep(c, s, me, k)
      case Issue(me, k, r, readable, written) =>
        if !CanIssue(s, me, k) then s
        else if !Builds(r, c.room) || !CheckSucceeds(s, me, readable) then IssueStep(c, s, me, k, false)
        else if written < RECORD_BYTES then ShortStep(c, s, me, k, written)
        else IssueStep(c, s, me, k, true)
      case CrashInAppend(me, k, cut) =>
        if CanIssue(s, me, k) && Passes(s, me) then TornStep(c, s, me, k, cut) else s.(procs := s.procs - {me})
      case RenewLease(me, at) =>
        if Passes(s, me) then s.(lease := NewLease(s.procs[me].fence, me, at)) else s
      case Release(me) =>
        var s' := s.(procs := s.procs[me := s.procs[me].(released := true)]);
        if !s.procs[me].released && s.lease.Held? && s.lease.lease.holderId == me then s'.(lease := Absent) else s'
      case Crash(me) => s.(procs := s.procs - {me})
  }

  function RunFrom(c: Server, s: System, steps: seq<Step>): System {
    if steps == [] then s else Next(c, RunFrom(c, s, steps[..|steps| - 1]), steps[|steps| - 1])
  }

  function Run(c: Server, steps: seq<Step>): System {
    RunFrom(c, Start, steps)
  }

  /** Sound requests, a lease that can be read at the check, and no record cut in two. */
  predicate CleanStep(c: Server, e: Step) {
    && (e.Issue? ==> Sound(e.request, c.room) && e.readable && e.written >= RECORD_BYTES)
    && (e.CrashInAppend? ==> e.cut == 0 || e.cut >= RECORD_BYTES)
  }

  predicate Clean(c: Server, steps: seq<Step>) {
    forall i :: 0 <= i < |steps| ==> CleanStep(c, steps[i])
  }

  lemma RunFromSnoc(c: Server, s: System, steps: seq<Step>, e: Step)
    ensures RunFrom(c, s, steps + [e]) == Next(c, RunFrom(c, s, steps), e)
  {
    assert (steps + [e])[..|steps + [e]| - 1] == steps;
  }

  lemma {:induction false} RunFromAppend(c: Server, s: System, steps: seq<Step>, more: seq<Step>)
    ensures RunFrom(c, s, steps + more) == RunFrom(c, RunFrom(c, s, steps), more)
  {
    if more == [] {
      assert steps + more == steps;
    } else {
      var init := more[..|more| - 1];
      RunFromAppend(c, s, steps, init);
      assert (steps + more)[..|steps + more| - 1] == steps + init;
    }
  }

  // ---------- mutual exclusion ----------

  lemma AtMostOnePasses(s: System, p: HolderId, q: HolderId)
    requires Passes(s, p) && Passes(s, q)
    ensures p == q && s.lease.Held? && s.lease.lease.holderId == p
  {
  }

  lemma LossIsFinalStep(c: Server, s: System, e: Step, me: HolderId)
    requires me in s.used && !Passes(s, me)
    ensures me in Next(c, s, e).used && !Passes(Next(c, s, e), me)
  {
    hide LoadFile, Advanced, Builds, EncodeRow, Extended;
  }

  lemma {:induction false} LossIsFinalFrom(c: Server, s: System, more: seq<Step>, me: HolderId)
    requires me in s.used && !Passes(s, me)
    ensures me in RunFrom(c, s, more).used && !Passes(RunFrom(c, s, more), me)
  {
    if more != [] {
      LossIsFinalFrom(c, s, more[..|more| - 1], me);
      LossIsFinalStep(c, RunFrom(c, s, more[..|more| - 1]), more[|more| - 1], me);
    }
  }

  lemma NoSteps() returns (none: seq<Step>)
    ensures none == []
  {
    none := [];
  }

  /**
   Over the answers of checks: a check that fails in a booted process is the last word, whatever happens later, if and
   only if it could read the lease or the lease was no longer this process's anyway.
   */
  lemma FailedCheckFinalIff(c: Server, s: System, me: HolderId, readable: bool)
    requires me in s.used && !CheckSucceeds(s, me, readable)
    ensures (forall more, again :: !CheckSucceeds(RunFrom(c, s, more), me, again)) <==> readable || !Passes(s, me)
  {
    if Passes(s, me) {
      var none := NoSteps();
      assert RunFrom(c, s, none) == s;
      assert CheckSucceeds(RunFrom(c, s, none), me, true);
    } else {
      forall more, again ensures !CheckSucceeds(RunFrom(c, s, more), me, again) {
        LossIsFinalFrom(c, s, more, me);
      }
    }
  }

  /** At every moment of every run one process at most can append, and whoever has lost the lease never can again. */
  lemma FenceIsExclusive(c: Server, steps: seq<Step>, more: seq<Step>, p: HolderId, q: HolderId)
    requires p != q && Passes(Run(c, steps), q)
    ensures !Passes(Run(c, steps), p)
    ensures p in Run(c, steps).used ==> !Passes(Run(c, steps + more), p)
  {
    if Passes(Run(c, steps), p) {
      AtMostOnePasses(Run(c, steps), p, q);
    } else if p in Run(c, steps).used {
      LossIsFinalFrom(c, Run(c, steps), more, p);
      RunFromAppend(c, Start, steps, more);
    }
  }

  // ---------- the log follows the ratchet ----------

  /** What a boot would load for this key now. */
  function Reload(c: Server, s: System, k: KeyId): LoadResult {
    LoadFile(c.sha, c.seeds(k), LogOf(s, k))
  }

  /** How many issues the key's log holds. */
  function Length(c: Server, s: System, k: KeyId): nat {
    if Reload(c, s, k).Loaded? then Reload(c, s, k).counter else 0
  }

  ghost predicate LogIsChain(c: Server, s: System, k: KeyId) {
    Reload(c, s, k) == Loaded(Length(c, s, k), ChainState(c.sha, c.seeds(k), Length(c, s, k)), Length(c, s, k))
  }

  /** Whoever may append holds, for every key it has loaded, exactly the position the log has reached. */
  ghost predicate HolderInStep(c: Server, s: System) {
    forall me, k :: Passes(s, me) && k in s.procs[me].chains ==>
      s.procs[me].chains[k] == Position(Length(c, s, k), ChainState(c.sha, c.seeds(k), Length(c, s, k)))
  }

  ghost predicate Inv(c: Server, s: System) {
    && (forall k :: LogIsChain(c, s, k))
    && HolderInStep(c, s)
    && s.procs.Keys <= s.used
    && (s.lease.Held? ==> s.lease.lease.holderId in s.used)
  }

  /** What the holder would append. */
  lemma HolderFacts(c: Server, s: System, me: HolderId, k: KeyId)
    requires Inv(c, s) && Passes(s, me) && CanIssue(s, me, k)
    ensures var n := Length(c, s, k);
      && Reload(c, s, k) == Loaded(n, ChainState(c.sha, c.seeds(k), n), n) && n + 1 < U64
      && s.procs[me].chains[k] == Position(n, ChainState(c.sha, c.seeds(k), n))
      && NextRow(c, s, me, k) == Row(n + 1, ChainState(c.sha, c.seeds(k), n + 1))
  {
    hide LoadFile;
    assert LogIsChain(c, s, k);
  }

  /** What an issue does to the shared log: nothing without an append, exactly the next link with it. */
  lemma IssueAppendsNextLink(c: Server, s: System, me: HolderId, k: KeyId, appends: bool)
    requires Inv(c, s) && CanIssue(s, me, k) && (appends ==> Passes(s, me))
    ensures var s', n := IssueStep(c, s, me, k, appends), Length(c, s, k);
      && (!appends ==> s'.logs == s.logs)
      && (appends ==>
            && Reload(c, s', k) == Loaded(n + 1, ChainState(c.sha, c.seeds(k), n + 1), n + 1)
            && s'.procs[me].chains[k] == Position(n + 1, ChainState(c.sha, c.seeds(k), n + 1))
            && (forall k' :: k' != k ==> LogOf(s', k') == LogOf(s, k')))
  {
    if appends {
      var n := Length(c, s, k);
      HolderFacts(c, s, me, k);
      hide Inv, LoadFile, Extended, Length, DeriveNext;
      ExtendedLoads(c.sha, c.seeds(k), LogOf(s, k), n, n + 1);
    }
  }

  lemma SameLogs(c: Server, s: System, s': System)
    requires s'.logs == s.logs
    ensures forall k :: Reload(c, s', k) == Reload(c, s, k)
  {
    hide LoadFile;
  }

  /** Only the log of `k` has changed, and it is a chain again. */
  lemma OneLog(c: Server, s: System, s': System, k: KeyId)
    requires (forall k' :: LogIsChain(c, s, k')) && LogIsChain(c, s', k) && forall k' :: k' != k ==> LogOf(s', k') == LogOf(s, k')
    ensures forall k' :: LogIsChain(c, s', k')
    ensures forall k' :: k' != k ==> Length(c, s', k') == Length(c, s, k')
  {
    hide LoadFile, ChainState;
    forall k' ensures LogIsChain(c, s', k') && (k' != k ==> Length(c, s', k') == Length(c, s, k')) {
      assert LogIsChain(c, s, k');
      if k' != k { assert LogOf(s', k') == LogOf(s, k'); }
    }
  }

  lemma AppendKeeps(c: Server, s: System, me: HolderId, k: KeyId)
    requires Inv(c, s) && CanIssue(s, me, k) && Passes(s, me)
    ensures Inv(c, IssueStep(c, s, me, k, true))
  {
    hide LoadFile, ChainState, Extended, Advanced, NextRow;
    var s' := IssueStep(c, s, me, k, true);
    IssueAppendsNextLink(c, s, me, k, true);
    assert LogIsChain(c, s', k);
    OneLog(c, s, s', k);
    hide LogIsChain;
    forall q, k' | Passes(s', q) && k' in s'.procs[q].chains
      ensures s'.procs[q].chains[k'] == Position(Length(c, s', k'), ChainState(c.sha, c.seeds(k'), Length(c, s', k')))
    {
      assert Passes(s', me);
      AtMostOnePasses(s', q, me);
      if k' != k { assert s.procs[me].chains[k'] == s'.procs[me].chains[k']; }
    }
  }

  /** An advance without an append does no harm in a process that can no longer append. */
  lemma AdvanceKeeps(c: Server, s: System, me: HolderId, k: KeyId)
    requires Inv(c, s) && CanIssue(s, me, k) && !Passes(s, me)
    ensures Inv(c, IssueStep(c, s, me, k, false))
  {
    hide LoadFile, ChainState, Extended, Advanced, NextRow, Reload;
    var s' := IssueStep(c, s, me, k, false);
    SameLogs(c, s, s');
    forall k' ensures LogIsChain(c, s', k') { assert LogIsChain(c, s, k'); }
    hide LogIsChain;
    forall q, k' | Passes(s', q) && k' in s'.procs[q].chains
      ensures s'.procs[q].chains[k'] == Position(Length(c, s', k'), ChainState(c.sha, c.seeds(k'), Length(c, s', k')))
    {
      assert q != me && Passes(s, q);
    }
  }

  lemma LoadKeeps(c: Server, s: System, me: HolderId, k: KeyId)
    requires Inv(c, s) && me in s.procs
    ensures Inv(c, LoadStep(c, s, me, k)) && me in LoadStep(c, s, me, k).procs
  {
    hide LoadFile, ChainState;
    var s' := LoadStep(c, s, me, k);
    assert LogIsChain(c, s, k);
    SameLogs(c, s, s');
    forall k' ensures LogIsChain(c, s', k') { assert LogIsChain(c, s, k'); }
  }

  /** A crash before or after the whole record leaves the log of a run without that crash. */
  lemma WholeCrashKeeps(c: Server, s: System, me: HolderId, k: KeyId, cut: nat)
    requires Inv(c, s) && CanIssue(s, me, k) && Passes(s, me) && (cut == 0 || cut >= RECORD_BYTES)
    ensures Inv(c, TornStep(c, s, me, k, cut))
  {
    var s', n := TornStep(c, s, me, k, cut), Length(c, s, k);
    HolderFacts(c, s, me, k);
    TornLoads(c.sha, c.seeds(k), LogOf(s, k), n, if cut == 0 then 0 else RECORD_BYTES);
    hide LoadFile, ChainState, EncodeRow, Advanced, NextRow, Stored;
    assert LogIsChain(c, s', k);
    OneLog(c, s, s', k);
    hide LogIsChain;
    forall q | Passes(s', q) ensures false {
      AtMostOnePasses(s, q, me);
    }
  }

  lemma NextKeeps(c: Server, s: System, e: Step)
    requires Inv(c, s) && CleanStep(c, e)
    ensures Inv(c, Next(c, s, e))
  {
    hide Inv, IssueStep, LoadStep, TornStep, ShortStep, BootStep, Builds, Sound, Passes, CanIssue;
    if e.Issue? && CanIssue(s, e.me, e.keyId) {
      BuildsIffSound(e.request, c.room);
      IssuerIsThere(s, e.me, e.keyId);
      if Passes(s, e.me) { AppendKeeps(c, s, e.me, e.keyId); } else { AdvanceKeeps(c, s, e.me, e.keyId); }
    } else if e.LoadKey? && e.me in s.procs {
      LoadKeeps(c, s, e.me, e.keyId);
    } else if e.CrashInAppend? && CanIssue(s, e.me, e.keyId) && Passes(s, e.me) {
      IssuerIsThere(s, e.me, e.keyId);
      WholeCrashKeeps(c, s, e.me, e.keyId, e.cut);
    } else {
      QuietKeeps(c, s, e);
    }
  }

  lemma IssuerIsThere(s: System, me: HolderId, k: KeyId)
    requires CanIssue(s, me, k)
    ensures me in s.procs
  {}

  lemma QuietKeeps(c: Server, s: System, e: Step)
    requires Inv(c, s) && (e.LoadKey? ==> e.me !in s.procs) && (e.Issue? ==> !CanIssue(s, e.me, e.keyId))
    requires e.CrashInAppend? ==> !CanIssue(s, e.me, e.keyId) || !Passes(s, e.me)
    ensures Inv(c, Next(c, s, e))
  {
    hide Builds, IssueStep, TornStep, ShortStep, LoadStep, LoadFile, ChainState;
    var s' := Next(c, s, e);
    assert s'.logs == s.logs;
    SameLogs(c, s, s');
    hide Reload;
    forall k' ensures LogIsChain(c, s', k') { assert LogIsChain(c, s, k'); }
  }

  lemma {:induction false} RunFromInv(c: Server, s: System, steps: seq<Step>)
    requires Inv(c, s) && Clean(c, steps)
    ensures Inv(c, RunFrom(c, s, steps))
  {
    if steps != [] {
      RunFromInv(c, s, steps[..|steps| - 1]);
      NextKeeps(c, RunFrom(c, s, steps[..|steps| - 1]), steps[|steps| - 1]);
    }
  }

  lemma RunInv(c: Server, steps: seq<Step>)
    requires Clean(c, steps)
    ensures Inv(c, Run(c, steps))
  {
    assert forall k :: LogIsChain(c, Start, k);
    RunFromInv(c, Start, steps);
  }

  /**
   Over every clean run of boots, steals, loads, issues, renewals, releases, crashes and lease damage, each log verifies
   from its seed, and the process that may append holds in memory exactly what that log reloads to.
   */
  lemma LogFollowsHolder(c: Server, steps: seq<Step>, me: HolderId, k: KeyId)
    requires Clean(c, steps)
    ensures var s := Run(c, steps);
      && LogIsChain(c, s, k)
      && (Passes(s, me) && k in s.procs[me].chains ==>
            var p := s.procs[me].chains[k]; Reload(c, s, k) == Loaded(p.counter, p.state, p.counter))
  {
    RunInv(c, steps);
    hide Run, LoadFile;
    assert LogIsChain(c, Run(c, steps), k);
  }

  // ---------- exactly which steps are safe ----------

  /** A boot at this moment would load every key. */
  ghost predicate AllLoad(c: Server, s: System) {
    forall k :: Reload(c, s, k).Loaded?
  }

  lemma InvLoads(c: Server, s: System)
    requires Inv(c, s)
    ensures AllLoad(c, s)
  {
    hide LoadFile;
    forall k ensures Reload(c, s, k).Loaded? {
      assert LogIsChain(c, s, k);
    }
  }

  /** The holder after an advance without an append: still the holder, and one ahead of its log. */
  lemma OneAhead(c: Server, s: System, me: HolderId, k: KeyId)
    requires Inv(c, s) && CanIssue(s, me, k) && Passes(s, me) && s.procs[me].chains[k].counter + 2 < U64
    ensures var s', n := IssueStep(c, s, me, k, false), Length(c, s, k);
      && Passes(s', me) && CanIssue(s', me, k) && LogOf(s', k) == LogOf(s, k)
      && NextRow(c, s', me, k) == Row(n + 2, ChainState(c.sha, c.seeds(k), n + 2))
  {
    HolderFacts(c, s, me, k);
    hide Inv, LoadFile, Length;
  }

  /** A holder whose chain is one ahead of its log. */
  ghost predicate Ahead(c: Server, s: System, me: HolderId, k: KeyId, n: nat) {
    && Passes(s, me) && CanIssue(s, me, k) && n + 2 < U64
    && Reload(c, s, k) == Loaded(n, ChainState(c.sha, c.seeds(k), n), n)
    && NextRow(c, s, me, k) == Row(n + 2, ChainState(c.sha, c.seeds(k), n + 2))
  }

  lemma AdvancedAhead(c: Server, s: System, me: HolderId, k: KeyId)
    requires Inv(c, s) && CanIssue(s, me, k) && Passes(s, me) && s.procs[me].chains[k].counter + 2 < U64
    ensures Ahead(c, IssueStep(c, s, me, k, false), me, k, Length(c, s, k))
  {
    HolderFacts(c, s, me, k);
    OneAhead(c, s, me, k);
    hide Inv, LoadFile, Length, ChainState, NextRow, CanIssue, Passes;
  }

  /** A good issue of the holder appends whatever its chain says. */
  lemma AppendsWhenClean(c: Server, s: System, me: HolderId, k: KeyId, good: Request)
    requires Passes(s, me) && CanIssue(s, me, k) && Sound(good, c.room)
    ensures Next(c, s, Issue(me, k, good, true, RECORD_BYTES)) == IssueStep(c, s, me, k, true)
    ensures LogOf(IssueStep(c, s, me, k, true), k) == Some(Extended(LogOf(s, k), NextRow(c, s, me, k)))
  {
    BuildsIffSound(good, c.room);
    hide Builds, Sound, Extended;
  }

  /** One ahead, and then a good issue: a gap. */
  lemma GapFromAhead(c: Server, s: System, me: HolderId, k: KeyId, n: nat, good: Request)
    requires Ahead(c, s, me, k, n) && Sound(good, c.room)
    ensures Reload(c, Next(c, s, Issue(me, k, good, true, RECORD_BYTES)), k) == NonMonotonic(n)
  {
    AppendsWhenClean(c, s, me, k, good);
    hide LoadFile, Sound, ChainState, Extended, NextRow, CanIssue, Passes, IssueStep, Next;
    ExtendedLoads(c.sha, c.seeds(k), LogOf(s, k), n, n + 2);
  }

  /** The holder advances without appending, and its next good issue appends a gap. */
  lemma GapAfterAdvance(c: Server, s: System, me: HolderId, k: KeyId, good: Request)
    requires Inv(c, s) && CanIssue(s, me, k) && Passes(s, me) && s.procs[me].chains[k].counter + 2 < U64
    requires Sound(good, c.room)
    ensures Reload(c, Next(c, IssueStep(c, s, me, k, false), Issue(me, k, good, true, RECORD_BYTES)), k) == NonMonotonic(Length(c, s, k))
  {
    AdvancedAhead(c, s, me, k);
    hide Inv, Ahead, Sound, Next, IssueStep, LoadFile, Length;
    GapFromAhead(c, IssueStep(c, s, me, k, false), me, k, Length(c, s, k), good);
  }

  /** What an append that fails leaves: nothing but an advance, or a torn log. */
  lemma ShortLoads(c: Server, s: System, me: HolderId, k: KeyId, written: nat)
    requires Inv(c, s) && CanIssue(s, me, k) && Passes(s, me) && written < RECORD_BYTES
    ensures var s', n := ShortStep(c, s, me, k, written), Length(c, s, k);
      && (Reload(c, s', k) == if written == 0 then Loaded(n, ChainState(c.sha, c.seeds(k), n), n) else Corrupt)
      && LogOf(s', k).Some? && |LogOf(s', k).value| % RECORD_BYTES == written
  {
    HolderFacts(c, s, me, k);
    var n := Length(c, s, k);
    TornLoads(c.sha, c.seeds(k), LogOf(s, k), n, written);
    GoodBytes(c.sha, c.seeds(k), LogOf(s, k), n);
    CutQuotient(n, written);
    hide Inv, LoadFile, ChainState, EncodeRow, NextRow, Length, Stored, LogBytes;
  }

  lemma ShortAhead(c: Server, s: System, me: HolderId, k: KeyId, written: nat)
    requires Inv(c, s) && CanIssue(s, me, k) && Passes(s, me) && s.procs[me].chains[k].counter + 2 < U64
    requires written < RECORD_BYTES
    ensures var s', n := ShortStep(c, s, me, k, written), Length(c, s, k);
      && Passes(s', me) && CanIssue(s', me, k) && NextRow(c, s', me, k) == Row(n + 2, ChainState(c.sha, c.seeds(k), n + 2))
      && n + 2 < U64
  {
    OneAhead(c, s, me, k);
    HolderFacts(c, s, me, k);
    hide Inv, LoadFile, Length, Stored, EncodeRow, ChainState;
  }

  lemma UnevenIsCorrupt(c: Server, s: System, k: KeyId)
    requires LogOf(s, k).Some? && |LogOf(s, k).value| % RECORD_BYTES != 0
    ensures Reload(c, s, k) == Corrupt
  {}

  lemma StillUneven(file: ByteString, row: Row)
    requires 0 <= row.counter < U64 && |row.state| == 32
    ensures |Extended(Some(file), row)| % RECORD_BYTES == |file| % RECORD_BYTES
  {}

  /** The verdict on the log after an append that put `written` bytes into it while the process lived on, and a good issue. */
  lemma FailedAppendThenIssue(c: Server, s: System, me: HolderId, k: KeyId, good: Request, written: nat)
    requires Inv(c, s) && CanIssue(s, me, k) && Passes(s, me) && s.procs[me].chains[k].counter + 2 < U64
    requires Sound(good, c.room)
    ensures var n, t := Length(c, s, k), Next(c, s, Issue(me, k, good, true, written));
      Reload(c, Next(c, t, Issue(me, k, good, true, RECORD_BYTES)), k)
      == if written == 0 then NonMonotonic(n)
         else if written < RECORD_BYTES then Corrupt
         else Loaded(n + 2, ChainState(c.sha, c.seeds(k), n + 2), n + 2)
  {
    BuildsIffSound(good, c.room);
    if written < RECORD_BYTES {
      FailedAppend(c, s, me, k, good, written);
    } else {
      assert Next(c, s, Issue(me, k, good, true, written)) == IssueStep(c, s, me, k, true) by { hide IssueStep, Builds, Inv; }
      TwoAppends(c, s, me, k, good);
    }
  }

  lemma FailedAppend(c: Server, s: System, me: HolderId, k: KeyId, good: Request, written: nat)
    requires Inv(c, s) && CanIssue(s, me, k) && Passes(s, me) && s.procs[me].chains[k].counter + 2 < U64
    requires Sound(good, c.room) && Builds(good, c.room) && written < RECORD_BYTES
    ensures var n, t := Length(c, s, k), Next(c, s, Issue(me, k, good, true, written));
      && t == ShortStep(c, s, me, k, written)
      && Reload(c, Next(c, t, Issue(me, k, good, true, RECORD_BYTES)), k) == if written == 0 then NonMonotonic(n) else Corrupt
  {
    var t, n := ShortStep(c, s, me, k, written), Length(c, s, k);
    assert Next(c, s, Issue(me, k, good, true, written)) == t by { hide ShortStep, Builds, Inv; }
    ShortLoads(c, s, me, k, written);
    ShortAhead(c, s, me, k, written);
    hide Inv, ShortStep, Builds, Sound, Length, Passes, CanIssue, LoadFile, ChainState, NextRow;
    if written == 0 {
      GapFromAhead(c, t, me, k, n, good);
    } else {
      AppendsWhenClean(c, t, me, k, good);
      StillUneven(LogOf(t, k).value, NextRow(c, t, me, k));
      hide Next, IssueStep, Extended;
      UnevenIsCorrupt(c, IssueStep(c, t, me, k, true), k);
    }
  }

  lemma TwoAppends(c: Server, s: System, me: HolderId, k: KeyId, good: Request)
    requires Inv(c, s) && CanIssue(s, me, k) && Passes(s, me) && s.procs[me].chains[k].counter + 2 < U64
    requires Sound(good, c.room)
    ensures var n := Length(c, s, k);
      Reload(c, Next(c, IssueStep(c, s, me, k, true), Issue(me, k, good, true, RECORD_BYTES)), k)
      == Loaded(n + 2, ChainState(c.sha, c.seeds(k), n + 2), n + 2)
  {
    var s1, n := IssueStep(c, s, me, k, true), Length(c, s, k);
    HolderFacts(c, s, me, k);
    AppendKeeps(c, s, me, k);
    IssueAppendsNextLink(c, s, me, k, true);
    assert Passes(s1, me) && CanIssue(s1, me, k) by { hide Inv, LoadFile, Extended; }
    assert Length(c, s1, k) == n + 1;
    AppendsWhenClean(c, s1, me, k, good);
    hide Inv, LoadFile, Extended, Next, IssueStep, Sound, ChainState;
    IssueAppendsNextLink(c, s1, me, k, true);
  }

  /**
   An issue in any good state: every clean continuation keeps every log loadable if and only if the request is sound, the
   lease could be read and the whole record was written, or the process could not have appended anyway.
   */
  lemma IssueSafeIff(c: Server, s: System, me: HolderId, k: KeyId, r: Request, readable: bool, written: nat)
    requires Inv(c, s) && CanIssue(s, me, k) && s.procs[me].chains[k].counter + 2 < U64
    ensures (forall more | Clean(c, more) :: AllLoad(c, RunFrom(c, Next(c, s, Issue(me, k, r, readable, written)), more)))
       <==> (Sound(r, c.room) && readable && written >= RECORD_BYTES) || !Passes(s, me)
  {
    var s' := Next(c, s, Issue(me, k, r, readable, written));
    if (Sound(r, c.room) && readable && written >= RECORD_BYTES) || !Passes(s, me) {
      SafeIssueKeeps(c, s, me, k, r, readable, written);
      hide Inv, Next, Clean;
      forall more | Clean(c, more) ensures AllLoad(c, RunFrom(c, s', more)) {
        RunFromInv(c, s', more);
        InvLoads(c, RunFrom(c, s', more));
      }
    } else {
      var more := UnsafeIssueBreaks(c, s, me, k, r, readable, written);
    }
  }

  lemma SafeIssueKeeps(c: Server, s: System, me: HolderId, k: KeyId, r: Request, readable: bool, written: nat)
    requires Inv(c, s) && CanIssue(s, me, k)
    requires (Sound(r, c.room) && readable && written >= RECORD_BYTES) || !Passes(s, me)
    ensures Inv(c, Next(c, s, Issue(me, k, r, readable, written)))
  {
    hide Inv, Builds, Sound;
    if Passes(s, me) {
      NextKeeps(c, s, Issue(me, k, r, readable, written));
    } else {
      AdvanceKeeps(c, s, me, k);
    }
  }

  lemma UnsafeIssueBreaks(c: Server, s: System, me: HolderId, k: KeyId, r: Request, readable: bool, written: nat)
    returns (more: seq<Step>)
    requires Inv(c, s) && CanIssue(s, me, k) && s.procs[me].chains[k].counter + 2 < U64 && Passes(s, me)
    requires !(Sound(r, c.room) && readable && written >= RECORD_BYTES)
    ensures Clean(c, more) && !AllLoad(c, RunFrom(c, Next(c, s, Issue(me, k, r, readable, written)), more))
  {
    var s', good := Next(c, s, Issue(me, k, r, readable, written)), OrdinaryRequest();
    WhichAreSound(c.room);
    BuildsIffSound(r, c.room);
    var again := Issue(me, k, good, true, RECORD_BYTES);
    more := [again];
    assert Clean(c, more) by { hide Sound; }
    hide Builds, Sound, Clean;
    OneStep(c, s', again);
    if Builds(r, c.room) && readable {
      FailedAppend(c, s, me, k, r, written);
      hide Inv, Next, RunFrom, LoadFile, ShortStep;
      FailedAppendStays(c, s, me, k, good, written);
    } else {
      assert s' == IssueStep(c, s, me, k, false) by { hide Inv, IssueStep; }
      hide Inv, Next, RunFrom, LoadFile, IssueStep;
      GapAfterAdvance(c, s, me, k, good);
    }
  }

  /** The request of the failed append does not matter to what the next one finds. */
  lemma FailedAppendStays(c: Server, s: System, me: HolderId, k: KeyId, good: Request, written: nat)
    requires Inv(c, s) && CanIssue(s, me, k) && s.procs[me].chains[k].counter + 2 < U64 && Passes(s, me)
    requires Sound(good, c.room) && written < RECORD_BYTES
    ensures !Reload(c, Next(c, ShortStep(c, s, me, k, written), Issue(me, k, good, true, RECORD_BYTES)), k).Loaded?
  {
    BuildsIffSound(good, c.room);
    hide Inv, Next, LoadFile, ShortStep, Builds, Sound;
    FailedAppend(c, s, me, k, good, written);
  }

  lemma OneStep(c: Server, s: System, e: Step)
    ensures RunFrom(c, s, [e]) == Next(c, s, e)
  {
    RunFromSnoc(c, s, [], e);
    assert [] + [e] == [e];
  }

  /** Every unread check of the holder breaks the log at the next good issue. */
  lemma UnreadLeaseBreaksLogIff(c: Server, s: System, me: HolderId, k: KeyId, good: Request)
    requires Inv(c, s) && me in s.procs && (k in s.procs[me].chains ==> s.procs[me].chains[k].counter + 2 < U64)
    requires Sound(good, c.room)
    ensures Reload(c, Next(c, Next(c, s, Issue(me, k, good, false, RECORD_BYTES)), Issue(me, k, good, true, RECORD_BYTES)), k)
         == if Passes(s, me) && k in s.procs[me].chains then NonMonotonic(Length(c, s, k)) else Reload(c, s, k)
  {
    hide Inv, LoadFile, Builds, Sound, Advanced, Extended, NextRow, Length;
    if Passes(s, me) && k in s.procs[me].chains {
      GapAfterAdvance(c, s, me, k, good);
    }
  }

  /** A crash in the append: the log loads if and only if none or all of the record was written, and is corrupt otherwise. */
  lemma TornAppendLoadsIff(c: Server, s: System, me: HolderId, k: KeyId, cut: nat)
    requires Inv(c, s) && CanIssue(s, me, k) && Passes(s, me)
    ensures var r := Reload(c, Next(c, s, CrashInAppend(me, k, cut)), k);
      && (r.Loaded? <==> cut == 0 || cut >= RECORD_BYTES)
      && (!r.Loaded? ==> r == Corrupt)
  {
    HolderFacts(c, s, me, k);
    TornLoads(c.sha, c.seeds(k), LogOf(s, k), Length(c, s, k), if cut < RECORD_BYTES then cut else RECORD_BYTES);
    hide Inv, LoadFile, ChainState, EncodeRow, NextRow, Length, Stored;
  }

  /** One boot, one key, a request that is not sound or whose lease cannot be read, and a good one. */
  function TwoIssues(me: HolderId, k: KeyId, at: Host, bad: Request, readable: bool, good: Request): seq<Step> {
    [Boot(me, true, at), LoadKey(me, k), Issue(me, k, bad, readable, RECORD_BYTES), Issue(me, k, good, true, RECORD_BYTES)]
  }

  lemma BadIssueBreaksLog(c: Server, me: HolderId, k: KeyId, at: Host, bad: Request, readable: bool, good: Request)
    requires !(Sound(bad, c.room) && readable) && Sound(good, c.room)
    ensures Reload(c, Run(c, TwoIssues(me, k, at, bad, readable, good)), k) == NonMonotonic(0)
  {
    var steps := TwoIssues(me, k, at, bad, readable, good);
    RunFromSnoc(c, Start, steps[..2], steps[2]);
    RunFromSnoc(c, Start, steps[..3], steps[3]);
    assert steps[..3] == steps[..2] + [steps[2]] && steps == steps[..3] + [steps[3]];
    Booted(c, me, k, at);
    assert steps[..2] == [Boot(me, true, at), LoadKey(me, k)];
    var s := Run(c, steps[..2]);
    BuildsIffSound(bad, c.room);
    hide RunFrom, Inv, LoadFile, Builds, Sound;
    GapAfterAdvance(c, s, me, k, good);
    assert Next(c, s, steps[2]) == IssueStep(c, s, me, k, false);
  }

  /** Sixteen claims. */
  lemma SixteenClaimsBreakLog(c: Server, me: HolderId, k: KeyId, at: Host)
    ensures Reload(c, Run(c, TwoIssues(me, k, at, SixteenClaimsRequest(), true, OrdinaryRequest())), k) == NonMonotonic(0)
  {
    WhichAreSound(c.room);
    hide Sound, Run, LoadFile;
    BadIssueBreaksLog(c, me, k, at, SixteenClaimsRequest(), true, OrdinaryRequest());
  }

  /** No claims, and a lifetime that is an object with a member called "toString". */
  lemma OddTtlBreaksLog(c: Server, me: HolderId, k: KeyId, at: Host)
    ensures Reload(c, Run(c, TwoIssues(me, k, at, OddTtlRequest(), true, OrdinaryRequest())), k) == NonMonotonic(0)
  {
    WhichAreSound(c.room);
    hide Sound, Run, LoadFile;
    BadIssueBreaksLog(c, me, k, at, OddTtlRequest(), true, OrdinaryRequest());
  }

  lemma Booted(c: Server, me: HolderId, k: KeyId, at: Host)
    ensures var s := Run(c, [Boot(me, true, at), LoadKey(me, k)]);
      Inv(c, s) && CanIssue(s, me, k) && Passes(s, me) && Length(c, s, k) == 0 == s.procs[me].chains[k].counter
  {
    var steps := [Boot(me, true, at), LoadKey(me, k)];
    RunInv(c, steps);
    assert steps == [steps[0]] + [steps[1]] && [steps[0]] == [] + [steps[0]];
    RunFromSnoc(c, Start, [], steps[0]);
    RunFromSnoc(c, Start, [steps[0]], steps[1]);
    hide Inv;
  }

  // ---------- the fence number ----------

  /** A lease in the file carries the last fence handed out, unless its number was damaged. */
  ghost predicate FenceOk(s: System) {
    && s.lastFence >= 0
    && (s.lease.Held? && s.lease.lease.fence.Some? ==> s.lease.lease.fence.value == s.lastFence > 0)
  }

  lemma FenceKeeps(c: Server, s: System, e: Step)
    requires FenceOk(s)
    ensures FenceOk(Next(c, s, e))
  {
    hide Builds, LoadFile, Advanced, EncodeRow, Extended;
  }

  lemma {:induction false} RunFence(c: Server, steps: seq<Step>)
    ensures FenceOk(Run(c, steps))
  {
    if steps != [] {
      RunFence(c, steps[..|steps| - 1]);
      FenceKeeps(c, Run(c, steps[..|steps| - 1]), steps[|steps| - 1]);
    }
  }

  /** What the next boot would be handed, if it is handed anything. */
  predicate HandsOut(s: System, me: HolderId, allowSteal: bool, at: Host, fence: int) {
    me !in s.used && Acquire(s.lease, me, allowSteal, at).Acquired? && Acquire(s.lease, me, allowSteal, at).fence == fence
  }

  /**
   Over every run, the fence of the next successful boot is larger than the last one handed out if and only if the lease
   file still holds a readable fence, or none was ever handed out.
   */
  lemma FenceGrowsIff(c: Server, steps: seq<Step>, me: HolderId, allowSteal: bool, at: Host, fence: int)
    requires HandsOut(Run(c, steps), me, allowSteal, at, fence)
    ensures var s := Run(c, steps);
      && Run(c, steps + [Boot(me, allowSteal, at)]).lastFence == fence
      && (fence > s.lastFence <==> s.lastFence == 0 || (s.lease.Held? && s.lease.lease.fence.Some?))
  {
    RunFence(c, steps);
    RunFromSnoc(c, Start, steps, Boot(me, allowSteal, at));
  }

  /** The lease file is never deleted or damaged. */
  predicate LeaseStays(steps: seq<Step>) {
    forall i :: 0 <= i < |steps| ==> !steps[i].Release? && !steps[i].Garble? && !steps[i].Vanish? && !steps[i].GarbleFence?
  }

  ghost predicate FencesDistinct(s: System) {
    && (s.procs != map[] ==> s.lease.Held?)
    && (s.lease.Held? ==> s.lease.lease.fence == Some(s.lastFence))
    && (forall p :: p in s.procs ==> s.procs[p].fence <= s.lastFence)
    && (forall p, q :: p in s.procs && q in s.procs && p != q ==> s.procs[p].fence != s.procs[q].fence)
  }

  /** A step other than a boot hands out no fence and keeps those there are. */
  lemma NoNewFence(c: Server, s: System, e: Step)
    requires !e.Boot?
    ensures var s' := Next(c, s, e);
      && s'.lastFence == s.lastFence && s'.procs.Keys <= s.procs.Keys
      && forall p :: p in s'.procs ==> s'.procs[p].fence == s.procs[p].fence
  {
    hide Builds, LoadFile, Advanced, EncodeRow, Extended;
  }

  lemma StayingLease(c: Server, s: System, e: Step)
    requires !e.Boot? && !e.Release? && !e.Garble? && !e.Vanish? && !e.GarbleFence?
    ensures var s' := Next(c, s, e);
      s'.lease == s.lease || (s.lease.Held? && s'.lease.Held? && s'.lease.lease.fence == s.lease.lease.fence)
  {
    hide Builds, LoadFile, Advanced, EncodeRow, Extended;
  }

  lemma DistinctKeeps(c: Server, s: System, e: Step)
    requires FencesDistinct(s) && (s.lease == Absent ==> s.lastFence == 0) && s.lease != Unreadable
    requires !e.Release? && !e.Garble? && !e.Vanish? && !e.GarbleFence?
    ensures FencesDistinct(Next(c, s, e)) && (Next(c, s, e).lease == Absent ==> Next(c, s, e).lastFence == 0)
    ensures Next(c, s, e).lease != Unreadable
  {
    if !e.Boot? {
      NoNewFence(c, s, e);
      StayingLease(c, s, e);
      hide Next;
    }
  }

  /** While the lease file stays, no two processes share a fence. */
  lemma {:induction false} FencesDistinctWhileLeaseStays(c: Server, steps: seq<Step>)
    requires LeaseStays(steps)
    ensures FencesDistinct(Run(c, steps))
    ensures Run(c, steps).lease != Unreadable && (Run(c, steps).lease == Absent ==> Run(c, steps).lastFence == 0)
  {
    if steps != [] {
      assert LeaseStays(steps[..|steps| - 1]);
      FencesDistinctWhileLeaseStays(c, steps[..|steps| - 1]);
      DistinctKeeps(c, Run(c, steps[..|steps| - 1]), steps[|steps| - 1]);
    }
  }

  /** A host with the server's own lease time of 30 seconds. */
  function HostAt(now: int, pid: int): Host {
    Host(now, "host", pid, {pid}, 30000)
  }

  /**
   With the server's lease time: a process that stalls past its lease, is stolen from, and comes back after the thief has
   released and a third has booted meets its own fence number in the file. Only the holder id keeps it out.
   */
  lemma FenceRestarts(c: Server, a: HolderId, b: HolderId, d: HolderId)
    requires a != b && b != d && a != d
    ensures var s := Run(c, [Boot(a, true, HostAt(0, 1)), Boot(b, true, HostAt(40000, 2)), Release(b), Boot(d, true, HostAt(50000, 3))]);
      && a in s.procs && d in s.procs && s.lease.Held? && Some(s.procs[a].fence) == Some(s.procs[d].fence) == s.lease.lease.fence
      && !s.procs[a].released && !Passes(s, a) && Passes(s, d)
  {
    var steps := [Boot(a, true, HostAt(0, 1)), Boot(b, true, HostAt(40000, 2)), Release(b), Boot(d, true, HostAt(50000, 3))];
    assert steps[..1] == [] + [steps[0]] && steps[..2] == steps[..1] + [steps[1]];
    assert steps[..3] == steps[..2] + [steps[2]] && steps == steps[..3] + [steps[3]];
    RunFromSnoc(c, Start, [], steps[0]);
    RunFromSnoc(c, Start, steps[..1], steps[1]);
    RunFromSnoc(c, Start, steps[..2], steps[2]);
    RunFromSnoc(c, Start, steps[..3], steps[3]);
  }
}
