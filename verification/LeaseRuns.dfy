/** Who gets the writer lease and who keeps it: admission over the fields of the lease file, and runs in which it is kept. */
module LeaseRuns {
  import opened Bytes
  import opened ChainLog
  import opened FencedWriter
  import opened IssueRequest
  import opened Ratchet
  import opened Wrappers
  import opened WriterLock

  // ---------- who is admitted ----------

  /**
   A boot that may steal is handed a fence if and only if the file is missing or not readable, or its lease has no date or
   is past it, names another host, or names a process that is not alive. One that may not steal needs the file to be
   missing or not readable. Either way the fence is one more than the file's, or 1, and a refused boot changes nothing.
   */
  lemma BootAdmittedIff(c: Server, s: System, me: HolderId, allowSteal: bool, at: Host)
    requires me !in s.used && me !in s.procs
    ensures var s' := Next(c, s, Boot(me, allowSteal, at));
      var l := s.lease;
      && (me in s'.procs <==>
            || !l.Held?
            || (allowSteal
                && (l.lease.expiresAt == None || l.lease.expiresAt.value <= at.now || l.lease.hostname != at.hostname
                    || l.lease.pid <= 0 || l.lease.pid !in at.alivePids)))
      && (me in s'.procs <==> Passes(s', me))
      && (if me in s'.procs
          then var fence := if l.Held? && l.lease.fence.Some? then l.lease.fence.value + 1 else 1;
            Leased(s'.lease, me, fence, at) && s'.procs == s.procs[me := Process(fence, false, map[])] && s'.lastFence == fence
          else s'.lease == s.lease && s'.procs == s.procs && s'.lastFence == s.lastFence)
      && s'.logs == s.logs && s'.used == s.used + {me}
  {
  }

  /**
   From a boot or a renewal at one moment on, every other boot that may steal is refused until the lifetime is over, as long
   as it comes from the same host and finds the holder alive, and is admitted otherwise.
   */
  lemma NextBootAdmittedIff(c: Server, s: System, e: Step, at: Host, other: HolderId, at': Host)
    requires (e.Boot? && e.at == at && e.me !in s.used && e.me in Next(c, s, e).procs)
          || (e.RenewLease? && e.at == at && Passes(s, e.me))
    requires e.me !in s.procs || e.RenewLease?
    requires var s' := Next(c, s, e); other !in s'.used && other !in s'.procs
    ensures other in Next(c, Next(c, s, e), Boot(other, true, at')).procs
       <==> at.now + at.ttlMs <= at'.now || at'.hostname != at.hostname || at.pid <= 0 || at.pid !in at'.alivePids
  {
    var s' := Next(c, s, e);
    BootAdmittedIff(c, s', other, true, at');
    if e.Boot? {
      BootAdmittedIff(c, s, e.me, e.allowSteal, at);
    }
  }

  // ---------- who keeps it ----------

  /** When the lease of `me` runs out after these steps, if it ran out at `first` before them. */
  function ExpiryAfter(first: int, me: HolderId, steps: seq<Step>): int {
    if steps == [] then first
    else match steps[|steps| - 1]
      case RenewLease(m, at) => if m == me then at.now + at.ttlMs else ExpiryAfter(first, me, steps[..|steps| - 1])
      case _ => ExpiryAfter(first, me, steps[..|steps| - 1])
  }

  /**
   Nothing from outside damages the file; `me` does not release and renews from where it runs; every boot is on its host,
   before the lease runs out, and sees its pid alive. Other processes may do whatever they like.
   */
  predicate HealthyStep(expiry: int, me: HolderId, host: string, pid: int, e: Step) {
    match e
    case Boot(_, _, at) => at.hostname == host && pid in at.alivePids && at.now < expiry
    case RenewLease(m, at) => m == me ==> at.hostname == host && at.pid == pid
    case Release(m) => m != me
    case Garble => false
    case Vanish => false
    case GarbleFence => false
    case _ => true
  }

  predicate HealthyRun(first: int, me: HolderId, host: string, pid: int, steps: seq<Step>) {
    forall i :: 0 <= i < |steps| ==> HealthyStep(ExpiryAfter(first, me, steps[..i]), me, host, pid, steps[i])
  }

  /** The lease of `me`, which it holds from this host and pid until `expiry`. */
  predicate Holds(s: System, me: HolderId, fence: int, host: string, pid: int, expiry: int) {
    && Passes(s, me) && s.procs[me].fence == fence && s.procs.Keys <= s.used
    && s.lease.lease.hostname == host && s.lease.lease.pid == pid && s.lease.lease.expiresAt == Some(expiry)
  }

  lemma HolderStaysStep(c: Server, s: System, e: Step, me: HolderId, fence: int, host: string, pid: int, expiry: int)
    requires Holds(s, me, fence, host, pid, expiry) && pid > 0 && HealthyStep(expiry, me, host, pid, e)
    requires me in Next(c, s, e).procs
    ensures Holds(Next(c, s, e), me, fence, host, pid, ExpiryAfter(expiry, me, [e]))
    ensures Next(c, s, e).procs.Keys <= s.procs.Keys
  {
    hide LoadFile, Advanced, Builds, EncodeRow, Extended;
    assert [e][..0] == [];
  }

  lemma ExpirySnoc(first: int, me: HolderId, steps: seq<Step>, e: Step)
    ensures ExpiryAfter(first, me, steps + [e]) == ExpiryAfter(ExpiryAfter(first, me, steps), me, [e])
  {
    assert (steps + [e])[..|steps + [e]| - 1] == steps && [e][..0] == [];
  }

  lemma GoneStaysGone(c: Server, s: System, e: Step, me: HolderId)
    requires me in s.used && me !in s.procs
    ensures me in Next(c, s, e).used && me !in Next(c, s, e).procs
  {
    hide LoadFile, Advanced, Builds, EncodeRow, Extended;
  }

  lemma UsedStays(c: Server, s: System, steps: seq<Step>, me: HolderId)
    requires me in s.used
    ensures me in RunFrom(c, s, steps).used
  {
    if steps != [] {
      UsedStays(c, s, steps[..|steps| - 1], me);
      StepUses(c, RunFrom(c, s, steps[..|steps| - 1]), steps[|steps| - 1]);
    }
  }

  lemma StepUses(c: Server, s: System, e: Step)
    ensures s.used <= Next(c, s, e).used
  {
    hide LoadFile, Advanced, Builds, EncodeRow, Extended;
  }

  /**
   While a process lives on its host and its lease, renewed or not, has not run out, no boot on that host is handed a fence,
   the file keeps naming this process with its fence, and no other process passes the check, whatever the others do.
   */
  lemma {:induction false} HealthyHolderStays(
      c: Server, s: System, steps: seq<Step>, me: HolderId, fence: int, host: string, pid: int, expiry: int)
    requires Holds(s, me, fence, host, pid, expiry) && pid > 0
    requires HealthyRun(expiry, me, host, pid, steps) && me in RunFrom(c, s, steps).procs
    ensures var s' := RunFrom(c, s, steps);
      && Holds(s', me, fence, host, pid, ExpiryAfter(expiry, me, steps))
      && s'.procs.Keys <= s.procs.Keys
      && forall q :: Passes(s', q) <==> q == me
  {
    hide Next;
    if steps != [] {
      var init, e := steps[..|steps| - 1], steps[|steps| - 1];
      var t := RunFrom(c, s, init);
      if me !in t.procs {
        UsedStays(c, s, init, me);
        GoneStaysGone(c, t, e, me);
      }
      assert HealthyRun(expiry, me, host, pid, init) by {
        forall i | 0 <= i < |init| ensures HealthyStep(ExpiryAfter(expiry, me, init[..i]), me, host, pid, init[i]) {
          assert init[..i] == steps[..i];
        }
      }
      HealthyHolderStays(c, s, init, me, fence, host, pid, expiry);
      HolderStaysStep(c, t, e, me, fence, host, pid, ExpiryAfter(expiry, me, init));
      ExpirySnoc(expiry, me, init, e);
      assert steps == init + [e];
    }
  }

  // ---------- how it ends ----------

  /** Releasing, dying, and damage to the file end the checks of a process for good. */
  lemma EndsForGood(c: Server, s: System, me: HolderId, e: Step, more: seq<Step>)
    requires me in s.used
    requires e == Release(me) || e == Crash(me) || (e.CrashInAppend? && e.me == me) || e.Garble? || e.Vanish? || e.GarbleFence?
    ensures !Passes(RunFrom(c, Next(c, s, e), more), me)
  {
    hide EncodeRow, Advanced;
    LossIsFinalFrom(c, Next(c, s, e), more, me);
  }

  /** The holder's release leaves the lease to any boot, with the count starting over; its death leaves the lease as it is. */
  lemma ReleaseFreesCrashDoesNot(c: Server, s: System, me: HolderId, other: HolderId, allowSteal: bool, at: Host)
    requires Passes(s, me) && other !in s.used && other !in s.procs
    ensures var s' := Next(c, Next(c, s, Release(me)), Boot(other, allowSteal, at));
      Passes(s', other) && s'.procs[other].fence == 1
    ensures var s' := Next(c, Next(c, s, Crash(me)), Boot(other, allowSteal, at));
      Passes(s', other) <==> allowSteal && !HolderAlive(s.lease, at)
  {
    BootAdmittedIff(c, Next(c, s, Crash(me)), other, allowSteal, at);
  }

  /** A boot takes up a key if and only if its log verifies, at the end of the log; otherwise the process is over. */
  lemma LoadTakesUpIff(c: Server, s: System, me: HolderId, k: KeyId)
    requires me in s.procs && k !in s.procs[me].chains
    ensures var s', r := Next(c, s, LoadKey(me, k)), Reload(c, s, k);
      && (me in s'.procs <==> r.Loaded?)
      && (r.Loaded? ==> s'.procs[me].chains == s.procs[me].chains[k := Position(r.counter, r.state)])
      && s'.logs == s.logs && s'.lease == s.lease
  {
    hide LoadFile;
  }

  function IssuesOf(steps: seq<Step>, me: HolderId, k: KeyId): nat {
    if steps == [] then 0
    else var e := steps[|steps| - 1];
      IssuesOf(steps[..|steps| - 1], me, k) + (if e.Issue? && e.me == me && e.keyId == k then 1 else 0)
  }

  lemma OneStepMemory(c: Server, s: System, me: HolderId, k: KeyId, e: Step)
    requires me in s.used && me in s.procs && k in s.procs[me].chains && s.procs[me].chains[k].counter + 1 < U64
    requires me in Next(c, s, e).procs
    ensures var s' := Next(c, s, e);
      && k in s'.procs[me].chains
      && s'.procs[me].chains[k].counter == s.procs[me].chains[k].counter + (if e.Issue? && e.me == me && e.keyId == k then 1 else 0)
  {
    hide LoadFile, DeriveNext, Builds, EncodeRow, Extended;
  }

  /** As long as a process lives its own chain moves by exactly its own issues of the key, whatever becomes of them. */
  lemma {:induction false} MemoryCountsIssues(c: Server, s: System, me: HolderId, k: KeyId, steps: seq<Step>)
    requires me in s.used && me in s.procs && k in s.procs[me].chains
    requires s.procs[me].chains[k].counter + |steps| < U64 && me in RunFrom(c, s, steps).procs
    ensures var s' := RunFrom(c, s, steps);
      && k in s'.procs[me].chains
      && s'.procs[me].chains[k].counter == s.procs[me].chains[k].counter + IssuesOf(steps, me, k)
    ensures IssuesOf(steps, me, k) <= |steps|
  {
    hide Next;
    if steps != [] {
      var init, e := steps[..|steps| - 1], steps[|steps| - 1];
      UsedStays(c, s, init, me);
      if me !in RunFrom(c, s, init).procs {
        GoneStaysGone(c, RunFrom(c, s, init), e, me);
      }
      MemoryCountsIssues(c, s, me, k, init);
      OneStepMemory(c, RunFrom(c, s, init), me, k, e);
    }
  }
}
