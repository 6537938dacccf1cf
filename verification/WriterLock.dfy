/** The stealable writer lease in `.writer-lock` and the fence that is checked before every append. */
module WriterLock {
  import opened Wrappers

  type HolderId(!new, ==)

  /** A lease; `expiresAt` is absent when its text is no date, `fence` when its text is no number. */
  datatype Lease = Lease(
    fence: Option<int>, holderId: HolderId, pid: int, hostname: string, expiresAt: Option<int>)

  /** The lease file: missing, not parseable, or a lease. Writes replace it in one step (see Durable). */
  datatype Content = Absent | Unreadable | Held(lease: Lease)

  /** What a process knows of its surroundings at one call. */
  datatype Host = Host(now: int, hostname: string, pid: int, alivePids: set<int>, ttlMs: int)

  datatype AcquireResult = Acquired(fence: int, content: Content) | LockHeld | LockStale

  predicate Live(cur: Lease, at: Host) {
    && cur.expiresAt.Some? && cur.expiresAt.value > at.now
    && cur.hostname == at.hostname
    && cur.pid > 0 && cur.pid in at.alivePids
  }

  function NewLease(fence: int, me: HolderId, at: Host): Content {
    Held(Lease(Some(fence), me, at.pid, at.hostname, Some(at.now + at.ttlMs)))
  }

  /** A fence that cannot be read counts as none. */
  function PriorFence(l: Lease): int {
    if l.fence.Some? then l.fence.value else 0
  }

  function Acquire(cur: Content, me: HolderId, allowSteal: bool, at: Host): AcquireResult {
    match cur
    case Held(l) =>
      if Live(l, at) then LockHeld
      else if !allowSteal then LockStale
      else Acquired(PriorFence(l) + 1, NewLease(PriorFence(l) + 1, me, at))
    case _ => Acquired(1, NewLease(1, me, at))
  }

  /** The lease file still names this holder and this fence. */
  predicate Owns(cur: Content, me: HolderId, fence: int) {
    cur.Held? && cur.lease.fence == Some(fence) && cur.lease.holderId == me
  }

  /** The file carries a date that is still ahead, the booting host's own name, and the pid of a process alive there. */
  predicate HolderAlive(cur: Content, at: Host) {
    match cur
    case Held(Lease(_, _, pid, hostname, Some(expiry))) =>
      at.now < expiry && hostname == at.hostname && 0 < pid && pid in at.alivePids
    case _ => false
  }

  /** The lease that a boot or a renewal leaves in the file. */
  predicate Leased(cur: Content, me: HolderId, fence: int, at: Host) {
    && cur.Held?
    && cur.lease.holderId == me && cur.lease.fence == Some(fence)
    && cur.lease.pid == at.pid && cur.lease.hostname == at.hostname
    && cur.lease.expiresAt == Some(at.now + at.ttlMs)
  }

  /** One file shared by every process on the data directory. */
  class LeaseFile {
    var content: Content

    constructor(content: Content)
      ensures this.content == content
    {
      this.content := content;
    }
  }

  datatype LockError = Lost | AlreadyReleased | HeldByOther | Stale | NoLease | BadFence

  class Lock {
    const file: LeaseFile
    const me: HolderId
    var fence: int
    var held: bool
    var released: bool

    constructor(file: LeaseFile, me: HolderId)
      ensures this.file == file && this.me == me && !held && !released
    {
      this.file := file;
      this.me := me;
      fence := 0;
      held := false;
      released := false;
    }

    /** May this lock append right now? */
    ghost predicate Passes()
      reads this, file
    {
      held && !released && Owns(file.content, me, fence)
    }

    method AcquireLease(allowSteal: bool, at: Host) returns (r: Result<int, LockError>)
      requires !held && !released
      modifies this`fence, this`held, file
      ensures match Acquire(old(file.content), me, allowSteal, at)
        case Acquired(f, content) => r == Ok(f) && file.content == content && fence == f && held && Passes()
        case LockHeld => r == Err(HeldByOther) && file.content == old(file.content) && !held
        case LockStale => r == Err(Stale) && file.content == old(file.content) && !held
      ensures r.Ok? <==> !old(file.content).Held? || (allowSteal && !HolderAlive(old(file.content), at))
      ensures r.Ok? ==> Leased(file.content, me, r.value, at)
      ensures r == Err(HeldByOther) <==> HolderAlive(old(file.content), at)
    {
      var priorFence := 0;
      if file.content.Held? {
        var cur := file.content.lease;
        if Live(cur, at) {
          return Err(HeldByOther);
        }
        if !allowSteal {
          return Err(Stale);
        }
        if cur.fence.Some? { priorFence := cur.fence.value; }
      }
      fence := priorFence + 1;
      held := true;
      file.content := NewLease(fence, me, at);
      return Ok(fence);
    }

    /** Succeeds exactly when this lock may append; a fence that is no number ends the check with an error of its own. */
    method CheckFence() returns (r: Result<int, LockError>)
      requires held
      ensures r.Ok? <==> Passes()
      ensures r == if Passes() then Ok(fence)
                   else if !released && file.content.Held? && file.content.lease.fence == None then Err(BadFence) else Err(Lost)
    {
      if released {
        return Err(Lost);
      }
      var cur := file.content;
      if !cur.Held? {
        return Err(Lost);
      }
      if cur.lease.fence == None {
        return Err(BadFence);
      }
      if cur.lease.fence.value != fence || cur.lease.holderId != me {
        return Err(Lost);
      }
      return Ok(fence);
    }

    /** Rewrites the lease with the same fence; a lease that is gone or someone else's is left alone. */
    method Renew(at: Host) returns (r: Result<int, LockError>)
      requires held
      modifies file
      ensures r.Ok? <==> old(Passes())
      ensures r == if released then Err(AlreadyReleased) else if !old(file.content).Held? then Err(NoLease)
                   else if old(file.content).lease.fence == None then Err(BadFence)
                   else if old(Passes()) then Ok(fence) else Err(Lost)
      ensures file.content == if old(Passes()) then NewLease(fence, me, at) else old(file.content)
      ensures Passes() == old(Passes())
    {
      if released {
        return Err(AlreadyReleased);
      }
      var cur := file.content;
      if !cur.Held? {
        return Err(NoLease);
      }
      if cur.lease.fence == None {
        return Err(BadFence);
      }
      if cur.lease.fence.value != fence || cur.lease.holderId != me {
        return Err(Lost);
      }
      file.content := NewLease(fence, me, at);
      return Ok(fence);
    }

    /** Idempotent; deletes the file only while it carries this holder's id. */
    method Release()
      modifies this`released, file
      ensures released && !Passes()
      ensures file.content ==
        if !old(released) && old(file.content).Held? && old(file.content).lease.holderId == me
        then Absent else old(file.content)
    {
      if released {
        return;
      }
      released := true;
      if file.content.Held? && file.content.lease.holderId == me {
        file.content := Absent;
      }
    }
  }
}
