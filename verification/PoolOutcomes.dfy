/** Over whole runs of the verify pool: which event settles a job and with what, where jobs run, and what is counted. */
module PoolOutcomes {
  import opened Bytes
  import Murmur
  import MurmurVectors
  import opened PoolModel
  import opened Wrappers

  // ---------- no worker is lost ----------

  ghost predicate Works(p: Pool, w: nat) {
    exists id :: id in p.pending && p.pending[id].worker == w
  }

  ghost predicate BusyWorks(p: Pool) {
    forall w: nat :: w < |p.busy| && p.busy[w] ==> Works(p, w)
  }

  /** Under affinity a slot is marked busy only for a job; otherwise only workers in `dead` are neither idle nor working. */
  ghost predicate Accounted(p: Pool, dead: set<nat>) {
    && BusyWorks(p)
    && (!p.affinity ==> forall w: nat :: w < p.workers ==> w in p.idle || Works(p, w) || w in dead)
  }

  function Failed(es: seq<Event>): set<nat> {
    set i | 0 <= i < |es| && es[i].Error? :: es[i].worker
  }

  lemma DispatchAccounted(p: Pool, w: nat, t: nat, dead: set<nat>)
    requires forall id :: id in p.pending ==> id < p.nextJobId
    requires forall v: nat :: v < |p.busy| && p.busy[v] ==> Works(p, v) || v == w
    requires !p.affinity ==> forall v: nat :: v < p.workers ==> v in p.idle || Works(p, v) || v in dead || v == w
    ensures Accounted(Dispatch(p, w, t), dead)
  {
    var q := Dispatch(p, w, t);
    assert q.pending[p.nextJobId].worker == w;
    forall v: nat | Works(p, v) ensures Works(q, v) {
      var id :| id in p.pending && p.pending[id].worker == v;
      assert id in q.pending && q.pending[id].worker == v;
    }
  }

  /** The same places for workers. */
  ghost predicate SameWorkers(p: Pool, q: Pool) {
    q.pending == p.pending && q.busy == p.busy && q.idle == p.idle && q.affinity == p.affinity && q.workers == p.workers
  }

  lemma SameAccounted(p: Pool, q: Pool, dead: set<nat>)
    requires Accounted(p, dead) && SameWorkers(p, q)
    ensures Accounted(q, dead)
  {
    assert forall w: nat :: Works(p, w) ==> Works(q, w);
  }

  lemma SubmitAccounted(p: Pool, keyId: Option<ByteString>, dead: set<nat>)
    requires Shape(p) && Accounted(p, dead)
    ensures Accounted(Submit(p, keyId), dead)
  {
    hide WorkerForKey, LaneCap, Settle, Dispatch, Accounted;
    var t, p' := p.submitted, p.(submitted := p.submitted + 1);
    if p.affinity {
      var w := WorkerForKey(keyId, p.size);
      if w < p.workers && !p.busy[w] {
        SubmitDispatch(p, p'.(busy := p.busy[w := true]), w, t, dead);
      } else {
        SubmitElse(p, keyId, dead);
      }
    } else if p.idle != [] {
      SubmitDispatch(p, p'.(idle := p.idle[..|p.idle| - 1]), p.idle[|p.idle| - 1], t, dead);
    } else {
      SubmitElse(p, keyId, dead);
    }
  }

  lemma SubmitDispatch(p: Pool, q: Pool, w: nat, t: nat, dead: set<nat>)
    requires Shape(p) && Accounted(p, dead)
    requires q.pending == p.pending && q.nextJobId == p.nextJobId && q.affinity == p.affinity && q.workers == p.workers
    requires q.busy == p.busy || (w < |p.busy| && q.busy == p.busy[w := true])
    requires q.idle == p.idle || (p.idle != [] && p.idle[|p.idle| - 1] == w && q.idle == p.idle[..|p.idle| - 1])
    ensures Accounted(Dispatch(q, w, t), dead)
  {
    assert forall v: nat :: Works(p, v) ==> Works(q, v);
    if q.idle != p.idle {
      assert p.idle == q.idle + [w];
    }
    DispatchAccounted(q, w, t, dead);
  }

  lemma SubmitElse(p: Pool, keyId: Option<ByteString>, dead: set<nat>)
    requires Shape(p) && Accounted(p, dead)
    requires if p.affinity then var w := WorkerForKey(keyId, p.size); w < p.workers ==> p.busy[w] else p.idle == []
    ensures Accounted(Submit(p, keyId), dead)
  {
    hide WorkerForKey, LaneCap;
    SameAccounted(p, Submit(p, keyId), dead);
  }

  lemma AnswerAccounted(p: Pool, jobId: nat, reply: ByteString, dead: set<nat>)
    requires Inv(p) && Accounted(p, dead)
    ensures Accounted(Answer(p, jobId, reply), dead)
  {
    if jobId in p.pending {
      var r := p.pending[jobId];
      var q := Settle(p.(pending := p.pending - {jobId}), {r.ticket}, Replied(reply));
      assert forall v: nat :: Works(p, v) && v != r.worker ==> Works(q, v) by {
        forall v: nat | Works(p, v) && v != r.worker ensures Works(q, v) {
          var id :| id in p.pending && p.pending[id].worker == v;
          assert id in q.pending && q.pending[id].worker == v;
        }
      }
      ReleaseAccounted(q, r.worker, dead);
    }
  }

  lemma ReleaseAccounted(q: Pool, w: nat, dead: set<nat>)
    requires Shape(q) && w < q.workers
    requires forall v: nat :: v < |q.busy| && q.busy[v] ==> Works(q, v) || v == w
    requires !q.affinity ==> forall v: nat :: v < q.workers ==> v in q.idle || Works(q, v) || v in dead || v == w
    ensures Accounted(Release(q, w), dead)
  {
    var l := LaneOf(q, w);
    if q.lanes[l] != [] {
      var r := q.(lanes := q.lanes[l := q.lanes[l][1..]]);
      assert forall v: nat :: Works(q, v) ==> Works(r, v);
      DispatchAccounted(r, w, q.lanes[l][0], dead);
    } else {
      assert forall v: nat :: Works(q, v) ==> Works(Release(q, w), v);
    }
  }

  lemma DieAccounted(p: Pool, w: nat, dead: set<nat>)
    requires Shape(p) && w < p.workers && Accounted(p, dead)
    ensures Accounted(Die(p, w), dead + {w})
  {
    var q := Die(p, w);
    hide TicketsOf, LaneTickets, Marked;
    forall v: nat | Works(p, v) && v != w ensures Works(q, v) {
      var id :| id in p.pending && p.pending[id].worker == v;
      assert id in q.pending && q.pending[id].worker == v;
    }
  }

  lemma NextAccounted(p: Pool, e: Event, dead: set<nat>)
    requires Inv(p) && Accounted(p, dead)
    ensures Shape(p) && Accounted(Next(p, e), if e.Error? then dead + {e.worker} else dead)
  {
    match e
    case Run(keyId) => SubmitAccounted(p, keyId, dead);
    case Reply(jobId, reply) => AnswerAccounted(p, jobId, reply, dead);
    case Error(w) => if w < p.workers { DieAccounted(p, w, dead); }
    case Stop =>
  }

  lemma {:induction false} RunAccounted(p: Pool, es: seq<Event>)
    requires Inv(p) && Accounted(p, {})
    ensures Accounted(RunFrom(p, es), Failed(es))
  {
    hide Inv, Next, Accounted;
    var last := |es| - 1;
    if es == [] {
      assert Failed(es) == {};
    } else {
      RunAccounted(p, es[..last]);
      NextAccounted(RunFrom(p, es[..last]), es[last], Failed(es[..last]));
      FailedSnoc(es);
    }
  }

  lemma FailedSnoc(es: seq<Event>)
    requires es != []
    ensures var last := |es| - 1;
      Failed(es) == if es[last].Error? then Failed(es[..last]) + {es[last].worker} else Failed(es[..last])
  {
    var last := |es| - 1;
    forall w | w in Failed(es) ensures w in Failed(es[..last]) || (es[last].Error? && w == es[last].worker) {
      var i :| 0 <= i < |es| && es[i].Error? && es[i].worker == w;
      if i < last {
        assert es[..last][i] == es[i];
      }
    }
    forall w | w in Failed(es[..last]) ensures w in Failed(es) {
      var i :| 0 <= i < last && es[..last][i].Error? && es[..last][i].worker == w;
      assert es[i] == es[..last][i];
    }
  }

  /**
   No worker is lost: under affinity a slot is marked busy exactly while a job is pending on it; in round-robin mode every
   worker is idle, or works, or has failed.
   */
  lemma NoWorkerIsLost(size: nat, queueMax: nat, affinity: bool, es: seq<Event>, w: nat)
    ensures var p := AfterRun(size, queueMax, affinity, es);
      w < p.workers ==>
        && (affinity ==> w < |p.busy| && (p.busy[w] <==> Works(p, w)))
        && (!affinity ==> w in p.idle || Works(p, w) || w in Failed(es))
  {
    var p := AfterRun(size, queueMax, affinity, es);
    FreshAccounted(size, queueMax, affinity);
    FreshInv(size, queueMax, affinity);
    RunAccounted(Fresh(size, queueMax, affinity), es);
    AfterRunMode(size, queueMax, affinity, es);
    hide RunFrom, Fresh;
    if w < |p.busy| && Works(p, w) {
      BusyIfWorking(p, w);
    }
  }

  lemma BusyIfWorking(p: Pool, w: nat)
    requires Inv(p) && w < |p.busy| && Works(p, w)
    ensures p.busy[w]
  {
  }

  lemma FreshAccounted(size: nat, queueMax: nat, affinity: bool)
    ensures Accounted(Fresh(size, queueMax, affinity), {})
  {
    var p := Fresh(size, queueMax, affinity);
    if !affinity {
      forall w: nat | w < size ensures w in p.idle {
        assert p.idle[w] == w;
      }
    }
  }

  // ---------- what settles a promise ----------

  /**
   There is no room for a job with this key id: its slot is gone; or its worker works and as many jobs wait for it as its
   share, the rounded-up part of the configured maximum and at least 1; or, without affinity, no worker is idle and as many
   jobs wait as configured.
   */
  ghost predicate NoRoom(p: Pool, keyId: Option<ByteString>)
    requires Shape(p)
  {
    if p.affinity then
      var w := WorkerForKey(keyId, p.size);
      w < p.workers ==> Works(p, w) && 1 <= |p.lanes[w]| && p.queueMax <= |p.lanes[w]| * p.size
    else
      p.idle == [] && p.queueMax <= |p.lanes[0]|
  }

  /** Event `e` in state `p` settles the promise of job `t`. */
  ghost predicate SettledBy(p: Pool, e: Event, t: nat)
    requires Shape(p)
  {
    match e
    case Run(keyId) => t == p.submitted && NoRoom(p, keyId)
    case Reply(id, _) => id in p.pending && p.pending[id].ticket == t
    case Error(w) =>
      w < p.workers
      && ((exists id :: id in p.pending && p.pending[id] == Running(t, w)) || (p.affinity && t in p.lanes[w]))
    case Stop => Active(p, t) || Waiting(p, t)
  }

  function OutcomeOf(e: Event): Outcome {
    match e
    case Run(_) => Overloaded
    case Reply(_, m) => Replied(m)
    case Error(_) => WorkerError
    case Stop => PoolShutdown
  }

  ghost predicate SettlesExactly(p: Pool, q: Pool, e: Event, t: nat)
    requires Shape(p)
  {
    && (t in q.outcomes <==> t in p.outcomes || SettledBy(p, e, t))
    && (SettledBy(p, e, t) ==> t !in p.outcomes && t in q.outcomes && q.outcomes[t] == OutcomeOf(e))
  }

  lemma ShareReached(p: Pool, w: nat)
    requires Shape(p) && p.affinity && w < p.workers
    ensures |p.lanes[w]| >= LaneCap(p) <==> 1 <= |p.lanes[w]| && p.queueMax <= |p.lanes[w]| * p.size
  {
    CeilDivIff(p.queueMax, p.size, |p.lanes[w]|);
  }

  lemma CeilDivIff(a: nat, b: nat, n: nat)
    requires b > 0
    ensures n >= CeilDiv(a, b) <==> a <= n * b
  {
    var q, r := (a + b - 1) / b, (a + b - 1) % b;
    assert a + b - 1 == b * q + r;
    if n >= q {
      assert n * b >= q * b by { MulLe(q, n, b); }
    } else {
      assert (q - 1) * b >= n * b by { MulLe(n, q - 1, b); }
      assert (q - 1) * b == q * b - b;
    }
  }

  lemma MulLe(x: nat, y: nat, b: nat)
    requires x <= y
    ensures x * b <= y * b
  {
  }

  /** What `run` looks at when it decides to turn a job away. */
  predicate Refused(p: Pool, keyId: Option<ByteString>)
    requires Shape(p)
  {
    if p.affinity then
      var w := WorkerForKey(keyId, p.size);
      w >= p.workers || (p.busy[w] && |p.lanes[w]| >= LaneCap(p))
    else
      p.idle == [] && |p.lanes[0]| >= LaneCap(p)
  }

  lemma RefusedIffNoRoom(p: Pool, keyId: Option<ByteString>)
    requires Inv(p) && BusyWorks(p)
    ensures Shape(p) && (Refused(p, keyId) <==> NoRoom(p, keyId))
  {
    assert Shape(p);
    var w := WorkerForKey(keyId, p.size);
    if p.affinity && w < p.workers {
      if Works(p, w) {
        BusyIfWorking(p, w);
      }
      hide Inv, WorkerForKey, Works;
      ShareReached(p, w);
      hide LaneCap;
    }
  }

  lemma MarkedOneOutcome(m: map<nat, Outcome>, t: nat, o: Outcome)
    ensures Marked(m, {t}, o) == m[t := o]
  {
  }

  lemma SubmitOutcomes(p: Pool, keyId: Option<ByteString>)
    requires Shape(p)
    ensures Submit(p, keyId).outcomes == if Refused(p, keyId) then p.outcomes[p.submitted := Overloaded] else p.outcomes
  {
    MarkedOneOutcome(p.outcomes, p.submitted, Overloaded);
    hide WorkerForKey, LaneCap, Marked;
  }

  lemma SubmitSettles(p: Pool, keyId: Option<ByteString>, t: nat)
    requires Inv(p) && BusyWorks(p)
    ensures Shape(p) && SettlesExactly(p, Submit(p, keyId), Run(keyId), t)
  {
    UnsettledTickets(p);
    RefusedIffNoRoom(p, keyId);
    SubmitOutcomes(p, keyId);
    hide Inv, Submit, NoRoom, Refused;
  }

  lemma AnswerOutcomes(p: Pool, id: nat, reply: ByteString)
    requires Shape(p)
    ensures Answer(p, id, reply).outcomes
         == if id in p.pending then p.outcomes[p.pending[id].ticket := Replied(reply)] else p.outcomes
  {
    if id in p.pending {
      MarkedOneOutcome(p.outcomes, p.pending[id].ticket, Replied(reply));
    }
    hide Marked;
  }

  lemma AnswerSettles(p: Pool, id: nat, reply: ByteString, t: nat)
    requires Inv(p)
    ensures Shape(p) && SettlesExactly(p, Answer(p, id, reply), Reply(id, reply), t)
  {
    hide Inv, Answer, Shape;
    NextShape(p);
    AnswerOutcomes(p, id, reply);
    if id in p.pending {
      PendingUnsettled(p, id);
    }
  }

  lemma PendingUnsettled(p: Pool, id: nat)
    requires Inv(p) && id in p.pending
    ensures p.pending[id].ticket !in p.outcomes
  {
    UnsettledTickets(p);
  }

  lemma PlacedUnsettled(p: Pool)
    requires Inv(p)
    ensures Shape(p) && AllQueued(p) !! p.outcomes.Keys && TicketsOf(p, p.pending.Keys) !! p.outcomes.Keys
  {
    UnsettledTickets(p);
  }

  lemma OnWorkerTickets(p: Pool, w: nat, t: nat)
    ensures t in TicketsOf(p, OnWorker(p, w)) <==> exists id :: id in p.pending && p.pending[id] == Running(t, w)
  {
    if t in TicketsOf(p, OnWorker(p, w)) {
      var id :| id in OnWorker(p, w) && p.pending[id].ticket == t;
      assert p.pending[id] == Running(t, w);
    }
    if exists id :: id in p.pending && p.pending[id] == Running(t, w) {
      var id :| id in p.pending && p.pending[id] == Running(t, w);
      assert id in OnWorker(p, w);
    }
  }

  lemma LaneMembers(lane: seq<nat>, t: nat)
    ensures t in LaneTickets(lane) <==> t in lane
  {
  }

  /** The two groups of jobs that an event settles one after the other. */
  lemma TwoGroups(p: Pool, q: Pool, e: Event, t: nat, a: set<nat>, b: set<nat>)
    requires Shape(p) && q.outcomes == Marked(Marked(p.outcomes, a, OutcomeOf(e)), b, OutcomeOf(e))
    requires SettledBy(p, e, t) <==> t in a || t in b
    requires a !! p.outcomes.Keys && b !! p.outcomes.Keys
    ensures SettlesExactly(p, q, e, t)
  {
    hide Shape, SettledBy;
  }

  lemma DieOutcomes(p: Pool, w: nat)
    requires Shape(p) && w < p.workers
    ensures Die(p, w).outcomes
         == Marked(Marked(p.outcomes, TicketsOf(p, OnWorker(p, w)), WorkerError), FailingLane(p, w), WorkerError)
  {
    assert OnWorker(p, w) <= p.pending.Keys;
    hide TicketsOf, LaneTickets, OnWorker;
    if !p.affinity {
      MarkedNone(Marked(p.outcomes, TicketsOf(p, OnWorker(p, w)), WorkerError), WorkerError);
    }
    hide Marked;
  }

  lemma MarkedNone(m: map<nat, Outcome>, o: Outcome)
    ensures Marked(m, {}, o) == m
  {
  }

  /** The waiting jobs that fail with worker `w`. */
  function FailingLane(p: Pool, w: nat): set<nat>
    requires Shape(p) && w < p.workers
  {
    if p.affinity then LaneTickets(p.lanes[w]) else {}
  }

  lemma DieSettles(p: Pool, w: nat, t: nat)
    requires Inv(p) && w < p.workers
    ensures Shape(p) && SettlesExactly(p, Die(p, w), Error(w), t)
  {
    UnsettledTickets(p);
    OnWorkerTickets(p, w, t);
    if p.affinity {
      LaneMembers(p.lanes[w], t);
    }
    assert OnWorker(p, w) <= p.pending.Keys;
    hide Inv, LaneTickets, AllQueued, OnWorker, LaneCap, SettlesExactly, Die, Marked;
    assert TicketsOf(p, OnWorker(p, w)) !! p.outcomes.Keys;
    hide TicketsOf;
    DieOutcomes(p, w);
    TwoGroups(p, Die(p, w), Error(w), t, TicketsOf(p, OnWorker(p, w)), FailingLane(p, w));
  }

  lemma ActiveTickets(p: Pool, t: nat)
    ensures t in TicketsOf(p, p.pending.Keys) <==> Active(p, t)
  {
  }

  lemma StopSettles(p: Pool, t: nat)
    requires Inv(p)
    ensures Shape(p) && SettlesExactly(p, Shutdown(p), Stop, t)
  {
    assert OutcomeOf(Stop) == PoolShutdown;
    hide *;
    PlacedUnsettled(p);
    StopTickets(p, t);
    StopOutcomes(p);
    TwoGroups(p, Shutdown(p), Stop, t, AllQueued(p), TicketsOf(p, p.pending.Keys));
  }

  lemma StopTickets(p: Pool, t: nat)
    requires Shape(p)
    ensures SettledBy(p, Stop, t) <==> t in AllQueued(p) || t in TicketsOf(p, p.pending.Keys)
  {
    QueuedMembers(p.lanes, t);
    ActiveTickets(p, t);
    hide TicketsOf, AllIn, Active;
  }

  lemma StopOutcomes(p: Pool)
    ensures Shutdown(p).outcomes
         == Marked(Marked(p.outcomes, AllQueued(p), PoolShutdown), TicketsOf(p, p.pending.Keys), PoolShutdown)
  {
    hide AllQueued, Marked;
  }

  lemma QueuedMembers(lanes: seq<seq<nat>>, t: nat)
    ensures t in AllIn(lanes) <==> exists l :: 0 <= l < |lanes| && t in lanes[l]
  {
    if l :| 0 <= l < |lanes| && t in lanes[l] {
      var i :| 0 <= i < |lanes[l]| && lanes[l][i] == t;
    }
  }

  lemma NextSettles(p: Pool, e: Event, t: nat)
    requires Inv(p) && BusyWorks(p)
    ensures Shape(p) && SettlesExactly(p, Next(p, e), e, t)
  {
    NextShape(p);
    hide Inv, SettlesExactly, Submit, Answer, Die, Shutdown;
    match e
    case Run(keyId) => SubmitSettles(p, keyId, t);
    case Reply(id, m) => AnswerSettles(p, id, m, t);
    case Error(w) =>
      if w < p.workers {
        DieSettles(p, w, t);
      } else {
        NothingSettles(p, e, t);
      }
    case Stop => StopSettles(p, t);
  }

  lemma NothingSettles(p: Pool, e: Event, t: nat)
    requires Shape(p) && e.Error? && e.worker >= p.workers
    ensures SettlesExactly(p, p, e, t)
  {
  }

  // ---------- over runs ----------

  lemma RunWorks(p: Pool, es: seq<Event>)
    requires Inv(p) && Accounted(p, {})
    ensures BusyWorks(RunFrom(p, es))
  {
    RunAccounted(p, es);
  }

  /** Event `i` of the run settles job `t`. */
  ghost predicate SettledAt(p: Pool, es: seq<Event>, i: nat, t: nat)
    requires Inv(p) && i < |es|
  {
    NextShape(RunFrom(p, es[..i]));
    SettledBy(RunFrom(p, es[..i]), es[i], t)
  }

  ghost predicate Decided(p: Pool, es: seq<Event>, t: nat, i: nat)
    requires Inv(p) && i < |es|
  {
    var q := RunFrom(p, es);
    t in q.outcomes && q.outcomes[t] == OutcomeOf(es[i])
  }

  lemma {:induction false} RunSettles(p: Pool, es: seq<Event>, t: nat)
    requires Inv(p) && Accounted(p, {}) && t !in p.outcomes
    ensures t in RunFrom(p, es).outcomes ==> exists i: nat :: i < |es| && SettledAt(p, es, i, t)
    ensures forall i: nat :: i < |es| && SettledAt(p, es, i, t) ==> Decided(p, es, t, i)
    ensures forall i: nat, j: nat :: i < j < |es| && SettledAt(p, es, i, t) ==> !SettledAt(p, es, j, t)
  {
    hide Inv, Accounted, Next, SettledBy;
    if es != [] {
      var last := |es| - 1;
      var init := es[..last];
      RunSettles(p, init, t);
      RunWorks(p, init);
      NextSettles(RunFrom(p, init), es[last], t);
      OutcomeKept(RunFrom(p, init), es[last]);
      assert forall i: nat :: i < last ==> init[..i] == es[..i] && init[i] == es[i];
      assert forall i: nat :: i < last ==> (SettledAt(p, init, i, t) <==> SettledAt(p, es, i, t));
      assert SettledAt(p, es, last, t) <==> SettledBy(RunFrom(p, init), es[last], t);
      forall i: nat | i < |es| && SettledAt(p, es, i, t) ensures Decided(p, es, t, i) {
        if i < last {
          assert Decided(p, init, t, i);
        }
      }
      forall i: nat, j: nat | i < j < |es| && SettledAt(p, es, i, t) ensures !SettledAt(p, es, j, t) {
        assert Decided(p, init, t, i);
      }
    }
  }

  /**
   What every promise is settled with, exactly. After any run in either mode a job has an outcome if and only if one event
   of the run settled it, there is never a second one, and the outcome is that event's: the reply of a Reply to its own
   pending id, WORKER_ERROR of an Error of its worker (or, under affinity, of the worker it waits for), POOL_SHUTDOWN of a
   Stop, POOL_OVERLOADED of its own Run in a pool without room for it.
   */
  lemma OutcomeIff(size: nat, queueMax: nat, affinity: bool, es: seq<Event>, t: nat, o: Outcome)
    ensures var start := Fresh(size, queueMax, affinity);
      var p := AfterRun(size, queueMax, affinity, es);
      && Inv(start)
      && (t in p.outcomes && p.outcomes[t] == o <==>
            exists i: nat :: i < |es| && SettledAt(start, es, i, t) && OutcomeOf(es[i]) == o)
      && (forall i: nat, j: nat :: i < j < |es| && SettledAt(start, es, i, t) ==> !SettledAt(start, es, j, t))
  {
    FreshInv(size, queueMax, affinity);
    FreshAccounted(size, queueMax, affinity);
    RunSettles(Fresh(size, queueMax, affinity), es, t);
    hide Inv, SettledAt;
  }

  // ---------- which worker a key's jobs go to ----------

  /** The key ids of the `run` calls, by ticket. */
  function KeysOf(es: seq<Event>): seq<Option<ByteString>> {
    if es == [] then []
    else KeysOf(es[..|es| - 1]) + (if es[|es| - 1].Run? then [es[|es| - 1].keyId] else [])
  }

  predicate Theirs(keys: seq<Option<ByteString>>, size: nat, t: nat, w: nat) {
    t < |keys| && WorkerForKey(keys[t], size) == w
  }

  ghost predicate Keyed(p: Pool, keys: seq<Option<ByteString>>) {
    && (forall l, i :: 0 <= l < |p.lanes| && 0 <= i < |p.lanes[l]| ==> Theirs(keys, p.size, p.lanes[l][i], l))
    && (forall id :: id in p.pending ==> Theirs(keys, p.size, p.pending[id].ticket, p.pending[id].worker))
    && (forall i :: 0 <= i < |p.dispatched| ==> Theirs(keys, p.size, p.dispatched[i].ticket, p.dispatched[i].lane))
  }

  lemma SubmitKeyed(p: Pool, keys: seq<Option<ByteString>>, keyId: Option<ByteString>)
    requires Shape(p) && p.affinity && |keys| == p.submitted && Keyed(p, keys)
    ensures Keyed(Submit(p, keyId), keys + [keyId])
  {
    var w, t, keys' := WorkerForKey(keyId, p.size), p.submitted, keys + [keyId];
    MoreKeys(p, keys, keyId);
    assert Theirs(keys', p.size, t, w);
    var p' := p.(submitted := t + 1);
    hide WorkerForKey, LaneCap, Settle, Theirs, Keyed, Dispatch;
    if w >= p.workers || (p.busy[w] && |p.lanes[w]| >= LaneCap(p)) {
      SameKeyed(p, Submit(p, keyId), keys');
    } else if !p.busy[w] {
      var q := p'.(busy := p.busy[w := true]);
      SameKeyed(p, q, keys');
      DispatchKeyed(q, keys', w, t);
    } else {
      SameKeyed(p, p', keys');
      EnqueueKeyed(p', keys', w, t);
    }
  }

  lemma SameKeyed(p: Pool, q: Pool, keys: seq<Option<ByteString>>)
    requires Keyed(p, keys) && q.lanes == p.lanes && q.pending == p.pending && q.dispatched == p.dispatched && q.size == p.size
    ensures Keyed(q, keys)
  {
    hide Theirs;
  }

  lemma DispatchKeyed(p: Pool, keys: seq<Option<ByteString>>, w: nat, t: nat)
    requires Keyed(p, keys) && p.affinity && Theirs(keys, p.size, t, w)
    ensures Keyed(Dispatch(p, w, t), keys)
  {
    hide Theirs;
  }

  lemma EnqueueKeyed(p: Pool, keys: seq<Option<ByteString>>, w: nat, t: nat)
    requires Keyed(p, keys) && w < |p.lanes| && Theirs(keys, p.size, t, w)
    ensures Keyed(Enqueue(p, w, t), keys)
  {
    hide Theirs;
  }

  lemma MoreKeys(p: Pool, keys: seq<Option<ByteString>>, keyId: Option<ByteString>)
    requires Keyed(p, keys)
    ensures Keyed(p, keys + [keyId])
  {
    hide WorkerForKey;
    assert forall t: nat, w: nat :: Theirs(keys, p.size, t, w) ==> Theirs(keys + [keyId], p.size, t, w);
    hide Theirs;
  }

  lemma AnswerKeyed(p: Pool, keys: seq<Option<ByteString>>, id: nat, reply: ByteString)
    requires Shape(p) && p.affinity && Keyed(p, keys)
    ensures Keyed(Answer(p, id, reply), keys)
  {
    hide Theirs, Marked;
  }

  lemma NextKeyed(p: Pool, keys: seq<Option<ByteString>>, e: Event)
    requires Shape(p) && p.affinity && |keys| == p.submitted && Keyed(p, keys)
    ensures Keyed(Next(p, e), if e.Run? then keys + [e.keyId] else keys)
    ensures Next(p, e).submitted == p.submitted + if e.Run? then 1 else 0
  {
    hide Theirs, Submit, Answer, LaneTickets, AllQueued, TicketsOf, OnWorker, Marked;
    match e
    case Run(keyId) => SubmitKeyed(p, keys, keyId); SubmitCounts(p, keyId);
    case Reply(id, m) => AnswerKeyed(p, keys, id, m); AnswerCounts(p, id, m);
    case Error(w) =>
    case Stop =>
  }

  lemma SubmitCounts(p: Pool, keyId: Option<ByteString>)
    requires Shape(p)
    ensures Submit(p, keyId).submitted == p.submitted + 1
  {
    hide WorkerForKey, LaneCap, Marked;
  }

  lemma AnswerCounts(p: Pool, id: nat, reply: ByteString)
    requires Shape(p)
    ensures var q := Answer(p, id, reply);
      q.submitted == p.submitted && q.rejects == p.rejects && q.affinityRejects == p.affinityRejects
  {
    hide Marked;
  }

  lemma {:induction false} RunKeyed(size: nat, queueMax: nat, es: seq<Event>)
    ensures var p := AfterRun(size, queueMax, true, es);
      Keyed(p, KeysOf(es)) && |KeysOf(es)| == p.submitted
  {
    hide Inv, Next, Keyed;
    FreshInv(size, queueMax, true);
    if es == [] {
      FreshKeyed(size, queueMax);
    } else {
      RunKeyed(size, queueMax, es[..|es| - 1]);
      var p := AfterRun(size, queueMax, true, es[..|es| - 1]);
      AfterRunMode(size, queueMax, true, es[..|es| - 1]);
      NextShape(p);
      NextKeyed(p, KeysOf(es[..|es| - 1]), es[|es| - 1]);
      assert KeysOf(es[..|es| - 1]) + [] == KeysOf(es[..|es| - 1]);
    }
  }

  lemma FreshKeyed(size: nat, queueMax: nat)
    ensures Keyed(Fresh(size, queueMax, true), KeysOf([]))
  {
  }

  /** Slot 0 without a key id; otherwise the hash with seed 0 picks it, here for "hello". */
  lemma SlotOfHello(b: ByteString, size: nat)
    requires size > 0 && b == ['h' as int, 'e' as int, 'l' as int, 'l' as int, 'o' as int]
    ensures WorkerForKey(Some(b), size) == 0x248bfa47 % size
    ensures WorkerForKey(None, size) == 0 && WorkerForKey(Some([]), size) == 0
  {
    MurmurVectors.HelloSeedZero(b);
    hide Murmur.MurmurHash3;
  }

  /** Under affinity the jobs of a key id wait only for its worker, run only there, and are posted only to it. */
  lemma KeysStayOnTheirWorker(size: nat, queueMax: nat, es: seq<Event>, t: nat, l: nat, id: nat, i: nat)
    ensures var p := AfterRun(size, queueMax, true, es);
      && |KeysOf(es)| == p.submitted
      && (l < |p.lanes| && t in p.lanes[l] ==> Theirs(KeysOf(es), size, t, l))
      && (id in p.pending ==> Theirs(KeysOf(es), size, p.pending[id].ticket, p.pending[id].worker))
      && (i < |p.dispatched| ==> Theirs(KeysOf(es), size, p.dispatched[i].ticket, p.dispatched[i].lane))
  {
    RunKeyed(size, queueMax, es);
    AfterRunMode(size, queueMax, true, es);
    hide AfterRun, Theirs, Inv;
  }

  // ---------- what is counted ----------

  function TurnedAway(p: Pool): set<nat> {
    set t | t in p.outcomes && p.outcomes[t] == Overloaded
  }

  /** Of the jobs turned away, those whose key id belongs to slot `w`. */
  function TurnedAwayAt(p: Pool, keys: seq<Option<ByteString>>, w: nat): set<nat> {
    set t | t in TurnedAway(p) && Theirs(keys, p.size, t, w)
  }

  ghost predicate Counted(p: Pool, keys: seq<Option<ByteString>>) {
    && p.rejects == |TurnedAway(p)| && |p.affinityRejects| == p.size && |keys| == p.submitted
    && (forall t :: t in TurnedAway(p) ==> t < p.submitted)
    && forall w: nat :: w < p.size ==>
         p.affinityRejects[w] == if p.affinity then |TurnedAwayAt(p, keys, w)| else 0
  }

  lemma NotCounted(p: Pool, q: Pool, keys: seq<Option<ByteString>>)
    requires Counted(p, keys) && TurnedAway(q) == TurnedAway(p)
    requires q.rejects == p.rejects && q.affinityRejects == p.affinityRejects
    requires q.size == p.size && q.affinity == p.affinity && q.submitted == p.submitted
    ensures Counted(q, keys)
  {
    hide TurnedAway, Theirs;
    forall w: nat | w < p.size
      ensures q.affinityRejects[w] == if q.affinity then |TurnedAwayAt(q, keys, w)| else 0
    {
      assert TurnedAwayAt(q, keys, w) == TurnedAwayAt(p, keys, w);
    }
  }

  /** One more `run`; its job is turned away or not. */
  lemma OneMoreRun(p: Pool, q: Pool, keys: seq<Option<ByteString>>, keyId: Option<ByteString>, refused: bool)
    requires Counted(p, keys) && q.size == p.size && q.affinity == p.affinity && q.submitted == p.submitted + 1
    requires TurnedAway(q) == if refused then TurnedAway(p) + {p.submitted} else TurnedAway(p)
    requires q.rejects == p.rejects + if refused then 1 else 0
    requires var idx := WorkerForKey(keyId, p.size);
      q.affinityRejects == if refused && p.affinity && idx < p.size
                           then p.affinityRejects[idx := p.affinityRejects[idx] + 1] else p.affinityRejects
    ensures Counted(q, keys + [keyId])
  {
    hide TurnedAway, WorkerForKey, TurnedAwayAt;
    assert p.submitted !in TurnedAway(p);
    var idx := WorkerForKey(keyId, p.size);
    forall w: nat | w < p.size
      ensures q.affinityRejects[w] == if q.affinity then |TurnedAwayAt(q, keys + [keyId], w)| else 0
    {
      OneMoreAt(p, q, keys, keyId, refused, w);
    }
  }

  lemma OneMoreAt(p: Pool, q: Pool, keys: seq<Option<ByteString>>, keyId: Option<ByteString>, refused: bool, w: nat)
    requires |keys| == p.submitted && q.size == p.size && forall t :: t in TurnedAway(p) ==> t < p.submitted
    requires TurnedAway(q) == if refused then TurnedAway(p) + {p.submitted} else TurnedAway(p)
    ensures var n, mine := |TurnedAwayAt(p, keys, w)|, refused && WorkerForKey(keyId, p.size) == w;
      |TurnedAwayAt(q, keys + [keyId], w)| == if mine then n + 1 else n
  {
    hide TurnedAway, WorkerForKey;
    var before, after := TurnedAwayAt(p, keys, w), TurnedAwayAt(q, keys + [keyId], w);
    var mine := refused && WorkerForKey(keyId, p.size) == w;
    forall t: nat ensures t in after <==> t in before || (mine && t == p.submitted) {
      assert t < |keys| ==> (keys + [keyId])[t] == keys[t];
    }
    assert after == if mine then before + {p.submitted} else before;
  }

  lemma SubmitTurnsAway(p: Pool, keyId: Option<ByteString>)
    requires Shape(p) && p.submitted !in p.outcomes
    ensures var q := Submit(p, keyId);
      && TurnedAway(q) == (if Refused(p, keyId) then TurnedAway(p) + {p.submitted} else TurnedAway(p))
      && q.rejects == p.rejects + (if Refused(p, keyId) then 1 else 0)
  {
    hide Submit, Refused;
    SubmitOutcomes(p, keyId);
    SubmitRejects(p, keyId);
  }

  lemma SubmitRejects(p: Pool, keyId: Option<ByteString>)
    requires Shape(p)
    ensures Submit(p, keyId).rejects == p.rejects + (if Refused(p, keyId) then 1 else 0)
  {
    hide WorkerForKey, LaneCap, Marked, TurnedAway;
  }

  lemma SubmitBlames(p: Pool, keyId: Option<ByteString>)
    requires Shape(p)
    ensures var q, idx := Submit(p, keyId), WorkerForKey(keyId, p.size);
      q.affinityRejects == if Refused(p, keyId) && p.affinity && idx < p.size
                           then p.affinityRejects[idx := p.affinityRejects[idx] + 1] else p.affinityRejects
  {
    hide WorkerForKey, LaneCap, Marked;
  }

  lemma RunCounted(p: Pool, keys: seq<Option<ByteString>>, keyId: Option<ByteString>)
    requires Inv(p) && Counted(p, keys)
    ensures Shape(p) && Counted(Submit(p, keyId), keys + [keyId])
  {
    UnsettledTickets(p);
    SubmitTurnsAway(p, keyId);
    SubmitBlames(p, keyId);
    SubmitCounts(p, keyId);
    SubmitMode(p, keyId);
    hide Inv, Submit, Refused, Counted, WorkerForKey, Shape;
    OneMoreRun(p, Submit(p, keyId), keys, keyId, Refused(p, keyId));
  }

  lemma OthersTurnNobodyAway(p: Pool, e: Event)
    requires Inv(p) && BusyWorks(p) && !e.Run?
    ensures Shape(p) && TurnedAway(Next(p, e)) == TurnedAway(p)
  {
    hide Inv, Shape, Next, BusyWorks, TurnedAway;
    NextShape(p);
    forall t: nat ensures t in TurnedAway(Next(p, e)) <==> t in TurnedAway(p) {
      NotTurnedAway(p, e, t);
    }
  }

  lemma NotTurnedAway(p: Pool, e: Event, t: nat)
    requires Inv(p) && BusyWorks(p) && !e.Run?
    ensures Shape(p) && (t in TurnedAway(Next(p, e)) <==> t in TurnedAway(p))
  {
    hide Inv, Shape, Next, BusyWorks, SettledBy;
    OutcomeKept(p, e);
    NextSettles(p, e, t);
  }

  lemma OthersCountNothing(p: Pool, e: Event)
    requires Shape(p) && !e.Run?
    ensures var q := Next(p, e);
      q.submitted == p.submitted && q.rejects == p.rejects && q.affinityRejects == p.affinityRejects
  {
    hide Answer, LaneTickets, AllQueued, TicketsOf, OnWorker, Marked;
    if e.Reply? {
      AnswerCounts(p, e.jobId, e.reply);
    }
  }

  lemma NextCounted(p: Pool, keys: seq<Option<ByteString>>, e: Event)
    requires Inv(p) && BusyWorks(p) && Counted(p, keys)
    ensures Shape(p) && Counted(Next(p, e), if e.Run? then keys + [e.keyId] else keys)
  {
    hide Inv, Shape, Counted, Submit, Answer, Die, Shutdown, TurnedAway, BusyWorks;
    NextShape(p);
    NextMode(p, e);
    if e.Run? {
      RunCounted(p, keys, e.keyId);
    } else {
      OthersTurnNobodyAway(p, e);
      OthersCountNothing(p, e);
      NotCounted(p, Next(p, e), keys);
    }
  }

  lemma FreshCounted(size: nat, queueMax: nat, affinity: bool)
    ensures Counted(Fresh(size, queueMax, affinity), KeysOf([]))
  {
    var p := Fresh(size, queueMax, affinity);
    assert TurnedAway(p) == {};
    forall w: nat | w < size ensures TurnedAwayAt(p, KeysOf([]), w) == {} {
    }
  }

  lemma {:induction false} RunCounts(size: nat, queueMax: nat, affinity: bool, es: seq<Event>)
    ensures Counted(AfterRun(size, queueMax, affinity, es), KeysOf(es))
  {
    hide Inv, Next, Counted;
    FreshInv(size, queueMax, affinity);
    FreshAccounted(size, queueMax, affinity);
    if es == [] {
      FreshCounted(size, queueMax, affinity);
    } else {
      var init := es[..|es| - 1];
      RunCounts(size, queueMax, affinity, init);
      RunWorks(Fresh(size, queueMax, affinity), init);
      NextCounted(AfterRun(size, queueMax, affinity, init), KeysOf(init), es[|es| - 1]);
      assert KeysOf(init) + [] == KeysOf(init);
    }
  }

  /** The counters tell the truth: jobs turned away in all, and under affinity those of each slot's key ids. */
  lemma RejectsAreCounted(size: nat, queueMax: nat, affinity: bool, es: seq<Event>, w: nat)
    ensures var p := AfterRun(size, queueMax, affinity, es);
      && p.rejects == |TurnedAway(p)|
      && |p.affinityRejects| == size
      && (w < size ==> p.affinityRejects[w] == if affinity then |TurnedAwayAt(p, KeysOf(es), w)| else 0)
  {
    RunCounts(size, queueMax, affinity, es);
    AfterRunMode(size, queueMax, affinity, es);
    hide AfterRun, TurnedAway, TurnedAwayAt;
  }
}
