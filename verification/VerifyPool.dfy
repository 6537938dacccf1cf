/** The verify pool object. A queued job is the ticket of the promise its caller waits for. */
module VerifyPool {
  import opened Bytes
  import opened Wrappers
  import opened PoolModel
  import Murmur
  import PoolOutcomes

  lemma SettleTouches(p: Pool, ts: set<nat>, o: Outcome)
    ensures var q := Settle(p, ts, o);
      q == p.(status := q.status, resolves := q.resolves, outcomes := q.outcomes)
  {
  }

  lemma MarkedOneMore<V>(m: map<nat, V>, ts: set<nat>, t: nat, v: V)
    ensures Marked(Marked(m, ts, v), {t}, v) == Marked(m, ts + {t}, v)
  {
  }

  /** Settling one more ticket of a set. */
  lemma SettleOneMore(p: Pool, ts: set<nat>, t: nat, o: Outcome)
    requires t !in ts
    ensures Settle(Settle(p, ts, o), {t}, o) == Settle(p, ts + {t}, o)
    ensures p.resolves[t] == Settle(p, ts, o).resolves[t]
  {
    hide Marked;
    MarkedOneMore(p.status, ts, t, Settled);
    MarkedOneMore(p.outcomes, ts, t, o);
    assert (p.resolves + multiset(ts)) + multiset({t}) == p.resolves + multiset(ts + {t});
  }

  lemma NoneBefore(ts: set<nat>)
    ensures {} + ts == ts
  {
  }

  lemma SettleNone(p: Pool, o: Outcome)
    ensures Settle(p, {}, o) == p
  {
    assert p.resolves + multiset({}) == p.resolves;
  }

  lemma Unsettled(p: Pool)
    requires Inv(p)
    ensures Shape(p) && p.resolves[p.submitted] == 0
    ensures forall id :: id in p.pending ==> p.resolves[p.pending[id].ticket] == 0
    ensures forall l, i :: 0 <= l < |p.lanes| && 0 <= i < |p.lanes[l]| ==> p.resolves[p.lanes[l][i]] == 0
  {
  }

  /** Jobs that are pending, or wait in one lane, are pairwise different. */
  lemma DistinctTickets(p: Pool)
    requires Inv(p)
    ensures forall i, j :: i in p.pending && j in p.pending && i != j ==> p.pending[i].ticket != p.pending[j].ticket
    ensures forall l, i, j :: 0 <= l < |p.lanes| && 0 <= i < j < |p.lanes[l]| ==> p.lanes[l][i] != p.lanes[l][j]
  {
  }

  class VerifyPool {
    const size: nat
    const queueMax: nat
    const affinity: bool
    const perQueueMax: nat
    var workers: nat
    var idle: seq<nat>
    var queue: seq<nat>
    var queues: seq<seq<nat>>
    var busy: seq<bool>
    var nextJobId: nat
    var pending: map<nat, Running>
    var rejects: nat
    var affinityRejects: seq<nat>
    /** Names promises: the number of `run` calls so far. */
    var submitted: nat
    ghost var status: map<nat, Status>
    ghost var resolves: multiset<nat>
    ghost var outcomes: map<nat, Outcome>
    ghost var dispatched: seq<Sent>

    ghost function Model(): Pool
      reads this
    {
      Pool(size, queueMax, affinity, workers, idle, if affinity then queues else [queue], busy, nextJobId, pending,
           rejects, affinityRejects, submitted, status, resolves, outcomes, dispatched)
    }

    ghost predicate Valid()
      reads this
    {
      perQueueMax == PerQueueMax(queueMax, size) && Inv(Model()) && if affinity then queue == [] else queues == []
    }

    /** The pool right after `init` has seen every worker ready. */
    constructor(size: nat, queueMax: nat, affinity: bool)
      ensures Valid() && Model() == Fresh(size, queueMax, affinity)
    {
      this.size, this.queueMax, this.affinity := size, queueMax, affinity;
      perQueueMax := PerQueueMax(queueMax, size);
      workers := size;
      idle := if affinity then [] else seq(size, i => i);
      queue := [];
      queues := if affinity then seq(size, i => []) else [];
      busy := if affinity then seq(size, i => false) else [];
      nextJobId, pending, rejects, affinityRejects := 1, map[], 0, seq(size, i => 0);
      submitted, status, resolves, outcomes, dispatched := 0, map[], multiset{}, map[], [];
      FreshInv(size, queueMax, affinity);
    }

    /** The caller's promise. Asking for an unsettled one makes a second settlement impossible. */
    ghost method Resolve(t: nat, o: Outcome)
      requires resolves[t] == 0
      modifies this`status, this`resolves, this`outcomes
      ensures Model() == Settle(old(Model()), {t}, o)
    {
      hide Settle;
      var p := Settle(Model(), {t}, o);
      SettleTouches(Model(), {t}, o);
      status, resolves, outcomes := p.status, p.resolves, p.outcomes;
    }

    method DispatchTo(w: nat, t: nat)
      modifies this`nextJobId, this`pending, this`status, this`dispatched
      ensures Model() == Dispatch(old(Model()), w, t)
    {
      var jobId := nextJobId;
      nextJobId := nextJobId + 1;
      pending := pending[jobId := Running(t, w)];
      status := status[t := Pending(jobId)];
      dispatched := dispatched + [Sent(if affinity then w else 0, t)];
    }

    method WorkerIndex(keyId: Option<ByteString>) returns (idx: nat)
      requires keyId.Some? ==> |keyId.value| < 0x8000_0000
      ensures idx == WorkerForKey(keyId, size)
    {
      if size == 0 || keyId == None || keyId.value == [] {
        return 0;
      }
      var h := Murmur.Murmur3_32(keyId.value, 0);
      Murmur.SeenWhole(keyId.value);
      return h.value % size;
    }

    method RejectJob(t: nat, idx: nat)
      requires |affinityRejects| == size && resolves[t] == 0
      modifies this`rejects, this`affinityRejects, this`status, this`resolves, this`outcomes
      ensures Model() == Reject(old(Model()), t, idx)
    {
      hide Settle;
      Resolve(t, Overloaded);
      SettleTouches(old(Model()), {t}, Overloaded);
      rejects := rejects + 1;
      if affinity && idx < size {
        affinityRejects := affinityRejects[idx := affinityRejects[idx] + 1];
      }
    }

    method RunOnOwnWorker(keyId: Option<ByteString>, t: nat)
      requires affinity && Shape(Model()) && perQueueMax == PerQueueMax(queueMax, size)
      requires t == submitted && resolves[t] == 0 && (keyId.Some? ==> |keyId.value| < 0x8000_0000)
      modifies this
      ensures Model() == Submit(old(Model()), keyId) && queue == old(queue)
    {
      hide Settle, WorkerForKey, PerQueueMax;
      submitted := submitted + 1;
      var idx := WorkerIndex(keyId);
      if idx >= workers {
        RejectJob(t, idx);
      } else if !busy[idx] {
        busy := busy[idx := true];
        DispatchTo(idx, t);
      } else if |queues[idx]| >= perQueueMax {
        RejectJob(t, idx);
      } else {
        queues := queues[idx := queues[idx] + [t]];
        status := status[t := Queued(idx)];
      }
    }

    method RunOnAnyWorker(t: nat)
      requires !affinity && Shape(Model()) && t == submitted && resolves[t] == 0
      modifies this
      ensures Model() == Submit(old(Model()), None) && queues == old(queues)
    {
      hide Settle, WorkerForKey, PerQueueMax, Reject, Dispatch;
      submitted := submitted + 1;
      if idle != [] {
        var w := idle[|idle| - 1];
        idle := idle[..|idle| - 1];
        DispatchTo(w, t);
      } else if |queue| >= queueMax {
        RejectJob(t, 0);
      } else {
        queue := queue + [t];
        status := status[t := Queued(0)];
      }
    }

    /** `run`: the caller's promise is named by the result. */
    method RunJob(keyId: Option<ByteString>) returns (t: nat)
      requires Valid() && (keyId.Some? ==> |keyId.value| < 0x8000_0000)
      modifies this
      ensures t == old(submitted) && Model() == Submit(old(Model()), keyId) && Valid()
    {
      Unsettled(Model());
      SubmitKeeps(Model(), keyId);
      assert !affinity ==> Submit(Model(), keyId) == Submit(Model(), None);
      hide Inv, Submit;
      t := submitted;
      if affinity {
        RunOnOwnWorker(keyId, t);
      } else {
        RunOnAnyWorker(t);
      }
    }

    /** `_release` */
    method ReleaseWorker(w: nat)
      requires Shape(Model()) && w < workers
      modifies this
      ensures Model() == Release(old(Model()), w)
      ensures queue == old(queue) || !affinity
      ensures queues == old(queues) || affinity
    {
      if affinity {
        if queues[w] != [] {
          var next := queues[w][0];
          queues := queues[w := queues[w][1..]];
          DispatchTo(w, next);
          return;
        }
        busy := busy[w := false];
        return;
      }
      if queue != [] {
        var next := queue[0];
        queue := queue[1..];
        DispatchTo(w, next);
        return;
      }
      idle := idle + [w];
    }

    /** A worker's answer; it only ever answers a job it was given, so the slot to release is the job's own. */
    method OnMessage(jobId: nat, reply: ByteString)
      requires Valid()
      modifies this
      ensures Model() == Answer(old(Model()), jobId, reply) && Valid()
      ensures outcomes == if jobId in old(pending) then old(outcomes)[old(pending)[jobId].ticket := Replied(reply)]
                          else old(outcomes)
    {
      hide Inv, Release, Settle, Shape;
      ghost var p := Model();
      AnswerResolves(p, jobId, reply);
      AnswerFacts(p, jobId, reply);
      if jobId !in pending {
        return;
      }
      var r := pending[jobId];
      SettleTouches(p.(pending := p.pending - {jobId}), {r.ticket}, Replied(reply));
      pending := pending - {jobId};
      Resolve(r.ticket, Replied(reply));
      ReleaseWorker(r.worker);
    }

    method DrainLane(lane: seq<nat>, ghost before: set<nat>, o: Outcome, ghost p: Pool)
      requires Model() == Settle(p, before, o)
      requires forall i :: 0 <= i < |lane| ==> p.resolves[lane[i]] == 0 && lane[i] !in before
      requires forall i, j :: 0 <= i < j < |lane| ==> lane[i] != lane[j]
      modifies this`status, this`resolves, this`outcomes
      ensures Model() == Settle(p, before + LaneTickets(lane), o)
    {
      hide Settle;
      ghost var done := before;
      for i := 0 to |lane|
        invariant done == before + LaneTickets(lane[..i])
        invariant Model() == Settle(p, done, o)
      {
        assert lane[i] !in LaneTickets(lane[..i]);
        SettleOneMore(p, done, lane[i], o);
        Resolve(lane[i], o);
        done := done + {lane[i]};
        assert LaneTickets(lane[..i + 1]) == LaneTickets(lane[..i]) + {lane[i]} by {
          assert lane[..i + 1][i] == lane[i];
          assert forall j :: 0 <= j < i ==> lane[..i + 1][j] == lane[..i][j];
        }
      }
      assert lane[..|lane|] == lane;
    }

    /** Settles and forgets the pending jobs `ids`. */
    method FailPending(ids: set<nat>, o: Outcome)
      requires ids <= pending.Keys
      requires forall i, j :: i in pending && j in pending && i != j ==> pending[i].ticket != pending[j].ticket
      requires forall id :: id in pending ==> resolves[pending[id].ticket] == 0
      modifies this`pending, this`status, this`resolves, this`outcomes
      ensures Model() == Settle(old(Model()).(pending := old(pending) - ids), TicketsOf(old(Model()), ids), o)
    {
      hide Settle;
      ghost var p := Model();
      ghost var done: set<nat> := {};
      var todo := ids;
      SettleNone(p, o);
      assert pending - {} == pending && TicketsOf(p, {}) == {};
      assert p.(pending := pending) == p;
      while todo != {}
        invariant done !! todo && done + todo == ids
        invariant pending == p.pending - done
        invariant Model() == Settle(p.(pending := pending), TicketsOf(p, done), o)
        decreases todo
      {
        var id :| id in todo;
        var t := pending[id].ticket;
        todo := todo - {id};
        TakeOne(p, done, id, o);
        pending := pending - {id};
        Resolve(t, o);
        done := done + {id};
      }
    }

    /** Under affinity the queue of a dead worker dies with it. */
    method FailLane(w: nat, o: Outcome)
      requires affinity && Inv(Model()) && w < |queues| && queue == []
      modifies this
      ensures Model() == Settle(old(Model()), LaneTickets(old(queues)[w]), o).(
                           lanes := old(queues)[w := []], busy := old(busy)[w := false])
      ensures queue == [] && workers == old(workers)
    {
      ghost var p := Model();
      Unsettled(p);
      DistinctTickets(p);
      hide Inv, Settle;
      SettleNone(p, o);
      NoneBefore(LaneTickets(queues[w]));
      DrainLane(queues[w], {}, o, p);
      SettleTouches(p, LaneTickets(p.lanes[w]), o);
      queues := queues[w := []];
      busy := busy[w := false];
    }

    /** A worker died. */
    method OnError(w: nat)
      requires Valid() && w < workers
      modifies this
      ensures Model() == Die(old(Model()), w) && Valid()
    {
      hide Inv, Settle, LaneTickets, TicketsOf, Shape;
      ghost var p := Model();
      var ids := set id | id in pending && pending[id].worker == w;
      assert ids == OnWorker(p, w);
      hide OnWorker;
      FailureFacts(p, ids);
      DeathFacts(p, w);
      FailPending(ids, WorkerError);
      if affinity {
        FailLane(w, WorkerError);
      }
    }

    method DrainAllQueues()
      requires Inv(Model()) && if affinity then queue == [] else queues == []
      modifies this`queue, this`queues, this`status, this`resolves, this`outcomes
      ensures Model() == DrainQueues(old(Model()))
      ensures queue == [] && (!affinity ==> queues == [])
    {
      hide Inv, Settle, Shape, LaneTickets;
      ghost var p := Model();
      QueueFacts(p);
      SettleNone(p, PoolShutdown);
      SettleTouches(p, AllQueued(p), PoolShutdown);
      if affinity {
        NoneIn();
        assert queues[..0] == [];
        for l := 0 to |queues|
          invariant queues == p.lanes && queue == []
          invariant Model() == Settle(p, AllIn(queues[..l]), PoolShutdown)
        {
          AllInOneMore(queues, l);
          DrainLane(queues[l], AllIn(queues[..l]), PoolShutdown, p);
        }
        assert queues[..|queues|] == queues;
        queues := seq(|queues|, i => []);
      } else {
        OneLane(queue);
        NoneIn();
        assert {} + LaneTickets(queue) == LaneTickets(queue);
        assert p.lanes[0] == queue;
        DrainLane(queue, {}, PoolShutdown, p);
        queue := [];
      }
    }

    method DrainAllPending()
      requires Inv(Model())
      modifies this`pending, this`status, this`resolves, this`outcomes
      ensures Model() == DrainPending(old(Model())) && queue == old(queue)
    {
      hide Inv, TicketsOf, Settle, Shape;
      FailureFacts(Model(), pending.Keys);
      assert pending - pending.Keys == map[];
      FailPending(pending.Keys, PoolShutdown);
    }

    method CloseSlots()
      modifies this`workers, this`idle, this`queues, this`busy
      ensures Model() == old(Model()).(workers := 0, idle := [], lanes := if affinity then [] else [queue], busy := [])
      ensures queues == []
    {
      workers := 0;
      idle := [];
      queues := [];
      busy := [];
    }

    /** The part of `shutdown` after every worker has terminated. */
    method ShutdownPool()
      requires Valid()
      modifies this
      ensures Model() == Shutdown(old(Model())) && Valid()
    {
      hide Inv, DrainPending, AllQueued, Settle;
      ghost var p := Model();
      ShutdownKeeps(p);
      DrainKeeps(p);
      DrainAllQueues();
      DrainAllPending();
      CloseSlots();
    }
  }

  lemma AnswerFacts(p: Pool, jobId: nat, reply: ByteString)
    requires Inv(p)
    ensures Shape(p) && Inv(Answer(p, jobId, reply))
    ensures jobId in p.pending ==> p.resolves[p.pending[jobId].ticket] == 0 && p.pending[jobId].worker < p.workers
    ensures jobId in p.pending ==>
      Shape(Settle(p.(pending := p.pending - {jobId}), {p.pending[jobId].ticket}, Replied(reply)))
  {
    AnswerKeeps(p, jobId, reply);
    Unsettled(p);
  }

  lemma AnswerResolves(p: Pool, jobId: nat, reply: ByteString)
    requires Inv(p)
    ensures Shape(p) && Answer(p, jobId, reply).outcomes
         == if jobId in p.pending then p.outcomes[p.pending[jobId].ticket := Replied(reply)] else p.outcomes
  {
    PoolOutcomes.AnswerOutcomes(p, jobId, reply);
  }

  lemma FailureFacts(p: Pool, ids: set<nat>)
    requires Inv(p) && ids <= p.pending.Keys
    ensures forall i, j :: i in p.pending && j in p.pending && i != j ==> p.pending[i].ticket != p.pending[j].ticket
    ensures forall id :: id in p.pending ==> p.resolves[p.pending[id].ticket] == 0
    ensures Inv(Settle(p.(pending := p.pending - ids), TicketsOf(p, ids), WorkerError))
  {
    Unsettled(p);
    DistinctTickets(p);
    SettlePendingKeeps(p, ids, WorkerError);
  }

  lemma DeathFacts(p: Pool, w: nat)
    requires Inv(p) && w < p.workers
    ensures Shape(p) && OnWorker(p, w) <= p.pending.Keys && (p.affinity ==> w < |p.lanes|)
    ensures Inv(Die(p, w))
    ensures var q := Settle(p.(pending := p.pending - OnWorker(p, w)), TicketsOf(p, OnWorker(p, w)), WorkerError);
      q.lanes == p.lanes && q.busy == p.busy && q.affinity == p.affinity && q.workers == p.workers
  {
    DieKeeps(p, w);
  }

  lemma QueueFacts(p: Pool)
    requires Inv(p)
    ensures !p.affinity ==> |p.lanes| == 1
    ensures forall l, i :: 0 <= l < |p.lanes| && 0 <= i < |p.lanes[l]| ==> p.resolves[p.lanes[l][i]] == 0
    ensures forall l, i, j :: 0 <= l < |p.lanes| && 0 <= i < j < |p.lanes[l]| ==> p.lanes[l][i] != p.lanes[l][j]
    ensures forall l :: 0 <= l < |p.lanes| ==> LaneTickets(p.lanes[l]) !! AllIn(p.lanes[..l])
  {
    Unsettled(p);
    DistinctTickets(p);
    LanesDisjoint(p);
  }

  lemma NoneIn()
    ensures AllIn([]) == {}
  {
  }

  lemma TicketsOneMore(p: Pool, done: set<nat>, id: nat)
    requires done <= p.pending.Keys && id in p.pending && id !in done
    requires forall i, j :: i in p.pending && j in p.pending && i != j ==> p.pending[i].ticket != p.pending[j].ticket
    ensures TicketsOf(p, done + {id}) == TicketsOf(p, done) + {p.pending[id].ticket}
    ensures p.pending[id].ticket !in TicketsOf(p, done)
    ensures p.pending - done - {id} == p.pending - (done + {id})
  {
  }

  lemma TakeOne(p: Pool, done: set<nat>, id: nat, o: Outcome)
    requires done <= p.pending.Keys && id in p.pending && id !in done
    requires forall i, j :: i in p.pending && j in p.pending && i != j ==> p.pending[i].ticket != p.pending[j].ticket
    ensures var t := p.pending[id].ticket;
      var q := Settle(p.(pending := p.pending - done), TicketsOf(p, done), o);
      && q.resolves[t] == p.resolves[t] && p.pending - done - {id} == p.pending - (done + {id})
      && Settle(q.(pending := p.pending - (done + {id})), {t}, o)
         == Settle(p.(pending := p.pending - (done + {id})), TicketsOf(p, done + {id}), o)
  {
    hide TicketsOf;
    TicketsOneMore(p, done, id);
    var t := p.pending[id].ticket;
    var ts := TicketsOf(p, done);
    var rest := p.pending - (done + {id});
    SettlePending(p, ts, o, p.pending - done);
    SettlePending(p, ts, o, rest);
    SettleOneMore(p.(pending := rest), ts, t, o);
    SettleOneMore(p.(pending := p.pending - done), ts, t, o);
  }

  /** Settling does not look at what is pending. */
  lemma SettlePending(p: Pool, ts: set<nat>, o: Outcome, pending: map<nat, Running>)
    ensures Settle(p.(pending := pending), ts, o) == Settle(p, ts, o).(pending := pending)
  {
  }

  lemma LanesDisjoint(p: Pool)
    requires Inv(p)
    ensures forall l :: 0 <= l < |p.lanes| ==> LaneTickets(p.lanes[l]) !! AllIn(p.lanes[..l])
  {
    forall l | 0 <= l < |p.lanes|
      ensures LaneTickets(p.lanes[l]) !! AllIn(p.lanes[..l])
    {
      LanePlaced(p, l);
    }
  }

  lemma AllInOneMore(lanes: seq<seq<nat>>, l: nat)
    requires l < |lanes|
    ensures AllIn(lanes[..l + 1]) == AllIn(lanes[..l]) + LaneTickets(lanes[l])
    ensures forall i :: 0 <= i < |lanes[l]| ==> lanes[l][i] in LaneTickets(lanes[l])
  {
    forall t | t in AllIn(lanes[..l]) + LaneTickets(lanes[l])
      ensures t in AllIn(lanes[..l + 1])
    {
      if t in AllIn(lanes[..l]) {
        var k, i :| 0 <= k < l && 0 <= i < |lanes[..l][k]| && lanes[..l][k][i] == t;
        assert lanes[..l + 1][k][i] == t;
      } else {
        var i :| 0 <= i < |lanes[l]| && lanes[l][i] == t;
        assert lanes[..l + 1][l][i] == t;
      }
    }
    forall t | t in AllIn(lanes[..l + 1])
      ensures t in AllIn(lanes[..l]) + LaneTickets(lanes[l])
    {
      var k, i :| 0 <= k < l + 1 && 0 <= i < |lanes[..l + 1][k]| && lanes[..l + 1][k][i] == t;
      if k < l {
        assert lanes[..l][k][i] == t;
      }
    }
  }

  lemma OneLane(lane: seq<nat>)
    ensures AllIn([lane]) == LaneTickets(lane)
  {
    assert [lane][..1] == [lane] && [lane][..0] == [];
    AllInOneMore([lane], 0);
  }
}
