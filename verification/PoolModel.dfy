/**
 What the verify pool does at each event, in both dispatch modes. A job is named by its ticket: the number of
 `run` calls before its own. Round-robin mode has one lane (the shared queue), affinity mode one per worker.
 */
module PoolModel {
  import opened Bytes
  import opened Wrappers
  import opened Murmur
  import Bits

  datatype Outcome = Replied(reply: ByteString) | WorkerError | Overloaded | PoolShutdown

  datatype Running = Running(ticket: nat, worker: nat)

  datatype Status = Queued(lane: nat) | Pending(jobId: nat) | Settled

  datatype Sent = Sent(lane: nat, ticket: nat)

  /**
   `workers` is the number of live slots: `size`, or 0 after shutdown. `status`, `resolves`, `outcomes` and
   `dispatched` are history: where each job is, how often its promise was settled, with what, and the order
   in which jobs were posted to workers.
   */
  datatype Pool = Pool(
    size: nat, queueMax: nat, affinity: bool, workers: nat,
    idle: seq<nat>, lanes: seq<seq<nat>>, busy: seq<bool>,
    nextJobId: nat, pending: map<nat, Running>,
    rejects: nat, affinityRejects: seq<nat>,
    submitted: nat, status: map<nat, Status>, resolves: multiset<nat>, outcomes: map<nat, Outcome>, dispatched: seq<Sent>)

  function CeilDiv(a: nat, b: nat): nat
    requires b > 0
  {
    (a + b - 1) / b
  }

  function Max(a: nat, b: nat): nat {
    if a < b then b else a
  }

  function PerQueueMax(queueMax: nat, size: nat): nat {
    Max(1, CeilDiv(queueMax, Max(1, size)))
  }

  function LaneCap(p: Pool): nat {
    if p.affinity then PerQueueMax(p.queueMax, p.size) else p.queueMax
  }

  /** Without a key id, or in an empty pool, slot 0 is named; an empty pool has no slot 0. */
  function WorkerForKey(keyId: Option<ByteString>, size: nat): (idx: nat)
    ensures size > 0 ==> idx < size
  {
    if size == 0 || keyId == None || keyId.value == [] then 0 else MurmurHash3(keyId.value, 0) % size
  }

  function LaneOf(p: Pool, w: nat): nat {
    if p.affinity then w else 0
  }

  /** After `init`: every worker is up and idle. */
  function Fresh(size: nat, queueMax: nat, affinity: bool): Pool {
    Pool(size, queueMax, affinity, size,
         if affinity then [] else seq(size, i => i),
         if affinity then seq(size, i => []) else [[]],
         if affinity then seq(size, i => false) else [],
         1, map[], 0, seq(size, i => 0), 0, map[], multiset{}, map[], [])
  }

  /** The fields fit together, so that every index below is in range. */
  ghost predicate Shape(p: Pool) {
    && p.workers <= p.size && |p.affinityRejects| == p.size
    && (if p.affinity then |p.lanes| == |p.busy| == p.workers && p.idle == [] else |p.lanes| == 1 && p.busy == [])
    && (forall i :: 0 <= i < |p.idle| ==> p.idle[i] < p.workers)
    && (forall id :: id in p.pending ==> id < p.nextJobId && p.pending[id].worker < p.workers)
  }

  /** The map with `v` for every ticket of `ts`. */
  function Marked<V>(m: map<nat, V>, ts: set<nat>, v: V): map<nat, V> {
    map t | t in m.Keys + ts :: if t in ts then v else m[t]
  }

  /** The promises of the tickets `ts` are settled, once each. */
  function Settle(p: Pool, ts: set<nat>, o: Outcome): Pool {
    p.(status := Marked(p.status, ts, Settled),
       resolves := p.resolves + multiset(ts),
       outcomes := Marked(p.outcomes, ts, o))
  }

  function Dispatch(p: Pool, w: nat, t: nat): Pool {
    p.(nextJobId := p.nextJobId + 1,
       pending := p.pending[p.nextJobId := Running(t, w)],
       status := p.status[t := Pending(p.nextJobId)],
       dispatched := p.dispatched + [Sent(LaneOf(p, w), t)])
  }

  function Reject(p: Pool, t: nat, idx: nat): Pool
    requires |p.affinityRejects| == p.size
  {
    Settle(p, {t}, Overloaded).(
      rejects := p.rejects + 1,
      affinityRejects :=
        if p.affinity && idx < p.size then p.affinityRejects[idx := p.affinityRejects[idx] + 1] else p.affinityRejects)
  }

  function Enqueue(p: Pool, lane: nat, t: nat): Pool
    requires lane < |p.lanes|
  {
    p.(lanes := p.lanes[lane := p.lanes[lane] + [t]], status := p.status[t := Queued(lane)])
  }

  function Submit(p: Pool, keyId: Option<ByteString>): Pool
    requires Shape(p)
  {
    var t := p.submitted;
    var p' := p.(submitted := t + 1);
    if p.affinity then
      var idx := WorkerForKey(keyId, p.size);
      if idx >= p.workers then Reject(p', t, idx)
      else if !p.busy[idx] then Dispatch(p'.(busy := p.busy[idx := true]), idx, t)
      else if |p.lanes[idx]| >= LaneCap(p) then Reject(p', t, idx)
      else Enqueue(p', idx, t)
    else if p.idle != [] then
      Dispatch(p'.(idle := p.idle[..|p.idle| - 1]), p.idle[|p.idle| - 1], t)
    else if |p.lanes[0]| >= LaneCap(p) then Reject(p', t, 0)
    else Enqueue(p', 0, t)
  }

  function Release(p: Pool, w: nat): Pool
    requires LaneOf(p, w) < |p.lanes| && (p.affinity ==> w < |p.busy|)
  {
    var l := LaneOf(p, w);
    if p.lanes[l] != [] then Dispatch(p.(lanes := p.lanes[l := p.lanes[l][1..]]), w, p.lanes[l][0])
    else if p.affinity then p.(busy := p.busy[w := false])
    else p.(idle := p.idle + [w])
  }

  /** A worker answers a job; an answer to a job that is no longer pending is ignored. */
  function Answer(p: Pool, jobId: nat, reply: ByteString): Pool
    requires Shape(p)
  {
    if jobId !in p.pending then p
    else
      var r := p.pending[jobId];
      Release(Settle(p.(pending := p.pending - {jobId}), {r.ticket}, Replied(reply)), r.worker)
  }

  function OnWorker(p: Pool, w: nat): set<nat> {
    set id | id in p.pending && p.pending[id].worker == w
  }

  function TicketsOf(p: Pool, ids: set<nat>): set<nat>
    requires ids <= p.pending.Keys
  {
    set id | id in ids :: p.pending[id].ticket
  }

  function LaneTickets(lane: seq<nat>): set<nat> {
    set i | 0 <= i < |lane| :: lane[i]
  }

  /** A worker dies: its pending job fails, and under affinity its queue with it. The slot is not refilled. */
  function Die(p: Pool, w: nat): Pool
    requires Shape(p) && w < p.workers
  {
    var ids := OnWorker(p, w);
    var p' := Settle(p.(pending := p.pending - ids), TicketsOf(p, ids), WorkerError);
    if p.affinity
    then Settle(p', LaneTickets(p.lanes[w]), WorkerError).(lanes := p.lanes[w := []], busy := p.busy[w := false])
    else p'
  }

  function AllIn(lanes: seq<seq<nat>>): set<nat> {
    set l, i | 0 <= l < |lanes| && 0 <= i < |lanes[l]| :: lanes[l][i]
  }

  function AllQueued(p: Pool): set<nat> {
    AllIn(p.lanes)
  }

  function DrainQueues(p: Pool): Pool {
    Settle(p, AllQueued(p), PoolShutdown).(lanes := seq(|p.lanes|, i => []))
  }

  function DrainPending(p: Pool): Pool {
    Settle(p.(pending := map[]), TicketsOf(p, p.pending.Keys), PoolShutdown)
  }

  /** First the queues are drained, then the pending jobs; no slot is left. */
  function Shutdown(p: Pool): Pool {
    DrainPending(DrainQueues(p)).(workers := 0, idle := [], lanes := if p.affinity then [] else [[]], busy := [])
  }

  // ---------- runs ----------

  datatype Event = Run(keyId: Option<ByteString>) | Reply(jobId: nat, reply: ByteString) | Error(worker: nat) | Stop

  /** Jobs other than `x` have status Queued(l) exactly if they are in lane l; `x` is in no lane. */
  ghost predicate QueuedOk(status: map<nat, Status>, lanes: seq<seq<nat>>, x: nat) {
    && (forall t :: t in status && t != x && status[t].Queued? ==>
          status[t].lane < |lanes| && t in lanes[status[t].lane])
    && (forall l, i :: 0 <= l < |lanes| && 0 <= i < |lanes[l]| ==>
          lanes[l][i] != x && lanes[l][i] in status && status[lanes[l][i]] == Queued(l))
  }

  /** Jobs other than `x` have status Pending(id) exactly if `id` is pending for them; nothing is pending for `x`. */
  ghost predicate RunningOk(status: map<nat, Status>, pending: map<nat, Running>, x: nat) {
    && (forall t :: t in status && t != x && status[t].Pending? ==>
          status[t].jobId in pending && pending[status[t].jobId].ticket == t)
    && (forall id :: id in pending ==>
          pending[id].ticket != x && pending[id].ticket in status && status[pending[id].ticket] == Pending(id))
  }

  /** Promises of jobs other than `x` have been settled once if their status says so and never otherwise. */
  ghost predicate SettledOk(status: map<nat, Status>, resolves: multiset<nat>, outcomes: map<nat, Outcome>, x: nat) {
    && (forall t: nat :: resolves[t] == if t != x && t in status && status[t] == Settled then 1 else 0)
    && (forall t: nat :: t in outcomes <==> t != x && t in status && status[t] == Settled)
  }

  /** The fields agree with the status of every job other than `x`, and do not mention `x`. */
  ghost predicate PlacesBut(p: Pool, x: nat) {
    && QueuedOk(p.status, p.lanes, x) && RunningOk(p.status, p.pending, x)
    && SettledOk(p.status, p.resolves, p.outcomes, x)
  }

  /** `status` covers the jobs submitted so far, `x` perhaps excepted. */
  ghost predicate CoversBut(p: Pool, x: nat) {
    && (forall t :: t in p.status ==> t < p.submitted)
    && (forall t: nat :: t < p.submitted && t != x ==> t in p.status)
  }

  ghost predicate WorkersOk(pending: map<nat, Running>, idle: seq<nat>, busy: seq<bool>) {
    && (forall i, j :: i in pending && j in pending && pending[i].worker == pending[j].worker ==> i == j)
    && (forall i, j :: 0 <= i < j < |idle| ==> idle[i] != idle[j])
    && (forall id :: id in pending ==> pending[id].worker !in idle)
    && (forall w, id :: 0 <= w < |busy| && id in pending && pending[id].worker == w ==> busy[w])
  }

  ghost predicate NoIdleWhileQueued(p: Pool)
    requires Shape(p)
  {
    && (!p.affinity && p.idle != [] ==> p.lanes[0] == [])
    && (p.affinity ==> forall w :: 0 <= w < p.workers && p.lanes[w] != [] ==> p.busy[w])
  }

  /** Within a lane, jobs already posted and jobs still waiting are in the order of their `run` calls. */
  ghost predicate InOrder(lanes: seq<seq<nat>>, dispatched: seq<Sent>) {
    && (forall i, j :: 0 <= i < j < |dispatched| && dispatched[i].lane == dispatched[j].lane ==>
          dispatched[i].ticket < dispatched[j].ticket)
    && (forall l, i, j :: 0 <= i < |dispatched| && dispatched[i].lane == l < |lanes| && 0 <= j < |lanes[l]| ==>
          dispatched[i].ticket < lanes[l][j])
    && (forall l, i, j :: 0 <= l < |lanes| && 0 <= i < j < |lanes[l]| ==> lanes[l][i] < lanes[l][j])
  }

  ghost predicate AllBelow(lanes: seq<seq<nat>>, dispatched: seq<Sent>, bound: nat) {
    && (forall i :: 0 <= i < |dispatched| ==> dispatched[i].ticket < bound)
    && (forall l, i :: 0 <= l < |lanes| && 0 <= i < |lanes[l]| ==> lanes[l][i] < bound)
  }

  ghost predicate Capped(p: Pool) {
    forall l :: 0 <= l < |p.lanes| ==> |p.lanes[l]| <= LaneCap(p)
  }

  /** The invariant of every run, except that ticket `x` is in no place. */
  ghost predicate Loose(p: Pool, x: nat) {
    && Shape(p) && PlacesBut(p, x) && CoversBut(p, x) && WorkersOk(p.pending, p.idle, p.busy)
    && NoIdleWhileQueued(p) && InOrder(p.lanes, p.dispatched) && AllBelow(p.lanes, p.dispatched, p.submitted)
    && Capped(p)
  }

  ghost predicate Inv(p: Pool) {
    Loose(p, p.submitted)
  }

  // ---------- placing one job ----------

  lemma QueuedOther(status: map<nat, Status>, lanes: seq<seq<nat>>, x: nat, y: nat, st: Status)
    requires QueuedOk(status, lanes, x) && !st.Queued? && y !in status && y != x
    ensures QueuedOk(status[x := st], lanes, y)
  {
  }

  lemma QueuedAdd(status: map<nat, Status>, lanes: seq<seq<nat>>, x: nat, y: nat, l: nat)
    requires QueuedOk(status, lanes, x) && l < |lanes| && y !in status && y != x
    ensures QueuedOk(status[x := Queued(l)], lanes[l := lanes[l] + [x]], y)
  {
    var lanes' := lanes[l := lanes[l] + [x]];
    assert lanes'[l][|lanes[l]|] == x;
    forall t | t in status && t != x && status[t].Queued?
      ensures t in lanes'[status[t].lane]
    {
      var i :| 0 <= i < |lanes[status[t].lane]| && lanes[status[t].lane][i] == t;
      assert lanes'[status[t].lane][i] == t;
    }
  }

  lemma RunningOther(status: map<nat, Status>, pending: map<nat, Running>, x: nat, y: nat, st: Status)
    requires RunningOk(status, pending, x) && !st.Pending? && y !in status && y != x
    ensures RunningOk(status[x := st], pending, y)
  {
  }

  lemma RunningAdd(status: map<nat, Status>, pending: map<nat, Running>, x: nat, y: nat, id: nat, w: nat)
    requires RunningOk(status, pending, x) && id !in pending && y !in status && y != x
    ensures RunningOk(status[x := Pending(id)], pending[id := Running(x, w)], y)
  {
  }

  lemma SettledOther(
    status: map<nat, Status>, resolves: multiset<nat>, outcomes: map<nat, Outcome>, x: nat, y: nat, st: Status)
    requires SettledOk(status, resolves, outcomes, x) && !st.Settled? && y !in status && y != x
    ensures SettledOk(status[x := st], resolves, outcomes, y)
  {
  }

  lemma SettledAdd(
    status: map<nat, Status>, resolves: multiset<nat>, outcomes: map<nat, Outcome>, ts: set<nat>, x: nat, y: nat, o: Outcome)
    requires SettledOk(status, resolves, outcomes, x) && y !in status && y != x && ts == {x}
    ensures SettledOk(Marked(status, ts, Settled), resolves + multiset(ts), Marked(outcomes, ts, o), y)
  {
  }

  lemma OrderEnqueue(lanes: seq<seq<nat>>, dispatched: seq<Sent>, l: nat, t: nat)
    requires InOrder(lanes, dispatched) && AllBelow(lanes, dispatched, t) && l < |lanes|
    ensures InOrder(lanes[l := lanes[l] + [t]], dispatched)
    ensures AllBelow(lanes[l := lanes[l] + [t]], dispatched, t + 1)
  {
  }

  lemma OrderDispatch(lanes: seq<seq<nat>>, dispatched: seq<Sent>, l: nat, t: nat)
    requires InOrder(lanes, dispatched)
    requires forall i :: 0 <= i < |dispatched| && dispatched[i].lane == l ==> dispatched[i].ticket < t
    requires l < |lanes| ==> forall i :: 0 <= i < |lanes[l]| ==> t < lanes[l][i]
    ensures InOrder(lanes, dispatched + [Sent(l, t)])
  {
  }

  lemma WorkersAdd(pending: map<nat, Running>, idle: seq<nat>, busy: seq<bool>, id: nat, r: Running)
    requires WorkersOk(pending, idle, busy) && id !in pending && r.worker !in idle
    requires r.worker < |busy| ==> busy[r.worker]
    requires forall i :: i in pending ==> pending[i].worker != r.worker
    ensures WorkersOk(pending[id := r], idle, busy)
  {
  }

  // ---------- settling a set of jobs ----------

  lemma QueuedSettle(status: map<nat, Status>, lanes: seq<seq<nat>>, lanes': seq<seq<nat>>, ts: set<nat>, y: nat)
    requires QueuedOk(status, lanes, y) && y !in status
    requires forall l :: 0 <= l < |lanes| && !(l < |lanes'| && lanes'[l] == lanes[l]) ==> LaneTickets(lanes[l]) <= ts
    requires forall l :: 0 <= l < |lanes'| && lanes'[l] != [] ==>
      l < |lanes| && lanes'[l] == lanes[l] && LaneTickets(lanes[l]) !! ts
    ensures QueuedOk(Marked(status, ts, Settled), lanes', y)
  {
    var status' := Marked(status, ts, Settled);
    forall t | t in status' && t != y && status'[t].Queued?
      ensures status'[t].lane < |lanes'| && t in lanes'[status'[t].lane]
    {
      var l := status[t].lane;
      assert t in lanes[l] && t in LaneTickets(lanes[l]);
    }
    forall l, i | 0 <= l < |lanes'| && 0 <= i < |lanes'[l]|
      ensures lanes'[l][i] in status' && status'[lanes'[l][i]] == Queued(l)
    {
      assert lanes[l][i] in LaneTickets(lanes[l]);
    }
  }

  lemma RunningSettle(
    status: map<nat, Status>, pending: map<nat, Running>, ids: set<nat>, ts: set<nat>, y: nat)
    requires RunningOk(status, pending, y) && y !in status
    requires forall id :: id in pending ==> (id in ids <==> pending[id].ticket in ts)
    ensures RunningOk(Marked(status, ts, Settled), pending - ids, y)
  {
  }

  lemma SettledSettle(
    status: map<nat, Status>, resolves: multiset<nat>, outcomes: map<nat, Outcome>, ts: set<nat>, o: Outcome, y: nat)
    requires SettledOk(status, resolves, outcomes, y) && y !in status && y !in ts
    requires forall t :: t in ts && t in status ==> !status[t].Settled?
    ensures SettledOk(
      Marked(status, ts, Settled), resolves + multiset(ts), Marked(outcomes, ts, o), y)
  {
  }

  // ---------- every event keeps the invariant ----------

  lemma MarkedOne(status: map<nat, Status>, t: nat)
    ensures Marked(status, {t}, Settled) == status[t := Settled]
  {
  }

  lemma RejectKeeps(p: Pool, t: nat, idx: nat)
    requires Loose(p, t) && t < p.submitted && t !in p.status
    ensures Inv(Reject(p, t, idx))
  {
    hide QueuedOk, RunningOk, SettledOk, InOrder, AllBelow, WorkersOk, LaneCap, Marked;
    var p' := Reject(p, t, idx);
    SameCap(p, p');
    MarkedOne(p.status, t);
    QueuedOther(p.status, p.lanes, t, p.submitted, Settled);
    RunningOther(p.status, p.pending, t, p.submitted, Settled);
    SettledAdd(p.status, p.resolves, p.outcomes, {t}, t, p.submitted, Overloaded);
  }

  lemma EnqueueKeeps(p: Pool, lane: nat, t: nat)
    requires Loose(p, t) && t + 1 == p.submitted && t !in p.status && AllBelow(p.lanes, p.dispatched, t)
    requires lane < |p.lanes| && |p.lanes[lane]| < LaneCap(p) && if p.affinity then p.busy[lane] else p.idle == []
    ensures Inv(Enqueue(p, lane, t))
  {
    hide QueuedOk, RunningOk, SettledOk, InOrder, AllBelow, WorkersOk, LaneCap;
    QueuedAdd(p.status, p.lanes, t, p.submitted, lane);
    RunningOther(p.status, p.pending, t, p.submitted, Queued(lane));
    SettledOther(p.status, p.resolves, p.outcomes, t, p.submitted, Queued(lane));
    OrderEnqueue(p.lanes, p.dispatched, lane, t);
    assert LaneCap(Enqueue(p, lane, t)) == LaneCap(p) by { SameCap(p, Enqueue(p, lane, t)); }
  }

  lemma SameCap(p: Pool, p': Pool)
    requires p'.affinity == p.affinity && p'.queueMax == p.queueMax && p'.size == p.size
    ensures LaneCap(p') == LaneCap(p)
  {
  }

  lemma DispatchKeeps(p: Pool, w: nat, t: nat)
    requires Loose(p, t) && t < p.submitted
    requires w < p.workers && w !in p.idle && (p.affinity ==> p.busy[w])
    requires forall id :: id in p.pending ==> p.pending[id].worker != w
    requires forall i :: 0 <= i < |p.dispatched| && p.dispatched[i].lane == LaneOf(p, w) ==> p.dispatched[i].ticket < t
    requires forall i :: 0 <= i < |p.lanes[LaneOf(p, w)]| ==> t < p.lanes[LaneOf(p, w)][i]
    ensures Inv(Dispatch(p, w, t))
  {
    hide QueuedOk, RunningOk, SettledOk, InOrder, WorkersOk, LaneCap;
    QueuedOther(p.status, p.lanes, t, p.submitted, Pending(p.nextJobId));
    RunningAdd(p.status, p.pending, t, p.submitted, p.nextJobId, w);
    SettledOther(p.status, p.resolves, p.outcomes, t, p.submitted, Pending(p.nextJobId));
    WorkersAdd(p.pending, p.idle, p.busy, p.nextJobId, Running(t, w));
    OrderDispatch(p.lanes, p.dispatched, LaneOf(p, w), t);
    SameCap(p, Dispatch(p, w, t));
  }

  lemma SubmittedLoose(p: Pool)
    requires Inv(p)
    ensures Loose(p.(submitted := p.submitted + 1), p.submitted)
    ensures AllBelow(p.lanes, p.dispatched, p.submitted) && p.submitted !in p.status
  {
    hide QueuedOk, RunningOk, SettledOk, InOrder, WorkersOk, LaneCap;
    SameCap(p, p.(submitted := p.submitted + 1));
  }

  lemma SubmitSharedKeeps(p: Pool)
    requires Inv(p) && !p.affinity
    ensures Inv(Submit(p, None))
  {
    hide QueuedOk, RunningOk, SettledOk, InOrder, WorkersOk, LaneCap;
    var t := p.submitted;
    var p' := p.(submitted := t + 1);
    SameCap(p, p');
    SubmittedLoose(p);
    if p.idle != [] {
      var q := p'.(idle := p.idle[..|p.idle| - 1]);
      SameCap(p', q);
      PopIdle(p.pending, p.idle, p.busy);
      DispatchKeeps(q, p.idle[|p.idle| - 1], t);
    } else if |p.lanes[0]| < LaneCap(p) {
      EnqueueKeeps(p', 0, t);
    } else {
      RejectKeeps(p', t, 0);
    }
  }

  lemma SubmitAffinityKeeps(p: Pool, keyId: Option<ByteString>)
    requires Inv(p) && p.affinity
    ensures Inv(Submit(p, keyId))
  {
    hide QueuedOk, RunningOk, SettledOk, InOrder, WorkersOk, LaneCap, WorkerForKey;
    var t := p.submitted;
    var p' := p.(submitted := t + 1);
    SameCap(p, p');
    SubmittedLoose(p);
    var idx := WorkerForKey(keyId, p.size);
    if idx < p.workers && !p.busy[idx] {
      var q := p'.(busy := p.busy[idx := true]);
      SameCap(p', q);
      BusyMore(p.pending, p.idle, p.busy, idx);
      DispatchKeeps(q, idx, t);
    } else if idx < p.workers && |p.lanes[idx]| < LaneCap(p) {
      EnqueueKeeps(p', idx, t);
    } else {
      RejectKeeps(p', t, idx);
    }
  }

  lemma SubmitKeeps(p: Pool, keyId: Option<ByteString>)
    requires Inv(p)
    ensures Inv(Submit(p, keyId))
  {
    if p.affinity {
      SubmitAffinityKeeps(p, keyId);
    } else {
      SubmitSharedKeeps(p);
    }
  }

  lemma BusyMore(pending: map<nat, Running>, idle: seq<nat>, busy: seq<bool>, w: nat)
    requires WorkersOk(pending, idle, busy) && w < |busy| && !busy[w]
    ensures WorkersOk(pending, idle, busy[w := true])
    ensures forall id :: id in pending ==> pending[id].worker != w
  {
  }

  lemma PopIdle(pending: map<nat, Running>, idle: seq<nat>, busy: seq<bool>)
    requires WorkersOk(pending, idle, busy) && idle != []
    ensures WorkersOk(pending, idle[..|idle| - 1], busy)
    ensures idle[|idle| - 1] !in idle[..|idle| - 1]
    ensures forall id :: id in pending ==> pending[id].worker != idle[|idle| - 1]
  {
    assert idle[|idle| - 1] in idle;
  }

  lemma ReleaseNextKeeps(p: Pool, w: nat)
    requires Inv(p) && w < p.workers && w !in p.idle && (p.affinity ==> p.busy[w])
    requires forall id :: id in p.pending ==> p.pending[id].worker != w
    requires p.lanes[LaneOf(p, w)] != []
    ensures Inv(Release(p, w))
  {
    hide QueuedOk, RunningOk, SettledOk, LaneCap, WorkersOk;
    var l := LaneOf(p, w);
    var t := p.lanes[l][0];
    var q := p.(lanes := p.lanes[l := p.lanes[l][1..]]);
    SameCap(p, q);
    PopLane(p.status, p.lanes, l, p.submitted, p.dispatched);
    PopOthers(p, t, l);
    DispatchKeeps(q, w, t);
  }

  lemma ReleaseKeeps(p: Pool, w: nat)
    requires Inv(p) && w < p.workers && w !in p.idle && (p.affinity ==> p.busy[w])
    requires forall id :: id in p.pending ==> p.pending[id].worker != w
    ensures Inv(Release(p, w))
  {
    hide QueuedOk, RunningOk, SettledOk, LaneCap, WorkersOk, InOrder, AllBelow;
    if p.lanes[LaneOf(p, w)] != [] {
      ReleaseNextKeeps(p, w);
    } else {
      SameCap(p, Release(p, w));
      FreeWorker(p.pending, p.idle, p.busy, w);
    }
  }

  lemma FreeWorker(pending: map<nat, Running>, idle: seq<nat>, busy: seq<bool>, w: nat)
    requires WorkersOk(pending, idle, busy) && w !in idle && forall id :: id in pending ==> pending[id].worker != w
    ensures WorkersOk(pending, idle + [w], busy)
    ensures w < |busy| ==> WorkersOk(pending, idle, busy[w := false])
  {
  }

  /** Taking the front job of a lane leaves it in no place, ahead of everything left and after everything posted. */
  lemma PopLane(status: map<nat, Status>, lanes: seq<seq<nat>>, l: nat, y: nat, dispatched: seq<Sent>)
    requires QueuedOk(status, lanes, y) && InOrder(lanes, dispatched) && y !in status
    requires l < |lanes| && lanes[l] != []
    ensures var lanes' := lanes[l := lanes[l][1..]];
      QueuedOk(status, lanes', lanes[l][0]) && InOrder(lanes', dispatched)
    ensures forall i :: 0 <= i < |lanes[l][1..]| ==> lanes[l][0] < lanes[l][1..][i]
  {
    var lanes' := lanes[l := lanes[l][1..]];
    forall t | t in status && t != lanes[l][0] && status[t].Queued?
      ensures t in lanes'[status[t].lane]
    {
      var m := status[t].lane;
      var i :| 0 <= i < |lanes[m]| && lanes[m][i] == t;
      if m == l {
        assert lanes'[m][i - 1] == t;
      }
    }
  }

  lemma PopOthers(p: Pool, t: nat, l: nat)
    requires Inv(p) && l < |p.lanes| && p.lanes[l] != [] && t == p.lanes[l][0]
    ensures t < p.submitted && t in p.status && p.status[t] == Queued(l)
    ensures RunningOk(p.status, p.pending, t) && SettledOk(p.status, p.resolves, p.outcomes, t)
  {
  }

  lemma AnswerKeeps(p: Pool, jobId: nat, reply: ByteString)
    requires Inv(p)
    ensures Inv(Answer(p, jobId, reply))
  {
    if jobId in p.pending {
      var r := p.pending[jobId];
      var q := Settle(p.(pending := p.pending - {jobId}), {r.ticket}, Replied(reply));
      assert TicketsOf(p, {jobId}) == {r.ticket};
      SettlePendingKeeps(p, {jobId}, Replied(reply));
      AloneOnWorker(p, jobId);
      hide QueuedOk, RunningOk, SettledOk, InOrder, AllBelow, WorkersOk, LaneCap, Inv;
      ReleaseKeeps(q, r.worker);
    }
  }

  lemma AloneOnWorker(p: Pool, jobId: nat)
    requires Inv(p) && jobId in p.pending
    ensures var w := p.pending[jobId].worker;
      && w !in p.idle && (p.affinity ==> p.busy[w])
      && forall id :: id in p.pending && id != jobId ==> p.pending[id].worker != w
  {
  }

  lemma SettlePendingKeeps(p: Pool, ids: set<nat>, o: Outcome)
    requires Inv(p) && ids <= p.pending.Keys
    ensures Inv(Settle(p.(pending := p.pending - ids), TicketsOf(p, ids), o))
  {
    hide QueuedOk, RunningOk, SettledOk, InOrder, AllBelow, WorkersOk, LaneCap, LaneTickets, TicketsOf;
    var ts := TicketsOf(p, ids);
    var q := Settle(p.(pending := p.pending - ids), ts, o);
    TicketsPlaced(p, ids);
    QueuedSettle(p.status, p.lanes, p.lanes, ts, p.submitted);
    RunningSettle(p.status, p.pending, ids, ts, p.submitted);
    SettledSettle(p.status, p.resolves, p.outcomes, ts, o, p.submitted);
    assert q.status.Keys == p.status.Keys;
    SettleFrame(p, q);
  }

  lemma TicketsPlaced(p: Pool, ids: set<nat>)
    requires Inv(p) && ids <= p.pending.Keys
    ensures var ts := TicketsOf(p, ids);
      && (forall id :: id in p.pending ==> (id in ids <==> p.pending[id].ticket in ts))
      && (forall t :: t in ts ==> t in p.status && p.status[t].Pending?)
      && (forall l :: 0 <= l < |p.lanes| ==> LaneTickets(p.lanes[l]) !! ts)
  {
  }

  lemma SettleFrame(p: Pool, q: Pool)
    requires Inv(p) && PlacesBut(q, p.submitted) && Shape(q) && q.lanes == p.lanes && q.dispatched == p.dispatched
    requires q.status.Keys == p.status.Keys && q.submitted == p.submitted && q.idle == p.idle && q.busy == p.busy
    requires q.affinity == p.affinity && q.size == p.size && q.queueMax == p.queueMax && q.workers == p.workers
    requires forall id :: id in q.pending ==> id in p.pending && q.pending[id] == p.pending[id]
    ensures Inv(q)
  {
  }

  lemma LanePlaced(p: Pool, w: nat)
    requires Inv(p) && w < |p.lanes|
    ensures var ts := LaneTickets(p.lanes[w]);
      && (forall t :: t in ts ==> t in p.status && p.status[t] == Queued(w))
      && (forall l :: 0 <= l < |p.lanes| && l != w ==> LaneTickets(p.lanes[l]) !! ts)
      && (forall id :: id in p.pending ==> p.pending[id].ticket !in ts)
  {
  }

  lemma ClearPlaces(p: Pool, w: nat, o: Outcome)
    requires Inv(p) && p.affinity && w < p.workers
    ensures var q := Settle(p, LaneTickets(p.lanes[w]), o).(lanes := p.lanes[w := []], busy := p.busy[w := false]);
      q.status.Keys == p.status.Keys && PlacesBut(q, p.submitted)
  {
    hide QueuedOk, RunningOk, SettledOk, InOrder, AllBelow, WorkersOk, LaneCap, LaneTickets;
    var ts := LaneTickets(p.lanes[w]);
    LanePlaced(p, w);
    QueuedSettle(p.status, p.lanes, p.lanes[w := []], ts, p.submitted);
    RunningSettle(p.status, p.pending, {}, ts, p.submitted);
    assert p.pending - {} == p.pending;
    SettledSettle(p.status, p.resolves, p.outcomes, ts, o, p.submitted);
  }

  lemma ClearLane(p: Pool, w: nat, o: Outcome)
    requires Inv(p) && p.affinity && w < p.workers && forall id :: id in p.pending ==> p.pending[id].worker != w
    ensures Inv(Settle(p, LaneTickets(p.lanes[w]), o).(lanes := p.lanes[w := []], busy := p.busy[w := false]))
  {
    hide PlacesBut, LaneCap, InOrder, AllBelow, LaneTickets, Marked, WorkersOk;
    ClearPlaces(p, w, o);
    ClearOrder(p.lanes, p.dispatched, w, p.submitted);
    LessBusy(p.pending, p.idle, p.busy, w);
    SameCap(p, Settle(p, LaneTickets(p.lanes[w]), o).(lanes := p.lanes[w := []], busy := p.busy[w := false]));
  }

  lemma ClearOrder(lanes: seq<seq<nat>>, dispatched: seq<Sent>, w: nat, bound: nat)
    requires InOrder(lanes, dispatched) && AllBelow(lanes, dispatched, bound) && w < |lanes|
    ensures InOrder(lanes[w := []], dispatched) && AllBelow(lanes[w := []], dispatched, bound)
  {
  }

  lemma LessBusy(pending: map<nat, Running>, idle: seq<nat>, busy: seq<bool>, w: nat)
    requires WorkersOk(pending, idle, busy) && w < |busy| && forall id :: id in pending ==> pending[id].worker != w
    ensures WorkersOk(pending, idle, busy[w := false])
  {
  }

  lemma DieKeeps(p: Pool, w: nat)
    requires Inv(p) && w < p.workers
    ensures Inv(Die(p, w))
  {
    SettlePendingKeeps(p, OnWorker(p, w), WorkerError);
    hide Inv, LaneTickets;
    if p.affinity {
      ClearLane(Settle(p.(pending := p.pending - OnWorker(p, w)), TicketsOf(p, OnWorker(p, w)), WorkerError), w, WorkerError);
    }
  }

  lemma AllQueuedPlaced(p: Pool)
    requires Inv(p)
    ensures var ts := AllQueued(p);
      && (forall t :: t in ts ==> t in p.status && p.status[t].Queued?)
      && (forall l :: 0 <= l < |p.lanes| ==> LaneTickets(p.lanes[l]) <= ts)
      && (forall id :: id in p.pending ==> p.pending[id].ticket !in ts)
  {
  }

  lemma EmptyOrder(lanes: seq<seq<nat>>, dispatched: seq<Sent>, bound: nat)
    requires InOrder(lanes, dispatched) && AllBelow(lanes, dispatched, bound)
    ensures InOrder(seq(|lanes|, i => []), dispatched) && AllBelow(seq(|lanes|, i => []), dispatched, bound)
  {
  }

  lemma DrainPlaces(p: Pool)
    requires Inv(p)
    ensures var q := DrainQueues(p);
      q.status.Keys == p.status.Keys && PlacesBut(q, p.submitted)
  {
    hide QueuedOk, RunningOk, SettledOk, WorkersOk, LaneCap, LaneTickets, AllQueued, InOrder, AllBelow, Marked;
    var ts := AllQueued(p);
    var q := DrainQueues(p);
    AllQueuedPlaced(p);
    MarkedKnown(p.status, ts);
    QueuedSettle(p.status, p.lanes, q.lanes, ts, p.submitted);
    RunningSettle(p.status, p.pending, {}, ts, p.submitted);
    assert p.pending - {} == p.pending;
    SettledSettle(p.status, p.resolves, p.outcomes, ts, PoolShutdown, p.submitted);
  }

  lemma MarkedKnown(status: map<nat, Status>, ts: set<nat>)
    requires forall t :: t in ts ==> t in status
    ensures Marked(status, ts, Settled).Keys == status.Keys
  {
  }

  lemma DrainKeeps(p: Pool)
    requires Inv(p)
    ensures Inv(DrainQueues(p))
  {
    hide PlacesBut, LaneCap, InOrder, AllBelow, AllQueued, Marked, WorkersOk;
    DrainPlaces(p);
    EmptyOrder(p.lanes, p.dispatched, p.submitted);
    SameCap(p, DrainQueues(p));
  }

  lemma DrainPendingKeeps(p: Pool)
    requires Inv(p)
    ensures Inv(DrainPending(p))
  {
    SettlePendingKeeps(p, p.pending.Keys, PoolShutdown);
    assert p.pending - p.pending.Keys == map[];
  }

  lemma ShutdownKeeps(p: Pool)
    requires Inv(p)
    ensures Inv(Shutdown(p))
  {
    hide Inv, AllQueued, TicketsOf;
    DrainKeeps(p);
    DrainPendingKeeps(DrainQueues(p));
    CloseKeeps(DrainPending(DrainQueues(p)));
  }

  lemma CloseKeeps(r: Pool)
    requires Inv(r) && r.pending == map[] && forall l :: 0 <= l < |r.lanes| ==> r.lanes[l] == []
    ensures Inv(r.(workers := 0, idle := [], lanes := if r.affinity then [] else [[]], busy := []))
  {
  }

  // ---------- what every run keeps ----------

  /** An event that names a worker names a live slot; other events are always possible. */
  function Next(p: Pool, e: Event): Pool
    requires Shape(p)
  {
    match e
    case Run(keyId) => Submit(p, keyId)
    case Reply(jobId, reply) => Answer(p, jobId, reply)
    case Error(w) => if w < p.workers then Die(p, w) else p
    case Stop => Shutdown(p)
  }

  lemma NextKeeps(p: Pool, e: Event)
    requires Inv(p)
    ensures Inv(Next(p, e))
  {
    match e
    case Run(keyId) => SubmitKeeps(p, keyId);
    case Reply(jobId, reply) => AnswerKeeps(p, jobId, reply);
    case Error(w) => if w < p.workers { DieKeeps(p, w); }
    case Stop => ShutdownKeeps(p);
  }

  lemma FreshInv(size: nat, queueMax: nat, affinity: bool)
    ensures Inv(Fresh(size, queueMax, affinity))
  {
  }

  ghost function RunFrom(p: Pool, es: seq<Event>): (q: Pool)
    requires Inv(p)
    ensures Inv(q)
  {
    if es == [] then p
    else
      var q := RunFrom(p, es[..|es| - 1]);
      NextKeeps(q, es[|es| - 1]);
      Next(q, es[|es| - 1])
  }

  ghost function AfterRun(size: nat, queueMax: nat, affinity: bool, es: seq<Event>): (p: Pool)
    ensures Inv(p)
  {
    FreshInv(size, queueMax, affinity);
    RunFrom(Fresh(size, queueMax, affinity), es)
  }

  ghost predicate Waiting(p: Pool, t: nat) {
    exists l :: 0 <= l < |p.lanes| && t in p.lanes[l]
  }

  ghost predicate Active(p: Pool, t: nat) {
    exists id :: id in p.pending && p.pending[id].ticket == t
  }

  /**
   After any run in either mode, every submitted job is in exactly one place: waiting in a queue, pending on a
   worker, or settled; and its promise has been settled exactly once in the last case and never in the others.
   */
  lemma ExactlyOnePlace(size: nat, queueMax: nat, affinity: bool, es: seq<Event>, t: nat)
    ensures var p := AfterRun(size, queueMax, affinity, es);
      t < p.submitted ==>
        && (Waiting(p, t) || Active(p, t) || p.resolves[t] == 1)
        && !(Waiting(p, t) && Active(p, t))
        && (Waiting(p, t) || Active(p, t) ==> p.resolves[t] == 0 && t !in p.outcomes)
        && (p.resolves[t] == 1 <==> t in p.outcomes)
  {
    var p := AfterRun(size, queueMax, affinity, es);
    if t < p.submitted {
      match p.status[t]
      case Queued(l) => assert t in p.lanes[l];
      case Pending(id) => assert p.pending[id].ticket == t;
      case Settled =>
    }
  }

  /** A settled promise stays settled with the outcome it got, whatever happens later. */
  lemma {:induction false} OutcomesAreFinal(p: Pool, es: seq<Event>)
    requires Inv(p)
    ensures KeepsOutcomes(p, RunFrom(p, es))
  {
    if es != [] {
      OutcomesAreFinal(p, es[..|es| - 1]);
      OutcomeKept(RunFrom(p, es[..|es| - 1]), es[|es| - 1]);
    }
  }

  lemma SettleKeepsOthers(p: Pool, ts: set<nat>, o: Outcome)
    requires ts !! p.outcomes.Keys
    ensures forall t :: t in p.outcomes ==>
      t in Settle(p, ts, o).outcomes && Settle(p, ts, o).outcomes[t] == p.outcomes[t]
  {
  }

  /** The jobs an event settles were not settled before. */
  lemma UnsettledTickets(p: Pool)
    requires Inv(p)
    ensures Shape(p) && p.submitted !in p.outcomes
    ensures forall id :: id in p.pending ==> p.pending[id].ticket !in p.outcomes
    ensures forall l :: 0 <= l < |p.lanes| ==> LaneTickets(p.lanes[l]) !! p.outcomes.Keys
    ensures AllQueued(p) !! p.outcomes.Keys && TicketsOf(p, p.pending.Keys) !! p.outcomes.Keys
    ensures AllQueued(p) !! TicketsOf(p, p.pending.Keys)
    ensures forall l :: 0 <= l < |p.lanes| ==> LaneTickets(p.lanes[l]) !! TicketsOf(p, p.pending.Keys)
  {
  }

  ghost predicate KeepsOutcomes(p: Pool, q: Pool) {
    forall t :: t in p.outcomes ==> t in q.outcomes && q.outcomes[t] == p.outcomes[t]
  }

  lemma DieKeepsOutcomes(p: Pool, w: nat)
    requires Inv(p) && w < p.workers
    ensures KeepsOutcomes(p, Die(p, w))
  {
    UnsettledTickets(p);
    hide Inv, LaneCap, LaneTickets, AllQueued;
    assert TicketsOf(p, OnWorker(p, w)) <= TicketsOf(p, p.pending.Keys);
  }

  lemma StopKeepsOutcomes(p: Pool)
    requires Inv(p)
    ensures KeepsOutcomes(p, Shutdown(p))
  {
    UnsettledTickets(p);
    DrainKeeps(p);
    UnsettledTickets(DrainQueues(p));
    hide Inv, LaneTickets, AllQueued, Shape, TicketsOf;
    SettleKeepsOthers(p, AllQueued(p), PoolShutdown);
    var q := DrainQueues(p);
    SettleKeepsOthers(q.(pending := map[]), TicketsOf(q, q.pending.Keys), PoolShutdown);
  }

  lemma SubmitKeepsOutcomes(p: Pool, keyId: Option<ByteString>)
    requires Inv(p)
    ensures KeepsOutcomes(p, Submit(p, keyId))
  {
    UnsettledTickets(p);
    hide Inv, LaneCap, LaneTickets, AllQueued, WorkerForKey, TicketsOf;
  }

  lemma AnswerKeepsOutcomes(p: Pool, jobId: nat, reply: ByteString)
    requires Inv(p)
    ensures KeepsOutcomes(p, Answer(p, jobId, reply))
  {
    UnsettledTickets(p);
    hide Inv, LaneCap, LaneTickets, AllQueued, TicketsOf;
  }

  lemma OutcomeKept(p: Pool, e: Event)
    requires Inv(p)
    ensures KeepsOutcomes(p, Next(p, e))
  {
    hide Inv, Submit, Answer, Die, Shutdown;
    match e
    case Run(keyId) => SubmitKeepsOutcomes(p, keyId);
    case Reply(jobId, reply) => AnswerKeepsOutcomes(p, jobId, reply);
    case Error(w) => if w < p.workers { DieKeepsOutcomes(p, w); }
    case Stop => StopKeepsOutcomes(p);
  }

  /**
   Workers are never given a second job, idle workers have none, and a job waits only if no worker it may use
   is idle: no worker at all in round-robin mode, its own worker under affinity.
   */
  lemma WorkersServeOneJob(size: nat, queueMax: nat, affinity: bool, es: seq<Event>, i: nat, j: nat)
    ensures var p := AfterRun(size, queueMax, affinity, es);
      && (i in p.pending && j in p.pending && i != j ==> p.pending[i].worker != p.pending[j].worker)
      && (i in p.pending ==> p.pending[i].worker !in p.idle)
      && (!affinity ==> |p.lanes| == 1 && (p.lanes[0] != [] ==> p.idle == []))
      && (affinity ==> |p.lanes| == |p.busy| && (i < |p.lanes| && p.lanes[i] != [] ==> p.busy[i]))
  {
    hide Inv;
    AfterRunMode(size, queueMax, affinity, es);
    ServesOneJob(AfterRun(size, queueMax, affinity, es), i, j);
  }

  lemma ServesOneJob(p: Pool, i: nat, j: nat)
    requires Inv(p)
    ensures i in p.pending && j in p.pending && i != j ==> p.pending[i].worker != p.pending[j].worker
    ensures i in p.pending ==> p.pending[i].worker !in p.idle
    ensures !p.affinity ==> |p.lanes| == 1 && (p.lanes[0] != [] ==> p.idle == [])
    ensures p.affinity ==> |p.lanes| == |p.busy| && (i < |p.lanes| && p.lanes[i] != [] ==> p.busy[i])
  {
  }

  lemma AfterRunMode(size: nat, queueMax: nat, affinity: bool, es: seq<Event>)
    ensures var p := AfterRun(size, queueMax, affinity, es);
      p.affinity == affinity && p.queueMax == queueMax && p.size == size
  {
    hide Inv;
    FreshInv(size, queueMax, affinity);
    RunMode(Fresh(size, queueMax, affinity), es);
  }

  ghost predicate SameMode(p: Pool, q: Pool) {
    q.affinity == p.affinity && q.queueMax == p.queueMax && q.size == p.size
  }

  lemma SubmitMode(p: Pool, keyId: Option<ByteString>)
    requires Shape(p)
    ensures SameMode(p, Submit(p, keyId))
  {
    hide LaneCap, WorkerForKey;
  }

  lemma AnswerMode(p: Pool, jobId: nat, reply: ByteString)
    requires Shape(p)
    ensures SameMode(p, Answer(p, jobId, reply))
  {
  }

  lemma NextMode(p: Pool, e: Event)
    requires Shape(p)
    ensures SameMode(p, Next(p, e))
  {
    hide Submit, Answer, LaneTickets, AllQueued, TicketsOf, OnWorker;
    match e
    case Run(keyId) => SubmitMode(p, keyId);
    case Reply(jobId, reply) => AnswerMode(p, jobId, reply);
    case Error(w) =>
    case Stop =>
  }

  lemma {:induction false} RunMode(p: Pool, es: seq<Event>)
    requires Inv(p)
    ensures SameMode(p, RunFrom(p, es))
  {
    hide Inv, Next;
    if es != [] {
      RunMode(p, es[..|es| - 1]);
      NextShape(RunFrom(p, es[..|es| - 1]));
      NextMode(RunFrom(p, es[..|es| - 1]), es[|es| - 1]);
    }
  }

  lemma NextShape(p: Pool)
    requires Inv(p)
    ensures Shape(p)
  {
  }

  /** Jobs of one lane reach workers in the order they were submitted, and nothing waiting was overtaken. */
  lemma DispatchedInOrder(size: nat, queueMax: nat, affinity: bool, es: seq<Event>, i: nat, j: nat)
    ensures var p := AfterRun(size, queueMax, affinity, es);
      && (i < j < |p.dispatched| && p.dispatched[i].lane == p.dispatched[j].lane ==>
            p.dispatched[i].ticket < p.dispatched[j].ticket)
      && (i < |p.dispatched| && p.dispatched[i].lane < |p.lanes| && j < |p.lanes[p.dispatched[i].lane]| ==>
            p.dispatched[i].ticket < p.lanes[p.dispatched[i].lane][j])
  {
  }

  function Depth(lanes: seq<seq<nat>>): nat {
    if lanes == [] then 0 else Depth(lanes[..|lanes| - 1]) + |lanes[|lanes| - 1]|
  }

  lemma {:induction false} DepthBound(lanes: seq<seq<nat>>, cap: nat)
    requires forall l :: 0 <= l < |lanes| ==> |lanes[l]| <= cap
    ensures Depth(lanes) <= |lanes| * cap
  {
    if lanes != [] {
      DepthBound(lanes[..|lanes| - 1], cap);
      assert (|lanes| - 1) * cap + cap == |lanes| * cap;
    }
  }

  /** Rounding the per-worker share up costs at most size - 1 places, provided the cap is not 0. */
  lemma ShareBound(queueMax: nat, size: nat)
    requires size > 0
    ensures size * PerQueueMax(queueMax, size) <= queueMax + size - 1 <==> queueMax >= 1
  {
    var share := CeilDiv(queueMax, size);
    assert queueMax + size - 1 == size * share + (queueMax + size - 1) % size;
    if queueMax >= 1 {
      assert share != 0;
    } else {
      assert share == 0;
    }
  }

  /**
   The queue depth never exceeds queueMax in round-robin mode. Under affinity it never exceeds
   queueMax + size - 1, except that a pool built with queueMax = 0 still queues one job per worker.
   */
  lemma DepthIsBounded(size: nat, queueMax: nat, affinity: bool, es: seq<Event>)
    requires size > 0
    ensures var d := Depth(AfterRun(size, queueMax, affinity, es).lanes);
      && (!affinity ==> d <= queueMax)
      && (affinity && queueMax >= 1 ==> d <= queueMax + size - 1)
      && (affinity && queueMax == 0 ==> d <= size)
  {
    var p := AfterRun(size, queueMax, affinity, es);
    AfterRunMode(size, queueMax, affinity, es);
    CappedLanes(p);
    hide Inv, RunFrom, Fresh, AfterRun;
    DepthBound(p.lanes, LaneCap(p));
    LaneCapArithmetic(Depth(p.lanes), |p.lanes|, size, queueMax);
  }

  lemma LaneCapArithmetic(d: nat, lanes: nat, size: nat, queueMax: nat)
    requires size > 0
    ensures lanes <= 1 && d <= lanes * queueMax ==> d <= queueMax
    ensures lanes <= size && d <= lanes * PerQueueMax(queueMax, size) ==>
      d <= if queueMax >= 1 then queueMax + size - 1 else size
  {
    var cap := PerQueueMax(queueMax, size);
    ShareBound(queueMax, size);
    if queueMax == 0 {
      ShareOfNone(size);
    }
    hide PerQueueMax;
    if lanes <= 1 {
      Bits.MulMonotone(queueMax, lanes, 1);
    }
    if lanes <= size {
      Bits.MulMonotone(cap, lanes, size);
    }
  }

  lemma CappedLanes(p: Pool)
    requires Inv(p)
    ensures |p.lanes| <= if p.affinity then p.size else 1
    ensures forall l :: 0 <= l < |p.lanes| ==> |p.lanes[l]| <= LaneCap(p)
  {
  }

  lemma ShareOfNone(size: nat)
    requires size > 0
    ensures PerQueueMax(0, size) == 1
  {
    Bits.DivModUnique(size - 1, size, 0, size - 1);
  }
}
