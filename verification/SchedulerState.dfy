/**
 The state of the work scheduler (include/redux/daemon.hpp:123-130, src/lib/daemon.cpp:36-43)
 and its moves. The shared containers are in Pools and in one Lane for the remote and one for
 the local queue; every thread that is part-way through an operation is an entry of `threads`.
 One action is one critical section or one update of an atomic counter.
 */
module SchedulerState {
  import opened Wrappers

  /** Identity of a WorkInProgress object. */
  type Wip = nat
  type Host = nat
  type Job = nat

  const COUNTER_RANGE: int := 0x1_0000

  /** Arithmetic of std::atomic<uint16_t>. */
  function Counter(n: int): int {
    n % COUNTER_RANGE
  }

  /** A bounded queue with its counter of units in preparation. `pending` are tickets the
      reserver has computed and not yet added; `leaked` and `peak` are history: tickets whose
      preparer was never started, and the largest limit that was ever set. */
  datatype Lane = Lane(queue: seq<Wip>, preparing: int, limit: int, pending: int, leaked: int, peak: int)

  /** The other shared containers. `job` tells which job an object refers to, `next` is the next
      object to be allocated. `handed`, `untracked` and `recycled` are history: units handed out, those
      of them that the active set refused, and those that were returned without results. */
  datatype Pools = Pools(idle: set<Wip>, active: set<Wip>, completed: seq<Wip>, peers: map<Host, Wip>,
                         job: map<Wip, Job>, next: Wip,
                         handed: nat, untracked: nat, recycled: nat)

  datatype PrepPhase = Looping | Holding(w: Wip) | Ready(w: Wip) | Exiting
  datatype LoadPhase = Busy(w: Wip) | Pushed | Failed
  datatype SendPhase = Popped(w: Wip) | Copied(w: Wip, copy: Wip) | Activated(copy: Wip)
  datatype RecvPhase = Received | WithTmp(tmp: Wip) | WithBoth(tmp: Wip, bak: Wip) | Unpacked(tmp: Wip, bak: Wip)
                     | Settled(tmp: Wip, bak: Wip) | OnlyBak(bak: Wip)

  datatype Thread =
    | Spawning(remote: bool, tickets: nat)                  // the reserver, between += and the new thread
    | Preparer(remote: bool, tickets: nat, prep: PrepPhase) // prepareRemoteWork, prepareLocalWork
    | Loader(remote: bool, load: LoadPhase)                 // the detached thread that loads the parts
    | Sender(host: Host, send: SendPhase)                   // sendWork
    | Getter(w: Wip)                                        // the local worker, inside getWork
    | Receiver(alias: Wip, recv: RecvPhase)                 // putParts
    | Done

  datatype State = State(remote: Lane, local: Lane, pools: Pools, threads: seq<Thread>, worker: Wip)
  {
    function LaneOf(isRemote: bool): Lane {
      if isRemote then remote else local
    }

    function WithLane(isRemote: bool, lane: Lane): State {
      if isRemote then this.(remote := lane) else this.(local := lane)
    }

    function WithThread(t: nat, th: Thread): State
      requires t < |threads|
    {
      this.(threads := threads[t := th])
    }

    function Spawn(th: Thread): State {
      this.(threads := threads + [th])
    }
  }

  // ---------------------------------------------------------------- moves on the pools

  /** What orders the active set: WorkInProgress::operator< compares nothing but the jobs. */
  function Key(p: Pools, w: Wip): Option<Job> {
    if w in p.job then Some(p.job[w]) else None
  }

  /** getIdleWIP, when the pool has objects. */
  function TakeIdle(p: Pools, w: Wip): Pools
    requires w in p.idle
  {
    p.(idle := p.idle - {w})
  }

  /** getIdleWIP, when the pool is empty: a new object. */
  function Allocate(p: Pools): Pools {
    p.(next := p.next + 1, job := p.job - {p.next})
  }

  /** putIdleWIP: the object is reset and pooled. */
  function PutIdle(p: Pools, w: Wip): Pools {
    p.(idle := p.idle + {w}, job := p.job - {w})
  }

  /** Assignment between objects, as far as the job goes. */
  function CopyJob(p: Pools, from: Wip, to: Wip): Pools {
    if from in p.job then p.(job := p.job[to := p.job[from]]) else p.(job := p.job - {to})
  }

  /** An active unit with the same key, if there is one. */
  ghost function Equivalent(p: Pools, w: Wip): (r: Option<Wip>)
    ensures r.Some? ==> r.value in p.active && Key(p, r.value) == Key(p, w)
    ensures r.None? ==> forall a :: a in p.active ==> Key(p, a) != Key(p, w)
  {
    if exists a :: a in p.active && Key(p, a) == Key(p, w)
    then var a :| a in p.active && Key(p, a) == Key(p, w); Some(a)
    else None
  }

  /** putActiveWIP: the set takes a unit only if no equivalent unit is in it. */
  ghost function PutActive(p: Pools, w: Wip): Pools {
    if Equivalent(p, w).Some? then p.(untracked := p.untracked + 1) else p.(active := p.active + {w})
  }

  /** returnWork: the equivalent active unit leaves the active set, for the completed list if
      there are results (at its front for local units) and for the idle pool otherwise. */
  ghost function ReturnUnit(p: Pools, w: Wip, results: bool, front: bool): Pools {
    match Equivalent(p, w)
    case None => p
    case Some(a) =>
      var q := p.(active := p.active - {a});
      if results then
        CopyJob(q, w, a).(completed := if front then [a] + q.completed else q.completed + [a])
      else
        PutIdle(q, a).(recycled := q.recycled + 1)
  }

  /** getWIP: the host's entry, made on first contact. */
  function Contact(p: Pools, h: Host): Pools {
    if h in p.peers then p else Allocate(p).(peers := p.peers[h := p.next])
  }

  // ---------------------------------------------------------------- moves on a lane

  /** How many units the reserver wants to prepare: all that is missing remotely, one at a time
      locally. */
  function Wanted(lane: Lane, isRemote: bool): int {
    if isRemote then lane.limit - |lane.queue| - lane.preparing
    else if lane.preparing == 0 && |lane.queue| + lane.preparing < lane.limit then 1 else 0
  }

  // ---------------------------------------------------------------- actions

  datatype Action =
    | Reserving(reserving: ReserveAction)
    | Preparing(preparing: PrepareAction)
    | Loading(loading: LoadAction)
    | Handing(handing: HandAction)
    | Receiving(receiving: ReceiveAction)
    | Housekeeping(housekeeping: HouseAction)

  /** Steps of the reserver, prepareWork, and the commands that set its limits. */
  datatype ReserveAction =
    | Reserve(remote: bool)
    | AddTickets(remote: bool)
    | StartPreparer(t: nat)
    | StartPreparerFails(t: nat)
    | SetLimit(remote: bool, limit: nat)

  /** Steps of prepareRemoteWork and prepareLocalWork. */
  datatype PrepareAction =
    | PrepTake(t: nat, w: Wip)
    | PrepNew(t: nat)
    | PrepGotWork(t: nat, job: Job)
    | PrepNoWork(t: nat)
    | PrepLeave(t: nat)
    | StartLoader(t: nat)
    | StartLoaderFails(t: nat)
    | PrepRelease(t: nat)

  /** Steps of the detached loader threads. */
  datatype LoadAction =
    | LoadPush(t: nat)
    | LoadFails(t: nat)
    | LoadRelease(t: nat)

  /** Steps of sendWork, and getWork of the local worker. */
  datatype HandAction =
    | SendPop(host: Host)
    | SendTake(t: nat, w: Wip)
    | SendNew(t: nat)
    | SendActivate(t: nat)
    | SendRecord(t: nat)
    | GetPop
    | GetActivate(t: nat)

  /** Steps of putParts and its posted task. */
  datatype ReceiveAction =
    | Receive(host: Host)
    | RecvTake(t: nat, w: Wip)
    | RecvNew(t: nat)
    | RecvUnpack(t: nat)
    | RecvReturn(t: nat, results: bool, front: bool)
    | RecvFails(t: nat)
    | RecvPutTmp(t: nat)
    | RecvPutBak(t: nat)

  /** Steps of new connections, the local worker giving its unit back, and cleanup. */
  datatype HouseAction =
    | HostSeen(host: Host)
    | WorkerReturn(results: bool, front: bool)
    | Reap(hosts: set<Host>, failed: set<Host>)

  predicate IsPrep(s: State, t: nat) { t < |s.threads| && s.threads[t].Preparer? }
  predicate IsSend(s: State, t: nat) { t < |s.threads| && s.threads[t].Sender? }
  predicate IsRecv(s: State, t: nat) { t < |s.threads| && s.threads[t].Receiver? }

  predicate CanReserve(s: State, a: ReserveAction) {
    match a
    case Reserve(r) => s.LaneOf(r).pending == 0 && Wanted(s.LaneOf(r), r) > 0
    case AddTickets(r) => s.LaneOf(r).pending > 0
    case StartPreparer(t) => t < |s.threads| && s.threads[t].Spawning?
    case StartPreparerFails(t) => t < |s.threads| && s.threads[t].Spawning?
    case SetLimit(_, n) => n < COUNTER_RANGE
  }

  ghost function DoReserve(s: State, a: ReserveAction): State
    requires CanReserve(s, a)
  {
    match a
    case Reserve(r) =>
      s.WithLane(r, s.LaneOf(r).(pending := Wanted(s.LaneOf(r), r)))
    case AddTickets(r) =>
      var lane := s.LaneOf(r);
      s.WithLane(r, lane.(preparing := Counter(lane.preparing + lane.pending), pending := 0))
       .Spawn(Spawning(r, lane.pending))
    case StartPreparer(t) =>
      s.WithThread(t, Preparer(s.threads[t].remote, s.threads[t].tickets, Looping))
    case StartPreparerFails(t) =>
      var lane := s.LaneOf(s.threads[t].remote);
      s.WithLane(s.threads[t].remote, lane.(leaked := lane.leaked + s.threads[t].tickets)).WithThread(t, Done)
    case SetLimit(r, n) =>
      var lane := s.LaneOf(r);
      s.WithLane(r, lane.(limit := n, peak := if n > lane.peak then n else lane.peak))
  }

  predicate CanPrepare(s: State, a: PrepareAction) {
    match a
    case PrepTake(t, w) => IsPrep(s, t) && s.threads[t].prep.Looping? && s.threads[t].tickets > 0 && w in s.pools.idle
    case PrepNew(t) => IsPrep(s, t) && s.threads[t].prep.Looping? && s.threads[t].tickets > 0 && s.pools.idle == {}
    case PrepGotWork(t, _) => IsPrep(s, t) && s.threads[t].prep.Holding?
    case PrepNoWork(t) => IsPrep(s, t) && s.threads[t].prep.Holding?
    case PrepLeave(t) => IsPrep(s, t) && s.threads[t].prep.Looping?
    case StartLoader(t) => IsPrep(s, t) && s.threads[t].prep.Ready? && s.threads[t].tickets > 0
    case StartLoaderFails(t) => IsPrep(s, t) && s.threads[t].prep.Ready?
    case PrepRelease(t) => IsPrep(s, t) && s.threads[t].prep.Exiting?
  }

  ghost function DoPrepare(s: State, a: PrepareAction): State
    requires CanPrepare(s, a)
  {
    match a
    case PrepTake(t, w) =>
      s.(pools := TakeIdle(s.pools, w)).WithThread(t, s.threads[t].(prep := Holding(w)))
    case PrepNew(t) =>
      s.(pools := Allocate(s.pools)).WithThread(t, s.threads[t].(prep := Holding(s.pools.next)))
    case PrepGotWork(t, j) =>
      var w := s.threads[t].prep.w;
      s.(pools := s.pools.(job := s.pools.job[w := j])).WithThread(t, s.threads[t].(prep := Ready(w)))
    case PrepNoWork(t) =>
      s.(pools := PutIdle(s.pools, s.threads[t].prep.w)).WithThread(t, s.threads[t].(prep := Exiting))
    case PrepLeave(t) =>
      s.WithThread(t, s.threads[t].(prep := Exiting))
    case StartLoader(t) =>
      var th := s.threads[t];
      s.WithThread(t, th.(tickets := th.tickets - 1, prep := Looping)).Spawn(Loader(th.remote, Busy(th.prep.w)))
    case StartLoaderFails(t) =>
      s.WithThread(t, s.threads[t].(prep := Exiting))
    case PrepRelease(t) =>
      var th := s.threads[t];
      var lane := s.LaneOf(th.remote);
      s.WithLane(th.remote, lane.(preparing := Counter(lane.preparing - th.tickets))).WithThread(t, Done)
  }

  predicate CanLoad(s: State, a: LoadAction) {
    match a
    case LoadPush(t) => t < |s.threads| && s.threads[t].Loader? && s.threads[t].load.Busy?
    case LoadFails(t) => t < |s.threads| && s.threads[t].Loader? && s.threads[t].load.Busy?
    case LoadRelease(t) => t < |s.threads| && s.threads[t].Loader? && !s.threads[t].load.Busy?
  }

  ghost function DoLoad(s: State, a: LoadAction): State
    requires CanLoad(s, a)
  {
    match a
    case LoadPush(t) =>
      var th := s.threads[t];
      var lane := s.LaneOf(th.remote);
      s.WithLane(th.remote, lane.(queue := lane.queue + [th.load.w])).WithThread(t, th.(load := Pushed))
    case LoadFails(t) =>
      s.WithThread(t, s.threads[t].(load := Failed))
    case LoadRelease(t) =>
      var th := s.threads[t];
      var lane := s.LaneOf(th.remote);
      s.WithLane(th.remote, lane.(preparing := Counter(lane.preparing - 1))).WithThread(t, Done)
  }

  predicate CanHand(s: State, a: HandAction) {
    match a
    case SendPop(_) => s.remote.queue != []
    case SendTake(t, w) => IsSend(s, t) && s.threads[t].send.Popped? && w in s.pools.idle
    case SendNew(t) => IsSend(s, t) && s.threads[t].send.Popped? && s.pools.idle == {}
    case SendActivate(t) => IsSend(s, t) && s.threads[t].send.Copied?
    case SendRecord(t) => IsSend(s, t) && s.threads[t].send.Activated?
    case GetPop => s.local.queue != []
    case GetActivate(t) => t < |s.threads| && s.threads[t].Getter?
  }

  ghost function DoHand(s: State, a: HandAction): State
    requires CanHand(s, a)
  {
    match a
    case SendPop(h) =>
      s.(remote := s.remote.(queue := s.remote.queue[1..])).Spawn(Sender(h, Popped(s.remote.queue[0])))
    case SendTake(t, w) =>
      s.(pools := TakeIdle(s.pools, w)).WithThread(t, s.threads[t].(send := Copied(s.threads[t].send.w, w)))
    case SendNew(t) =>
      s.(pools := Allocate(s.pools)).WithThread(t, s.threads[t].(send := Copied(s.threads[t].send.w, s.pools.next)))
    case SendActivate(t) =>
      var Copied(w, c) := s.threads[t].send;
      var p := PutActive(CopyJob(s.pools, w, c), w);
      s.(pools := p.(handed := p.handed + 1)).WithThread(t, s.threads[t].(send := Activated(c)))
    case SendRecord(t) =>
      s.(pools := s.pools.(peers := s.pools.peers[s.threads[t].host := s.threads[t].send.copy])).WithThread(t, Done)
    case GetPop =>
      s.(local := s.local.(queue := s.local.queue[1..])).Spawn(Getter(s.local.queue[0]))
    case GetActivate(t) =>
      var w := s.threads[t].w;
      var p := PutActive(CopyJob(s.pools, w, s.worker), w);
      s.(pools := p.(handed := p.handed + 1)).WithThread(t, Done)
  }

  predicate CanReceive(s: State, a: ReceiveAction) {
    match a
    case Receive(_) => true
    case RecvTake(t, w) => IsRecv(s, t) && (s.threads[t].recv.Received? || s.threads[t].recv.WithTmp?) && w in s.pools.idle
    case RecvNew(t) => IsRecv(s, t) && (s.threads[t].recv.Received? || s.threads[t].recv.WithTmp?) && s.pools.idle == {}
    case RecvUnpack(t) => IsRecv(s, t) && s.threads[t].recv.WithBoth?
    case RecvReturn(t, _, _) => IsRecv(s, t) && s.threads[t].recv.Unpacked?
    case RecvFails(t) => IsRecv(s, t) && s.threads[t].recv.Unpacked?
    case RecvPutTmp(t) => IsRecv(s, t) && s.threads[t].recv.Settled?
    case RecvPutBak(t) => IsRecv(s, t) && s.threads[t].recv.OnlyBak?
  }

  ghost function DoReceive(s: State, a: ReceiveAction): State
    requires CanReceive(s, a)
  {
    match a
    case Receive(h) =>
      var p := Contact(s.pools, h);
      s.(pools := p).Spawn(Receiver(p.peers[h], Received))
    case RecvTake(t, w) =>
      s.(pools := TakeIdle(s.pools, w)).WithThread(t, WithOneMore(s.threads[t], w))
    case RecvNew(t) =>
      s.(pools := Allocate(s.pools)).WithThread(t, WithOneMore(s.threads[t], s.pools.next))
    case RecvUnpack(t) =>
      var th := s.threads[t];
      var WithBoth(tmp, bak) := th.recv;
      var p := CopyJob(CopyJob(s.pools, th.alias, bak), th.alias, tmp);
      s.(pools := p.(job := p.job - {th.alias})).WithThread(t, th.(recv := Unpacked(tmp, bak)))
    case RecvReturn(t, results, front) =>
      var Unpacked(tmp, bak) := s.threads[t].recv;
      s.(pools := ReturnUnit(s.pools, tmp, results, front)).WithThread(t, s.threads[t].(recv := Settled(tmp, bak)))
    case RecvFails(t) =>
      var Unpacked(tmp, bak) := s.threads[t].recv;
      s.(pools := s.pools.(job := s.pools.job - {bak})).WithThread(t, s.threads[t].(recv := Settled(tmp, bak)))
    case RecvPutTmp(t) =>
      var Settled(tmp, bak) := s.threads[t].recv;
      s.(pools := PutIdle(s.pools, tmp)).WithThread(t, s.threads[t].(recv := OnlyBak(bak)))
    case RecvPutBak(t) =>
      s.(pools := PutIdle(s.pools, s.threads[t].recv.bak)).WithThread(t, Done)
  }

  predicate CanKeep(s: State, a: HouseAction) {
    match a
    case HostSeen(_) => true
    case WorkerReturn(_, _) => true
    case Reap(hosts, failed) => failed <= hosts <= s.pools.peers.Keys
  }

  ghost function DoKeep(s: State, a: HouseAction): State
    requires CanKeep(s, a)
  {
    match a
    case HostSeen(h) =>
      s.(pools := Contact(s.pools, h))
    case WorkerReturn(results, front) =>
      s.(pools := ReturnUnit(s.pools, s.worker, results, front))
    case Reap(hosts, failed) =>
      var p := s.pools;
      s.(pools := p.(peers := p.peers - hosts, job := p.job - set h | h in failed :: p.peers[h]))
  }

  /** When an action can happen. */
  predicate Enabled(s: State, a: Action) {
    match a
    case Reserving(b) => CanReserve(s, b)
    case Preparing(b) => CanPrepare(s, b)
    case Loading(b) => CanLoad(s, b)
    case Handing(b) => CanHand(s, b)
    case Receiving(b) => CanReceive(s, b)
    case Housekeeping(b) => CanKeep(s, b)
  }

  /** The state after an action. */
  ghost function Apply(s: State, a: Action): State
    requires Enabled(s, a)
  {
    match a
    case Reserving(b) => DoReserve(s, b)
    case Preparing(b) => DoPrepare(s, b)
    case Loading(b) => DoLoad(s, b)
    case Handing(b) => DoHand(s, b)
    case Receiving(b) => DoReceive(s, b)
    case Housekeeping(b) => DoKeep(s, b)
  }

  /** The action returns a unit. */
  predicate IsReturn(a: Action) {
    (a.Receiving? && a.receiving.RecvReturn?) || (a.Housekeeping? && a.housekeeping.WorkerReturn?)
  }

  predicate NoReturns(actions: seq<Action>) {
    forall i :: 0 <= i < |actions| ==> !IsReturn(actions[i])
  }

  /** putParts takes its two scratch objects one after the other. */
  function WithOneMore(th: Thread, w: Wip): Thread
    requires th.Receiver? && (th.recv.Received? || th.recv.WithTmp?)
  {
    if th.recv.Received? then th.(recv := WithTmp(w)) else th.(recv := WithBoth(th.recv.tmp, w))
  }

  /** The daemon as constructed: empty containers, limits of 50 and 5, and the worker's object. */
  function Start(): State {
    State(Lane([], 0, 50, 0, 0, 50), Lane([], 0, 5, 0, 0, 5),
          Pools({}, {}, [], map[], map[], 1, 0, 0, 0), [], 0)
  }

  /** `trace` is a run: a sequence of states from the start, each got from the one before it by
      an enabled action. */
  ghost predicate Run(trace: seq<State>, actions: seq<Action>) {
    && |trace| == |actions| + 1 && trace[0] == Start()
    && forall i :: 0 <= i < |actions| ==> Follows(trace[i], actions[i], trace[i + 1])
  }

  ghost predicate Follows(s: State, a: Action, s': State) {
    Enabled(s, a) && s' == Apply(s, a)
  }
}
