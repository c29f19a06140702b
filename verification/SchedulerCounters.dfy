/**
 The counters and bounds of the scheduler, in every state of every run: tickets are accounted
 for, the queues stay within their limits, and results never outnumber the units handed out.
 */
module SchedulerCounters {
  import opened SchedulerState

  // ---------------------------------------------------------------- totals over threads

  /** Tickets a thread accounts for: those not spent yet, or one while it loads a unit. */
  function Tickets(th: Thread, remote: bool): nat {
    match th
    case Spawning(r, n) => if r == remote then n else 0
    case Preparer(r, n, _) => if r == remote then n else 0
    case Loader(r, _) => if r == remote then 1 else 0
    case _ => 0
  }

  /** One for a loader that has pushed its unit and not yet given its ticket back. */
  function Pushes(th: Thread, remote: bool): nat {
    if th.Loader? && th.remote == remote && th.load.Pushed? then 1 else 0
  }

  function TotalTickets(threads: seq<Thread>, remote: bool): nat {
    if threads == [] then 0 else TotalTickets(threads[..|threads| - 1], remote) + Tickets(threads[|threads| - 1], remote)
  }

  function TotalPushes(threads: seq<Thread>, remote: bool): nat {
    if threads == [] then 0 else TotalPushes(threads[..|threads| - 1], remote) + Pushes(threads[|threads| - 1], remote)
  }

  lemma {:induction false} TotalsUpdate(threads: seq<Thread>, t: nat, th: Thread, remote: bool)
    requires t < |threads|
    ensures TotalTickets(threads[t := th], remote)
         == TotalTickets(threads, remote) - Tickets(threads[t], remote) + Tickets(th, remote)
    ensures TotalPushes(threads[t := th], remote)
         == TotalPushes(threads, remote) - Pushes(threads[t], remote) + Pushes(th, remote)
    ensures TotalTickets(threads, remote) >= Tickets(threads[t], remote)
  {
    var last := |threads| - 1;
    if t == last {
      assert threads[t := th][..last] == threads[..last];
    } else {
      assert threads[t := th][..last] == threads[..last][t := th];
      TotalsUpdate(threads[..last], t, th, remote);
    }
  }

  lemma {:induction false} PushesBelowTickets(threads: seq<Thread>, remote: bool)
    ensures TotalPushes(threads, remote) <= TotalTickets(threads, remote)
  {
    if threads != [] {
      PushesBelowTickets(threads[..|threads| - 1], remote);
    }
  }

  // ---------------------------------------------------------------- the invariant of a lane

  /** What holds of a lane next to the given totals of tickets and unreleased pushes. */
  ghost predicate LaneInv(lane: Lane, remote: bool, tickets: int, pushes: int) {
    && lane.pending >= 0 && lane.leaked >= 0 && tickets >= 0
    && lane.preparing == tickets + lane.leaked
    && |lane.queue| + lane.preparing - pushes + lane.pending <= lane.peak
    && 0 <= lane.limit <= lane.peak < COUNTER_RANGE
    && lane.preparing + lane.pending < COUNTER_RANGE
    && (!remote ==> lane.preparing + lane.pending <= 1)
  }

  /** Every unit handed out is active, completed, recycled, or was never tracked. */
  ghost predicate Conserved(p: Pools) {
    p.handed == |p.active| + |p.completed| + p.recycled + p.untracked
  }

  ghost predicate CountersInv(s: State) {
    && LaneInv(s.remote, true, TotalTickets(s.threads, true), TotalPushes(s.threads, true))
    && LaneInv(s.local, false, TotalTickets(s.threads, false), TotalPushes(s.threads, false))
    && Conserved(s.pools)
  }

  /** Counting up or down within the range is ordinary arithmetic. */
  lemma CounterInRange(n: int)
    requires 0 <= n < COUNTER_RANGE
    ensures Counter(n) == n
  {
  }

  /** What replacing a thread does to the totals. */
  ghost predicate TotalsMove(threads: seq<Thread>, t: nat, th: Thread, r: bool)
    requires t < |threads|
  {
    && TotalTickets(threads[t := th], r) == TotalTickets(threads, r) - Tickets(threads[t], r) + Tickets(th, r)
    && TotalPushes(threads[t := th], r) == TotalPushes(threads, r) - Pushes(threads[t], r) + Pushes(th, r)
    && TotalTickets(threads, r) >= Tickets(threads[t], r)
  }

  ghost predicate TotalsGrow(threads: seq<Thread>, th: Thread, r: bool) {
    && TotalTickets(threads + [th], r) == TotalTickets(threads, r) + Tickets(th, r)
    && TotalPushes(threads + [th], r) == TotalPushes(threads, r) + Pushes(th, r)
  }

  lemma Moved(threads: seq<Thread>, t: nat, th: Thread)
    requires t < |threads|
    ensures TotalsMove(threads, t, th, true) && TotalsMove(threads, t, th, false)
  {
    TotalsUpdate(threads, t, th, true);
    TotalsUpdate(threads, t, th, false);
  }

  lemma Grown(threads: seq<Thread>, th: Thread)
    ensures TotalsGrow(threads, th, true) && TotalsGrow(threads, th, false)
  {
  }

  // ---------------------------------------------------------------- steps keep it

  lemma ReserveCounts(s: State, a: ReserveAction)
    requires CountersInv(s) && CanReserve(s, a)
    ensures CountersInv(DoReserve(s, a))
  {
    hide TotalTickets, TotalPushes, Counter;
    match a
    case AddTickets(r) =>
      var lane := s.LaneOf(r);
      CounterInRange(lane.preparing + lane.pending);
      Grown(s.threads, Spawning(r, lane.pending));
    case StartPreparer(t) => Moved(s.threads, t, Preparer(s.threads[t].remote, s.threads[t].tickets, Looping));
    case StartPreparerFails(t) => Moved(s.threads, t, Done);
    case _ =>
  }

  lemma StartLoaderCounts(s: State, a: PrepareAction)
    requires CountersInv(s) && CanPrepare(s, a) && a.StartLoader?
    ensures CountersInv(DoPrepare(s, a))
  {
    hide TotalTickets, TotalPushes, Counter, Conserved;
    var th := s.threads[a.t];
    var th' := th.(tickets := th.tickets - 1, prep := Looping);
    Moved(s.threads, a.t, th');
    Grown(s.threads[a.t := th'], Loader(th.remote, Busy(th.prep.w)));
  }

  lemma PrepReleaseCounts(s: State, a: PrepareAction)
    requires CountersInv(s) && CanPrepare(s, a) && a.PrepRelease?
    ensures CountersInv(DoPrepare(s, a))
  {
    hide TotalTickets, TotalPushes, Counter, Conserved;
    var th := s.threads[a.t];
    Moved(s.threads, a.t, Done);
    CounterInRange(s.LaneOf(th.remote).preparing - th.tickets);
  }

  lemma PrepareCounts(s: State, a: PrepareAction)
    requires CountersInv(s) && CanPrepare(s, a)
    ensures CountersInv(DoPrepare(s, a))
  {
    hide CountersInv, DoPrepare;
    match a
    case StartLoader(_) => StartLoaderCounts(s, a);
    case PrepRelease(_) => PrepReleaseCounts(s, a);
    case _ => PrepOtherCounts(s, a);
  }

  lemma PrepOtherCounts(s: State, a: PrepareAction)
    requires CountersInv(s) && CanPrepare(s, a) && !a.StartLoader? && !a.PrepRelease?
    ensures CountersInv(DoPrepare(s, a))
  {
    hide TotalTickets, TotalPushes, LaneInv;
    Moved(s.threads, a.t, DoPrepare(s, a).threads[a.t]);
  }

  lemma LoadCounts(s: State, a: LoadAction)
    requires CountersInv(s) && CanLoad(s, a)
    ensures CountersInv(DoLoad(s, a))
  {
    hide TotalTickets, TotalPushes, Counter;
    var th := s.threads[a.t];
    Moved(s.threads, a.t, if a.LoadRelease? then Done else if a.LoadPush? then th.(load := Pushed) else th.(load := Failed));
    if a.LoadRelease? {
      CounterInRange(s.LaneOf(th.remote).preparing - 1);
    }
  }

  /** The active set takes a unit or refuses it; it cannot have it already. */
  lemma PutActiveCounts(p: Pools, w: Wip)
    requires Conserved(p)
    ensures Conserved(PutActive(p, w).(handed := p.handed + 1))
    ensures PutActive(p, w).handed == p.handed
  {
  }

  /** A return moves one unit out of the active set, or nothing. */
  lemma ReturnCounts(p: Pools, w: Wip, results: bool, front: bool)
    requires Conserved(p)
    ensures Conserved(ReturnUnit(p, w, results, front))
  {
  }

  lemma HandCounts(s: State, a: HandAction)
    requires CountersInv(s) && CanHand(s, a)
    ensures CountersInv(DoHand(s, a))
  {
    hide TotalTickets, TotalPushes, PutActive;
    match a
    case SendPop(h) => Grown(s.threads, Sender(h, Popped(s.remote.queue[0])));
    case GetPop => Grown(s.threads, Getter(s.local.queue[0]));
    case SendActivate(t) =>
      var Copied(w, c) := s.threads[t].send;
      PutActiveCounts(CopyJob(s.pools, w, c), w);
      Moved(s.threads, t, s.threads[t].(send := Activated(c)));
    case GetActivate(t) =>
      PutActiveCounts(CopyJob(s.pools, s.threads[t].w, s.worker), s.threads[t].w);
      Moved(s.threads, t, Done);
    case SendTake(t, w) => Moved(s.threads, t, s.threads[t].(send := Copied(s.threads[t].send.w, w)));
    case SendNew(t) => Moved(s.threads, t, s.threads[t].(send := Copied(s.threads[t].send.w, s.pools.next)));
    case SendRecord(t) => Moved(s.threads, t, Done);
  }

  lemma ReceiveCounts(s: State, a: ReceiveAction)
    requires CountersInv(s) && CanReceive(s, a)
    ensures CountersInv(DoReceive(s, a))
  {
    hide TotalTickets, TotalPushes, ReturnUnit, LaneInv;
    match a
    case Receive(h) => Grown(s.threads, Receiver(Contact(s.pools, h).peers[h], Received));
    case RecvReturn(t, results, front) =>
      ReturnCounts(s.pools, s.threads[t].recv.tmp, results, front);
      Moved(s.threads, t, DoReceive(s, a).threads[t]);
    case _ => Moved(s.threads, a.t, DoReceive(s, a).threads[a.t]);
  }

  lemma KeepCounts(s: State, a: HouseAction)
    requires CountersInv(s) && CanKeep(s, a)
    ensures CountersInv(DoKeep(s, a))
  {
    hide TotalTickets, TotalPushes, ReturnUnit;
    if a.WorkerReturn? {
      ReturnCounts(s.pools, s.worker, a.results, a.front);
    }
  }

  lemma StepKeepsCounters(s: State, a: Action)
    requires CountersInv(s) && Enabled(s, a)
    ensures CountersInv(Apply(s, a))
  {
    hide CountersInv, DoReserve, DoPrepare, DoLoad, DoHand, DoReceive, DoKeep,
         CanReserve, CanPrepare, CanLoad, CanHand, CanReceive, CanKeep;
    match a
    case Reserving(b) => ReserveCounts(s, b);
    case Preparing(b) => PrepareCounts(s, b);
    case Loading(b) => LoadCounts(s, b);
    case Handing(b) => HandCounts(s, b);
    case Receiving(b) => ReceiveCounts(s, b);
    case Housekeeping(b) => KeepCounts(s, b);
  }

  lemma {:induction false} RunKeepsCounters(trace: seq<State>, actions: seq<Action>, n: nat)
    requires Run(trace, actions) && n < |trace|
    ensures CountersInv(trace[n])
  {
    if n > 0 {
      hide CountersInv, Apply, Enabled;
      RunKeepsCounters(trace, actions, n - 1);
      assert Follows(trace[n - 1], actions[n - 1], trace[n]);
      StepKeepsCounters(trace[n - 1], actions[n - 1]);
    }
  }

  // ---------------------------------------------------------------- what it means

  /** In every state of every run the counter of units in preparation is exactly the tickets of
      the live threads, plus those that were lost when a preparer could not be started: it never
      goes below zero or wraps round. */
  lemma TicketsAreAccountedFor(trace: seq<State>, actions: seq<Action>, n: nat, remote: bool)
    requires Run(trace, actions) && n < |trace|
    ensures var s := trace[n];
            s.LaneOf(remote).preparing == TotalTickets(s.threads, remote) + s.LaneOf(remote).leaked
    ensures 0 <= trace[n].LaneOf(remote).preparing < COUNTER_RANGE
  {
    hide Run, TotalTickets, TotalPushes;
    RunKeepsCounters(trace, actions, n);
  }

  /** No thread of the lane is left. */
  ghost predicate Quiet(threads: seq<Thread>, remote: bool) {
    forall t :: 0 <= t < |threads| ==> Tickets(threads[t], remote) == 0
  }

  lemma {:induction false} QuietTotals(threads: seq<Thread>, remote: bool)
    requires Quiet(threads, remote)
    ensures TotalTickets(threads, remote) == 0
  {
    if threads != [] {
      QuietTotals(threads[..|threads| - 1], remote);
    }
  }

  ghost predicate NoStartFails(actions: seq<Action>) {
    forall i :: 0 <= i < |actions| ==> !(actions[i].Reserving? && actions[i].reserving.StartPreparerFails?)
  }

  lemma {:induction false} NothingLeaks(trace: seq<State>, actions: seq<Action>, n: nat)
    requires Run(trace, actions) && n < |trace| && NoStartFails(actions)
    ensures trace[n].remote.leaked == 0 && trace[n].local.leaked == 0
  {
    if n > 0 {
      NothingLeaks(trace, actions, n - 1);
      assert Follows(trace[n - 1], actions[n - 1], trace[n]);
      LeakedOnlyByFailedStarts(trace[n - 1], actions[n - 1]);
    }
  }

  lemma LeakedOnlyByFailedStarts(s: State, a: Action)
    requires Enabled(s, a) && !(a.Reserving? && a.reserving.StartPreparerFails?)
    ensures Apply(s, a).remote.leaked == s.remote.leaked && Apply(s, a).local.leaked == s.local.leaked
  {
    hide PutActive, ReturnUnit;
  }

  /** In every state of every run the queues hold at most as many units as the largest limit ever
      set, and at most one local unit is being prepared. */
  lemma QueuesAreBounded(trace: seq<State>, actions: seq<Action>, n: nat)
    requires Run(trace, actions) && n < |trace|
    ensures |trace[n].remote.queue| <= trace[n].remote.peak
    ensures |trace[n].local.queue| <= trace[n].local.peak
    ensures trace[n].local.preparing <= 1
  {
    hide Run, TotalTickets, TotalPushes;
    RunKeepsCounters(trace, actions, n);
    PushesBelowTickets(trace[n].threads, true);
    PushesBelowTickets(trace[n].threads, false);
  }

  /** No command ever lowers a limit. */
  ghost predicate LimitsNeverLowered(trace: seq<State>, actions: seq<Action>)
    requires |trace| == |actions| + 1
  {
    forall i :: 0 <= i < |actions| ==> Raises(trace[i], actions[i])
  }

  ghost predicate Raises(s: State, a: Action) {
    a.Reserving? && a.reserving.SetLimit? ==> s.LaneOf(a.reserving.remote).limit <= a.reserving.limit
  }

  lemma PeakFollowsLimit(s: State, a: Action)
    requires Enabled(s, a) && Raises(s, a)
    requires s.remote.peak == s.remote.limit && s.local.peak == s.local.limit
    ensures Apply(s, a).remote.peak == Apply(s, a).remote.limit
    ensures Apply(s, a).local.peak == Apply(s, a).local.limit
  {
    hide PutActive, ReturnUnit;
  }

  lemma {:induction false} PeakIsLimit(trace: seq<State>, actions: seq<Action>, n: nat)
    requires Run(trace, actions) && n < |trace| && LimitsNeverLowered(trace, actions)
    ensures trace[n].remote.peak == trace[n].remote.limit
    ensures trace[n].local.peak == trace[n].local.limit
  {
    if n > 0 {
      hide Apply, Enabled;
      PeakIsLimit(trace, actions, n - 1);
      assert Follows(trace[n - 1], actions[n - 1], trace[n]);
      assert Raises(trace[n - 1], actions[n - 1]);
      PeakFollowsLimit(trace[n - 1], actions[n - 1]);
    }
  }

  /** With limits that are never lowered, and so with fixed limits, every state of every run has
      at most max_remote units in the remote queue and max_local in the local one. */
  lemma QueuesStayWithinLimits(trace: seq<State>, actions: seq<Action>, n: nat)
    requires Run(trace, actions) && n < |trace| && LimitsNeverLowered(trace, actions)
    ensures |trace[n].remote.queue| <= trace[n].remote.limit
    ensures |trace[n].local.queue| <= trace[n].local.limit
  {
    hide Run;
    QueuesAreBounded(trace, actions, n);
    PeakIsLimit(trace, actions, n);
  }

  /** In every state of every run, every unit handed out is active, completed, recycled, or was
      refused by the active set; so results never outnumber hand-outs. */
  lemma HandoutsAreConserved(trace: seq<State>, actions: seq<Action>, n: nat)
    requires Run(trace, actions) && n < |trace|
    ensures var p := trace[n].pools;
            p.handed == |p.active| + |p.completed| + p.recycled + p.untracked
    ensures |trace[n].pools.completed| <= trace[n].pools.handed
  {
    hide Run, LaneInv;
    RunKeepsCounters(trace, actions, n);
  }

  /** Returning a unit whose key is not active any more changes nothing. */
  lemma StaleReturnsChangeNothing(p: Pools, w: Wip, results: bool, front: bool)
    requires forall a :: a in p.active ==> Key(p, a) != Key(p, w)
    ensures ReturnUnit(p, w, results, front) == p
  {
  }
}
