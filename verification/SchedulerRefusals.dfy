/**
 The active set is ordered by job alone (src/lib/work.cpp:235-247), so it refuses a unit while
 another unit of the same job is active (src/lib/daemon.cpp:1863-1870, 1962-2018). This module
 counts the refusals, says what they cost, and shows a run that loses a result.
 */
module SchedulerRefusals {
  import opened Wrappers
  import opened SchedulerState
  import opened SchedulerPlaces
  import opened SchedulerCounters
  import opened SchedulerFaults

  /** What countActiveWIP tells of a unit: an active unit has its key. */
  ghost predicate JobIsActive(p: Pools, w: Wip) {
    exists x :: x in p.active && Key(p, x) == Key(p, w)
  }

  /** The unit that a step hands to the active set. */
  function HandedUnit(s: State, a: HandAction): Option<Wip>
    requires CanHand(s, a)
  {
    match a
    case SendActivate(t) => Some(s.threads[t].send.w)
    case GetActivate(t) => Some(s.threads[t].w)
    case _ => None
  }

  /** The step hands out a unit of a job that is active already. */
  ghost predicate Refused(s: State, a: Action) {
    && a.Handing? && CanHand(s, a.handing)
    && var w := HandedUnit(s, a.handing);
       w.Some? && JobIsActive(s.pools, w.value)
  }

  ghost function Refusals(trace: seq<State>, actions: seq<Action>, n: nat): nat
    requires n <= |actions| < |trace|
  {
    if n == 0 then 0
    else Refusals(trace, actions, n - 1) + if Refused(trace[n - 1], actions[n - 1]) then 1 else 0
  }

  // ---------------------------------------------------------------- counting

  /** Copying a unit's job to an object that is not active does not change what is active. */
  lemma CopyLeavesKeys(p: Pools, w: Wip, c: Wip)
    requires c !in p.active && c != w
    ensures Equivalent(CopyJob(p, w, c), w).Some? <==> JobIsActive(p, w)
  {
    var q := CopyJob(p, w, c);
    assert forall x :: x != c ==> Key(q, x) == Key(p, x);
  }

  lemma ActivateUntracked(s: State, m: map<Wip, Place>, a: HandAction)
    requires PlacesInv(s, m) && CanHand(s, a) && (a.SendActivate? || a.GetActivate?)
    ensures DoHand(s, a).pools.untracked
         == s.pools.untracked + if JobIsActive(s.pools, HandedUnit(s, a).value) then 1 else 0
  {
    hide JobIsActive, Equivalent, Placed, OnePerJob;
    ActiveIsKnown(s, m);
    assert ThreadAt(m, s.threads[a.t], a.t);
    WorkerIsKnown(s, m);
    var w, c := HandedUnit(s, a).value, if a.SendActivate? then s.threads[a.t].send.copy else s.worker;
    CopyLeavesKeys(s.pools, w, c);
  }

  lemma WorkerIsKnown(s: State, m: map<Wip, Place>)
    requires Placed(s, m)
    ensures Is(m, s.worker, AtWorker)
  {
  }

  lemma ReturnUntracked(p: Pools, w: Wip, results: bool, front: bool)
    ensures ReturnUnit(p, w, results, front).untracked == p.untracked
  {
  }

  lemma OtherUntracked(s: State, a: Action)
    requires Enabled(s, a) && !(a.Handing? && (a.handing.SendActivate? || a.handing.GetActivate?))
    ensures Apply(s, a).pools.untracked == s.pools.untracked
  {
    hide ReturnUnit, PutActive;
    match a
    case Receiving(RecvReturn(t, results, front)) => ReturnUntracked(s.pools, s.threads[t].recv.tmp, results, front);
    case Housekeeping(WorkerReturn(results, front)) => ReturnUntracked(s.pools, s.worker, results, front);
    case _ =>
  }

  lemma UntrackedStep(s: State, m: map<Wip, Place>, a: Action)
    requires PlacesInv(s, m) && Enabled(s, a)
    ensures Apply(s, a).pools.untracked == s.pools.untracked + if Refused(s, a) then 1 else 0
  {
    hide PlacesInv, CanHand, DoHand, JobIsActive;
    if a.Handing? && (a.handing.SendActivate? || a.handing.GetActivate?) {
      ActivateUntracked(s, m, a.handing);
    } else {
      hide Apply, Enabled;
      OtherUntracked(s, a);
    }
  }

  /** In every state of every run, the units that were handed out untracked are exactly those
      whose job was active at that moment. */
  lemma {:induction false} UntrackedAreTheRefused(trace: seq<State>, actions: seq<Action>, n: nat)
    requires Run(trace, actions) && n < |trace|
    ensures trace[n].pools.untracked == Refusals(trace, actions, n)
  {
    if n > 0 {
      hide Apply, Enabled, Refused, PlacesInv;
      UntrackedAreTheRefused(trace, actions, n - 1);
      assert Follows(trace[n - 1], actions[n - 1], trace[n]);
      var m := RunKeepsPlaces(trace, actions, n - 1);
      UntrackedStep(trace[n - 1], m, actions[n - 1]);
    }
  }

  lemma {:induction false} NoRefusals(trace: seq<State>, actions: seq<Action>, n: nat)
    requires n <= |actions| < |trace|
    ensures Refusals(trace, actions, n) == 0 <==> forall i :: 0 <= i < n ==> !Refused(trace[i], actions[i])
  {
    hide Refused;
    if n > 0 {
      NoRefusals(trace, actions, n - 1);
    }
  }

  /** Every unit is tracked exactly when none was handed out while its job was active. */
  lemma AllTrackedExactly(trace: seq<State>, actions: seq<Action>, n: nat)
    requires Run(trace, actions) && n < |trace|
    ensures trace[n].pools.untracked == 0 <==> forall i :: 0 <= i < n ==> !Refused(trace[i], actions[i])
  {
    hide Follows, Refused, Refusals;
    UntrackedAreTheRefused(trace, actions, n);
    NoRefusals(trace, actions, n);
  }

  /** Each refusal is a result that the completed list never gets. */
  lemma RefusedResultsAreMissing(trace: seq<State>, actions: seq<Action>, n: nat)
    requires Run(trace, actions) && n < |trace|
    ensures |trace[n].pools.completed| + Refusals(trace, actions, n) <= trace[n].pools.handed
  {
    hide Run, Refusals;
    UntrackedAreTheRefused(trace, actions, n);
    HandoutsAreConserved(trace, actions, n);
  }

  // ---------------------------------------------------------------- what is lost

  /** Of two returns with the same key, the second finds nothing, whatever either carries. */
  lemma SecondReturnChangesNothing(p: Pools, w: Wip, v: Wip, results: bool, front: bool, results': bool, front': bool)
    requires OnePerJob(p) && Key(p, w) == Key(p, v) && w !in p.active && v !in p.active
    ensures var q := ReturnUnit(p, w, results, front);
            ReturnUnit(q, v, results', front') == q
  {
    var q := ReturnUnit(p, w, results, front);
    if e :| Equivalent(p, w) == Some(e) {
      assert q.active == p.active - {e};
      assert Key(q, v) == Key(p, v);
      assert forall a :: a in q.active ==> Key(q, a) == Key(p, a);
    }
  }

  /** Two units of a job are handed out, and both come back with results in objects of their own:
      the completed list grows by one. */
  lemma OneResultOfTwo(p: Pools, u: Wip, u': Wip, w: Wip, v: Wip, front: bool, front': bool)
    requires OnePerJob(p) && !JobIsActive(p, u) && u !in p.active
    requires Key(p, u) == Key(p, u') == Key(p, w) == Key(p, v)
    requires u != u' && w !in p.active + {u} && v !in p.active + {u}
    ensures var q := PutActive(PutActive(p, u), u');
            && q.untracked == p.untracked + 1
            && |ReturnUnit(ReturnUnit(q, w, true, front), v, true, front').completed| == |p.completed| + 1
  {
    hide Equivalent, OnePerJob;
    var p1 := PutActive(p, u);
    FirstIsTaken(p, u);
    PutActiveKeepsKeys(p, u);
    SecondIsRefused(p1, u, u');
    var q := PutActive(p1, u');
    assert q == p1.(untracked := p1.untracked + 1);
    SameKeys(p1, q);
    MatchReturns(q, w, front, u);
    SecondReturnChangesNothing(q, w, v, true, front, true, front');
  }

  lemma FirstIsTaken(p: Pools, u: Wip)
    requires !JobIsActive(p, u)
    ensures PutActive(p, u) == p.(active := p.active + {u})
  {
  }

  lemma SecondIsRefused(p: Pools, u: Wip, u': Wip)
    requires u in p.active && Key(p, u) == Key(p, u')
    ensures PutActive(p, u') == p.(untracked := p.untracked + 1)
  {
  }

  lemma MatchReturns(p: Pools, w: Wip, front: bool, u: Wip)
    requires u in p.active && Key(p, u) == Key(p, w)
    ensures |ReturnUnit(p, w, true, front).completed| == |p.completed| + 1
  {
  }

  // ---------------------------------------------------------------- a run that loses a result

  lemma PlayNext(s: State, actions: seq<Action>, s1: State, a: Action, s2: State)
    requires Play(s, actions) == Some(s1) && Enabled(s1, a) && Apply(s1, a) == s2
    ensures Play(s, actions + [a]) == Some(s2)
  {
    hide Apply, Enabled, Play;
    PlayOne(s1, a);
    PlayBoth(s, actions, [a], s1);
  }

  lemma PlayNothing(s: State)
    ensures Play(s, []) == Some(s)
  {
  }

  /** A preparer with tickets and an empty idle pool makes a unit of job `j`, which is queued. */
  lemma PrepareUnit(s: State, t: nat, k: nat, j: Job) returns (actions: seq<Action>)
    requires t < |s.threads| && s.threads[t] == Preparer(true, k, Looping) && k > 0 && s.pools.idle == {}
    ensures NoReturns(actions)
    ensures var w := s.pools.next;
            Play(s, actions) == Some(s.(
              remote := s.remote.(queue := s.remote.queue + [w]),
              pools := s.pools.(next := w + 1, job := s.pools.job[w := j]),
              threads := s.threads[t := Preparer(true, k - 1, Looping)] + [Loader(true, Pushed)]))
  {
    hide Play;
    var w, n := s.pools.next, |s.threads|;
    var p1 := s.pools.(next := w + 1, job := s.pools.job - {w});
    var p2 := s.pools.(next := w + 1, job := s.pools.job[w := j]);
    assert p1.job[w := j] == p2.job;
    var s1 := s.(pools := p1, threads := s.threads[t := Preparer(true, k, Holding(w))]);
    var s2 := s.(pools := p2, threads := s.threads[t := Preparer(true, k, Ready(w))]);
    var s3 := s.(pools := p2, threads := s.threads[t := Preparer(true, k - 1, Looping)] + [Loader(true, Busy(w))]);
    var s4 := s.(remote := s.remote.(queue := s.remote.queue + [w]), pools := p2,
                 threads := s.threads[t := Preparer(true, k - 1, Looping)] + [Loader(true, Pushed)]);
    PlayNothing(s);
    PlayNext(s, [], s, Preparing(PrepNew(t)), s1);
    PlayNext(s, [] + [Preparing(PrepNew(t))], s1, Preparing(PrepGotWork(t, j)), s2);
    PlayNext(s, [] + [Preparing(PrepNew(t))] + [Preparing(PrepGotWork(t, j))], s2, Preparing(StartLoader(t)), s3);
    actions := [] + [Preparing(PrepNew(t))] + [Preparing(PrepGotWork(t, j))] + [Preparing(StartLoader(t))];
    PlayNext(s, actions, s3, Loading(LoadPush(n)), s4);
    actions := actions + [Loading(LoadPush(n))];
  }

  /** A host asks for work, and is handed the first unit of the queue. */
  lemma SendUnit(s: State, h: Host) returns (actions: seq<Action>)
    requires s.remote.queue != [] && s.pools.idle == {}
    ensures NoReturns(actions)
    ensures var w, c := s.remote.queue[0], s.pools.next;
            var p := PutActive(CopyJob(Allocate(s.pools), w, c), w);
            Play(s, actions) == Some(s.(
              remote := s.remote.(queue := s.remote.queue[1..]),
              pools := p.(handed := p.handed + 1, peers := p.peers[h := c]),
              threads := s.threads + [Done]))
  {
    hide Play, PutActive, CopyJob;
    var w, c, t := s.remote.queue[0], s.pools.next, |s.threads|;
    var p := PutActive(CopyJob(Allocate(s.pools), w, c), w);
    var lane := s.remote.(queue := s.remote.queue[1..]);
    var s1 := s.(remote := lane, threads := s.threads + [Sender(h, Popped(w))]);
    var s2 := s1.(pools := Allocate(s.pools), threads := s.threads + [Sender(h, Copied(w, c))]);
    var s3 := s1.(pools := p.(handed := p.handed + 1), threads := s.threads + [Sender(h, Activated(c))]);
    var s4 := s1.(pools := p.(handed := p.handed + 1, peers := p.peers[h := c]), threads := s.threads + [Done]);
    PlayNothing(s);
    PlayNext(s, [], s, Handing(SendPop(h)), s1);
    PlayNext(s, [] + [Handing(SendPop(h))], s1, Handing(SendNew(t)), s2);
    PlayNext(s, [] + [Handing(SendPop(h))] + [Handing(SendNew(t))], s2, Handing(SendActivate(t)), s3);
    actions := [] + [Handing(SendPop(h))] + [Handing(SendNew(t))] + [Handing(SendActivate(t))];
    PlayNext(s, actions, s3, Handing(SendRecord(t)), s4);
    actions := actions + [Handing(SendRecord(t))];
  }

  /** What the containers are when a host's results have been unpacked. */
  ghost function UnpackedPools(p: Pools, alias: Wip): Pools {
    var q := CopyJob(CopyJob(Allocate(Allocate(p)), alias, p.next + 1), alias, p.next);
    q.(job := q.job - {alias})
  }

  /** A host's results are received and unpacked. */
  lemma UnpackResults(s: State, h: Host) returns (actions: seq<Action>)
    requires h in s.pools.peers && s.pools.idle == {}
    ensures NoReturns(actions)
    ensures var x := s.pools.peers[h];
            Play(s, actions) == Some(s.(
              pools := UnpackedPools(s.pools, x),
              threads := s.threads + [Receiver(x, Unpacked(s.pools.next, s.pools.next + 1))]))
  {
    hide Play, CopyJob;
    var x, tmp, bak, t := s.pools.peers[h], s.pools.next, s.pools.next + 1, |s.threads|;
    var s1 := s.(threads := s.threads + [Receiver(x, Received)]);
    var s2 := s.(pools := Allocate(s.pools), threads := s.threads + [Receiver(x, WithTmp(tmp))]);
    var s3 := s.(pools := Allocate(Allocate(s.pools)), threads := s.threads + [Receiver(x, WithBoth(tmp, bak))]);
    var s4 := s.(pools := UnpackedPools(s.pools, x), threads := s.threads + [Receiver(x, Unpacked(tmp, bak))]);
    PlayNothing(s);
    PlayNext(s, [], s, Receiving(Receive(h)), s1);
    PlayNext(s, [] + [Receiving(Receive(h))], s1, Receiving(RecvNew(t)), s2);
    PlayNext(s, [] + [Receiving(Receive(h))] + [Receiving(RecvNew(t))], s2, Receiving(RecvNew(t)), s3);
    actions := [] + [Receiving(Receive(h))] + [Receiving(RecvNew(t))] + [Receiving(RecvNew(t))];
    PlayNext(s, actions, s3, Receiving(RecvUnpack(t)), s4);
    actions := actions + [Receiving(RecvUnpack(t))];
  }

  /** ... and returned. */
  lemma ReceiveResults(s: State, h: Host) returns (actions: seq<Action>)
    requires h in s.pools.peers && s.pools.idle == {}
    ensures exists th: Thread ::
              Play(s, actions) == Some(s.(
                pools := ReturnUnit(UnpackedPools(s.pools, s.pools.peers[h]), s.pools.next, true, false),
                threads := s.threads + [th]))
  {
    hide Play, ReturnUnit, UnpackedPools;
    var x, tmp, bak, t := s.pools.peers[h], s.pools.next, s.pools.next + 1, |s.threads|;
    var p := UnpackedPools(s.pools, x);
    actions := UnpackResults(s, h);
    var s4 := s.(pools := p, threads := s.threads + [Receiver(x, Unpacked(tmp, bak))]);
    var s5 := s.(pools := ReturnUnit(p, tmp, true, false), threads := s.threads + [Receiver(x, Settled(tmp, bak))]);
    PlayNext(s, actions, s4, Receiving(RecvReturn(t, true, false)), s5);
    actions := actions + [Receiving(RecvReturn(t, true, false))];
  }

  // The containers along the run: two queued units of job 7, the first of them handed out, both
  // handed out, the first result returned, and both returned.
  const QUEUED: Pools := Pools({}, {}, [], map[], map[1 := 7, 2 := 7], 3, 0, 0, 0)
  const ONE_OUT: Pools := Pools({}, {1}, [], map[1 := 3], map[1 := 7, 2 := 7, 3 := 7], 4, 1, 0, 0)
  const BOTH_OUT: Pools :=
    Pools({}, {1}, [], map[1 := 3, 2 := 4], map[1 := 7, 2 := 7, 3 := 7, 4 := 7], 5, 2, 1, 0)
  const ONE_BACK: Pools :=
    Pools({}, {}, [1], map[1 := 3, 2 := 4], map[1 := 7, 2 := 7, 4 := 7, 5 := 7, 6 := 7], 7, 2, 1, 0)
  const BOTH_BACK: Pools :=
    Pools({}, {}, [1], map[1 := 3, 2 := 4], map[1 := 7, 2 := 7, 5 := 7, 6 := 7, 7 := 7, 8 := 7], 9, 2, 1, 0)

  lemma FirstGoesOut()
    ensures var p := PutActive(CopyJob(Allocate(QUEUED), 1, 3), 1);
            p.(handed := p.handed + 1, peers := p.peers[1 := 3]) == ONE_OUT
  {
    assert CopyJob(Allocate(QUEUED), 1, 3).job == ONE_OUT.job;
  }

  lemma SecondGoesOut()
    ensures var p := PutActive(CopyJob(Allocate(ONE_OUT), 2, 4), 2);
            p.(handed := p.handed + 1, peers := p.peers[2 := 4]) == BOTH_OUT
  {
    var p := CopyJob(Allocate(ONE_OUT), 2, 4);
    assert p.job == BOTH_OUT.job;
    SecondIsRefused(p, 1, 2);
  }

  lemma UnpackedIs(p: Pools, alias: Wip, j: Job)
    requires alias in p.job && p.job[alias] == j && forall w :: w in p.job ==> w < p.next
    ensures UnpackedPools(p, alias)
         == p.(next := p.next + 2, job := p.job[p.next + 1 := j][p.next := j] - {alias})
  {
    assert p.job - {p.next} - {p.next + 1} == p.job;
  }

  lemma UnpackedFirst()
    ensures UnpackedPools(BOTH_OUT, 3) == BOTH_OUT.(job := ONE_BACK.job, next := 7)
  {
    UnpackedIs(BOTH_OUT, 3, 7);
    hide UnpackedPools;
    assert BOTH_OUT.job[6 := 7][5 := 7] - {3} == ONE_BACK.job;
  }

  lemma FirstComesBack()
    ensures ReturnUnit(UnpackedPools(BOTH_OUT, 3), 5, true, false) == ONE_BACK
  {
    hide UnpackedPools;
    UnpackedFirst();
    var p := BOTH_OUT.(job := ONE_BACK.job, next := 7);
    assert 1 in p.active && Key(p, 1) == Key(p, 5);
    assert p.job[1 := 7] == p.job && p.active - {1} == {};
  }

  lemma UnpackedSecond()
    ensures UnpackedPools(ONE_BACK, 4) == BOTH_BACK
  {
    UnpackedIs(ONE_BACK, 4, 7);
    hide UnpackedPools;
    assert ONE_BACK.job[8 := 7][7 := 7] - {4} == BOTH_BACK.job;
  }

  lemma SecondComesBack()
    ensures ReturnUnit(UnpackedPools(ONE_BACK, 4), 7, true, false) == BOTH_BACK
  {
    hide UnpackedPools, ReturnUnit;
    UnpackedSecond();
    StaleReturnsChangeNothing(BOTH_BACK, 7, true, false);
  }

  lemma TwoAreQueued() returns (actions: seq<Action>, s: State)
    ensures Play(Start(), actions) == Some(s)
    ensures s.remote.queue == [1, 2] && s.pools == QUEUED && NoReturns(actions)
  {
    hide Play, Apply, Enabled, FIRST_TICKETS;
    var s0 := FirstTickets();
    var s1 := s0.(threads := [Preparer(true, 50, Looping)]);
    FirstTicketsAreReached();
    FirstStarts();
    PlayNext(Start(), FIRST_TICKETS, s0, Reserving(StartPreparer(0)), s1);
    actions := FIRST_TICKETS + [Reserving(StartPreparer(0))];
    var more := PrepareUnit(s1, 0, 50, 7);
    var s2 := s1.(remote := s1.remote.(queue := [1]), pools := s1.pools.(next := 2, job := map[1 := 7]),
                  threads := [Preparer(true, 49, Looping), Loader(true, Pushed)]);
    assert s1.threads[0 := Preparer(true, 49, Looping)] + [Loader(true, Pushed)] == s2.threads;
    assert [] + [1] == [1] && s1.pools.job[1 := 7] == map[1 := 7];
    assert Play(s1, more) == Some(s2);
    PlayBoth(Start(), actions, more, s1);
    var last := PrepareUnit(s2, 0, 49, 7);
    s := s2.(remote := s1.remote.(queue := [1, 2]), pools := QUEUED,
             threads := [Preparer(true, 48, Looping), Loader(true, Pushed), Loader(true, Pushed)]);
    assert s2.threads[0 := Preparer(true, 48, Looping)] + [Loader(true, Pushed)] == s.threads;
    assert [1] + [2] == [1, 2] && map[1 := 7][2 := 7] == QUEUED.job;
    assert Play(s2, last) == Some(s);
    PlayBoth(Start(), actions + more, last, s2);
    actions := actions + more + last;
  }

  lemma FirstStarts()
    ensures var s, a := FirstTickets(), Reserving(StartPreparer(0));
            Enabled(s, a) && Apply(s, a) == s.(threads := [Preparer(true, 50, Looping)])
  {
  }

  /** Two hosts are handed a unit of the same job each; the second one is not tracked. */
  lemma BothAreOut() returns (actions: seq<Action>, s: State)
    ensures Play(Start(), actions) == Some(s)
    ensures s.pools == BOTH_OUT && NoReturns(actions)
  {
    hide Play, PutActive, CopyJob, Allocate;
    var a, s0 := TwoAreQueued();
    var b := SendUnit(s0, 1);
    var s1 := s0.(remote := s0.remote.(queue := [2]), pools := ONE_OUT, threads := s0.threads + [Done]);
    assert Play(s0, b) == Some(s1) by { FirstGoesOut(); }
    PlayBoth(Start(), a, b, s0);
    var c := SendUnit(s1, 2);
    s := s1.(remote := s0.remote.(queue := []), pools := BOTH_OUT, threads := s1.threads + [Done]);
    assert Play(s1, c) == Some(s) by { SecondGoesOut(); }
    PlayBoth(Start(), a + b, c, s1);
    actions := a + b + c;
  }

  /** Both return results: the first result is completed, and the second is dropped. */
  lemma ALostResult()
    ensures exists trace: seq<State>, actions: seq<Action> ::
              && Run(trace, actions)
              && var p := trace[|actions|].pools;
                 p.handed == 2 && p.untracked == 1 && |p.completed| == 1 && p.active == {} && p.recycled == 0
  {
    hide Play, ReturnUnit, UnpackedPools;
    var a, s := BothAreOut();
    var b := ReceiveResults(s, 1);
    var th: Thread :| Play(s, b) == Some(s.(pools := ONE_BACK, threads := s.threads + [th])) by { FirstComesBack(); }
    var s1 := s.(pools := ONE_BACK, threads := s.threads + [th]);
    PlayBoth(Start(), a, b, s);
    var c := ReceiveResults(s1, 2);
    var th': Thread :| Play(s1, c) == Some(s1.(pools := BOTH_BACK, threads := s1.threads + [th'])) by { SecondComesBack(); }
    var s2 := s1.(pools := BOTH_BACK, threads := s1.threads + [th']);
    PlayBoth(Start(), a + b, c, s1);
    var trace := PlayLeads(Start(), a + b + c, s2);
    assert Run(trace, a + b + c) && trace[|a + b + c|] == s2;
  }
}
