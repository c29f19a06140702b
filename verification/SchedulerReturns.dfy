/**
 returnWork with its two critical sections apart (src/lib/daemon.cpp:1997-2018): the active unit is
 looked up in one and erased in the other, and anything may happen between them. As long as no
 lookup finds a unit that another return has already found, this is the atomic return of the state
 machine, and all that holds of its runs holds here; and the first such lookup is enough for a unit
 to be completed twice.
 */
module SchedulerReturns {
  import opened Wrappers
  import opened SchedulerState
  import opened SchedulerPlaces
  import opened SchedulerCounters
  import opened SchedulerFaults
  import opened SchedulerRefusals

  /** Who is returning a unit: a thread of putParts, or the local worker. */
  datatype Returner = ByThread(t: nat) | ByWorker

  /** The state, and the unit that each return in progress has found. */
  datatype Fine = Fine(s: State, found: map<Returner, Wip>)

  datatype FineAction = Step(step: Action) | Find(who: Returner) | Finish(who: Returner, results: bool, front: bool)

  predicate Returning(s: State, r: Returner) {
    r.ByThread? ==> IsRecv(s, r.t) && s.threads[r.t].recv.Unpacked?
  }

  /** The unit that is being returned. */
  function Returned(s: State, r: Returner): Wip
    requires Returning(s, r)
  {
    if r.ByThread? then s.threads[r.t].recv.tmp else s.worker
  }

  /** The state when a return is over. */
  function Over(s: State, r: Returner): State
    requires Returning(s, r)
  {
    if r.ByWorker? then s
    else var Unpacked(tmp, bak) := s.threads[r.t].recv;
         s.WithThread(r.t, s.threads[r.t].(recv := Settled(tmp, bak)))
  }

  /** What a thread cannot do while it returns a unit. */
  predicate Disturbs(a: Action, r: Returner) {
    if r.ByThread? then a == Receiving(RecvFails(r.t)) else a.Handing? && a.handing.GetActivate?
  }

  ghost predicate CanFine(f: Fine, a: FineAction) {
    match a
    case Step(b) => Enabled(f.s, b) && !IsReturn(b) && forall r :: r in f.found ==> !Disturbs(b, r)
    case Find(r) => Returning(f.s, r) && r !in f.found
    case Finish(r, _, _) => r in f.found && Returning(f.s, r)
  }

  /** The second section: whatever has the key of the found unit is erased, and the found unit goes
      to the completed list or the idle pool. */
  ghost function Finished(p: Pools, w: Wip, a: Wip, results: bool, front: bool): Pools {
    var q := p.(active := set x | x in p.active && Key(p, x) != Key(p, a));
    if results then
      CopyJob(q, w, a).(completed := if front then [a] + q.completed else q.completed + [a])
    else
      PutIdle(q, a).(recycled := q.recycled + 1)
  }

  ghost function DoFine(f: Fine, a: FineAction): Fine
    requires CanFine(f, a)
  {
    match a
    case Step(b) => f.(s := Apply(f.s, b))
    case Find(r) =>
      var e := Equivalent(f.s.pools, Returned(f.s, r));
      if e.None? then f.(s := Over(f.s, r)) else f.(found := f.found[r := e.value])
    case Finish(r, results, front) =>
      var p := Finished(f.s.pools, Returned(f.s, r), f.found[r], results, front);
      Fine(Over(f.s, r).(pools := p), f.found - {r})
  }

  /** A lookup finds a unit that another return has found. */
  ghost predicate Race(f: Fine, a: FineAction) {
    && a.Find? && Returning(f.s, a.who)
    && var e := Equivalent(f.s.pools, Returned(f.s, a.who));
       e.Some? && e.value in f.found.Values
  }

  ghost predicate FineFollows(f: Fine, a: FineAction, f': Fine) {
    CanFine(f, a) && f' == DoFine(f, a)
  }

  ghost predicate FineRun(trace: seq<Fine>, actions: seq<FineAction>) {
    && |trace| == |actions| + 1 && trace[0] == Fine(Start(), map[])
    && forall i :: 0 <= i < |actions| ==> FineFollows(trace[i], actions[i], trace[i + 1])
  }

  ghost predicate NoRace(trace: seq<Fine>, actions: seq<FineAction>, n: nat)
    requires n <= |actions| < |trace|
  {
    forall i :: 0 <= i < n ==> !Race(trace[i], actions[i])
  }

  // ---------------------------------------------------------------- what other steps leave alone

  /** The objects whose job an action may change. */
  ghost function Touched(s: State, a: Action): set<Wip>
    requires Enabled(s, a)
  {
    match a
    case Reserving(_) => {}
    case Preparing(b) =>
      (match b
       case PrepNew(_) => {s.pools.next}
       case PrepGotWork(t, _) => {s.threads[t].prep.w}
       case PrepNoWork(t) => {s.threads[t].prep.w}
       case _ => {})
    case Loading(_) => {}
    case Handing(b) =>
      (match b
       case SendNew(_) => {s.pools.next}
       case SendActivate(t) => {s.threads[t].send.copy}
       case GetActivate(_) => {s.worker}
       case _ => {})
    case Receiving(b) =>
      (match b
       case Receive(_) => {s.pools.next}
       case RecvNew(_) => {s.pools.next}
       case RecvUnpack(t) => {s.threads[t].recv.tmp, s.threads[t].recv.bak, s.threads[t].alias}
       case RecvFails(t) => {s.threads[t].recv.bak}
       case RecvPutTmp(t) => {s.threads[t].recv.tmp}
       case RecvPutBak(t) => {s.threads[t].recv.bak}
       case _ => {})
    case Housekeeping(b) =>
      (match b
       case HostSeen(_) => {s.pools.next}
       case Reap(hosts, failed) => set h | h in failed :: s.pools.peers[h]
       case _ => {})
  }

  lemma ReceiveKeys(s: State, a: ReceiveAction, w: Wip)
    requires CanReceive(s, a) && !a.RecvReturn? && w !in Touched(s, Receiving(a))
    ensures Key(DoReceive(s, a).pools, w) == Key(s.pools, w)
  {
    hide ReturnUnit;
  }

  lemma HandKeys(s: State, a: HandAction, w: Wip)
    requires CanHand(s, a) && w !in Touched(s, Handing(a))
    ensures Key(DoHand(s, a).pools, w) == Key(s.pools, w)
  {
    hide Equivalent;
  }

  lemma KeysOutside(s: State, a: Action, w: Wip)
    requires Enabled(s, a) && !IsReturn(a) && w !in Touched(s, a)
    ensures Key(Apply(s, a).pools, w) == Key(s.pools, w)
  {
    hide Counter, ReturnUnit, DoReceive, DoHand, Key;
    match a
    case Receiving(b) => ReceiveKeys(s, b, w);
    case Handing(b) => HandKeys(s, b, w);
    case _ => OtherKeys(s, a, w);
  }

  lemma OtherKeys(s: State, a: Action, w: Wip)
    requires Enabled(s, a) && !IsReturn(a) && w !in Touched(s, a) && !a.Receiving? && !a.Handing?
    ensures Key(Apply(s, a).pools, w) == Key(s.pools, w)
  {
    hide Counter, ReturnUnit, DoReceive, DoHand, CanReceive, CanHand;
  }

  lemma ActiveStays(s: State, a: Action, w: Wip)
    requires Enabled(s, a) && !IsReturn(a) && w in s.pools.active
    ensures w in Apply(s, a).pools.active
  {
    hide Counter, Equivalent, ReturnUnit;
  }

  /** What an action touches is new, or in a place other than the active set or the variable of a
      thread that is returning a unit. */
  lemma TouchedElsewhere(s: State, m: map<Wip, Place>, a: Action, w: Wip)
    requires Placed(s, m) && Enabled(s, a) && w in Touched(s, a)
    ensures w in m ==> m[w].AtThread? || m[w].AtPeer? || (m[w].AtWorker? && a.Handing? && a.handing.GetActivate?)
    ensures w in m && m[w].AtThread? && m[w].slot == 0 && IsRecv(s, m[w].t) ==> !s.threads[m[w].t].recv.Unpacked?
  {
    hide SetAt, QueueAt;
  }

  /** A return in progress: its unit is active, and has the key of what is returned. */
  ghost predicate Holds(s: State, r: Returner, a: Wip) {
    Returning(s, r) && a in s.pools.active && Key(s.pools, a) == Key(s.pools, Returned(s, r))
  }

  /** Thread `t` goes on as it was. */
  ghost predicate SameThread(s: State, s': State, t: nat) {
    t < |s.threads| <= |s'.threads| && s'.threads[t] == s.threads[t] && s'.worker == s.worker
  }

  lemma ReceiveLeavesThread(s: State, a: ReceiveAction, t: nat)
    requires CanReceive(s, a) && IsRecv(s, t) && s.threads[t].recv.Unpacked? && a != RecvFails(t) && !a.RecvReturn?
    ensures SameThread(s, DoReceive(s, a), t)
  {
    hide CopyJob, Contact, ReturnUnit;
  }

  lemma HandLeavesThread(s: State, a: HandAction, t: nat)
    requires CanHand(s, a) && IsRecv(s, t)
    ensures SameThread(s, DoHand(s, a), t)
  {
    hide CopyJob, PutActive;
  }

  lemma OthersLeaveThread(s: State, a: Action, t: nat)
    requires Enabled(s, a) && IsRecv(s, t) && !a.Receiving? && !a.Handing?
    ensures SameThread(s, Apply(s, a), t)
  {
    hide Counter, ReturnUnit, Contact, DoReceive, DoHand, CanReceive, CanHand;
  }

  lemma WorkerStays(s: State, a: Action)
    requires Enabled(s, a)
    ensures Apply(s, a).worker == s.worker
  {
    hide Counter, PutActive, ReturnUnit, CopyJob, Contact;
  }

  lemma ThreadStays(s: State, a: Action, r: Returner)
    requires Enabled(s, a) && !IsReturn(a) && !Disturbs(a, r) && Returning(s, r)
    ensures Returning(Apply(s, a), r) && Returned(Apply(s, a), r) == Returned(s, r)
  {
    hide DoReserve, DoPrepare, DoLoad, DoHand, DoReceive, DoKeep, CanReserve, CanPrepare, CanLoad, CanHand, CanReceive, CanKeep;
    WorkerStays(s, a);
    if r.ByThread? {
      match a
      case Receiving(b) => ReceiveLeavesThread(s, b, r.t);
      case Handing(b) => HandLeavesThread(s, b, r.t);
      case _ => OthersLeaveThread(s, a, r.t);
    }
  }

  lemma ReturnedIsPlaced(s: State, m: map<Wip, Place>, r: Returner)
    requires Placed(s, m) && Returning(s, r)
    ensures Is(m, Returned(s, r), if r.ByThread? then AtThread(r.t, 0) else AtWorker)
  {
    hide SetAt, QueueAt, PeersAt;
    if r.ByThread? {
      assert ThreadAt(m, s.threads[r.t], r.t);
    }
  }

  lemma StepKeepsHold(s: State, m: map<Wip, Place>, a: Action, r: Returner, x: Wip)
    requires PlacesInv(s, m) && Enabled(s, a) && !IsReturn(a) && !Disturbs(a, r) && Holds(s, r, x)
    ensures Holds(Apply(s, a), r, x)
  {
    hide Apply, Enabled, Touched, Placed;
    var w := Returned(s, r);
    ThreadStays(s, a, r);
    ActiveStays(s, a, x);
    ActiveIsKnown(s, m);
    ReturnedIsPlaced(s, m, r);
    if x in Touched(s, a) {
      TouchedElsewhere(s, m, a, x);
    } else {
      KeysOutside(s, a, x);
    }
    if w in Touched(s, a) {
      TouchedElsewhere(s, m, a, w);
    } else {
      KeysOutside(s, a, w);
    }
  }

  // ---------------------------------------------------------------- finishing is the atomic return

  /** The atomic return of the state machine. */
  function Atomic(r: Returner, results: bool, front: bool): Action {
    if r.ByThread? then Receiving(RecvReturn(r.t, results, front)) else Housekeeping(WorkerReturn(results, front))
  }

  lemma AtomicIs(s: State, r: Returner, results: bool, front: bool)
    requires Returning(s, r)
    ensures Enabled(s, Atomic(r, results, front))
    ensures Apply(s, Atomic(r, results, front))
         == Over(s, r).(pools := ReturnUnit(s.pools, Returned(s, r), results, front))
  {
    hide ReturnUnit;
  }

  lemma FinishedIsReturn(p: Pools, w: Wip, a: Wip, results: bool, front: bool)
    requires OnePerJob(p) && a in p.active && Key(p, a) == Key(p, w)
    ensures Finished(p, w, a, results, front) == ReturnUnit(p, w, results, front)
  {
    assert (set x | x in p.active && Key(p, x) != Key(p, a)) == p.active - {a};
    assert Equivalent(p, w) == Some(a);
  }

  /** The other returns in progress keep their units, which are other ones. */
  lemma FinishKeepsHold(s: State, m: map<Wip, Place>, r: Returner, a: Wip, results: bool, front: bool, r': Returner, x: Wip)
    requires PlacesInv(s, m) && Holds(s, r, a) && Holds(s, r', x) && r != r' && a != x
    ensures Holds(Over(s, r).(pools := Finished(s.pools, Returned(s, r), a, results, front)), r', x)
  {
    hide Placed;
    ActiveIsKnown(s, m);
    ReturnedIsPlaced(s, m, r');
  }

  /** What holds in the states of a run without races. */
  ghost predicate FineInv(f: Fine) {
    && (forall r :: r in f.found ==> Holds(f.s, r, f.found[r]))
    && (forall r, r' :: r in f.found && r' in f.found && f.found[r] == f.found[r'] ==> r == r')
  }

  lemma StepKeepsFine(f: Fine, m: map<Wip, Place>, a: Action)
    requires FineInv(f) && PlacesInv(f.s, m) && CanFine(f, Step(a))
    ensures FineInv(DoFine(f, Step(a)))
  {
    hide Apply, Enabled, PlacesInv, Holds;
    forall r | r in f.found ensures Holds(Apply(f.s, a), r, f.found[r]) {
      StepKeepsHold(f.s, m, a, r, f.found[r]);
    }
  }

  lemma OverKeepsHold(s: State, r: Returner, r': Returner, x: Wip)
    requires Returning(s, r) && Holds(s, r', x) && r != r'
    ensures Holds(Over(s, r), r', x)
  {
  }

  lemma FindKeepsFine(f: Fine, r: Returner)
    requires FineInv(f) && CanFine(f, Find(r)) && !Race(f, Find(r))
    ensures FineInv(DoFine(f, Find(r)))
  {
    hide Holds, Equivalent;
    var e := Equivalent(f.s.pools, Returned(f.s, r));
    if e.None? {
      forall r' | r' in f.found ensures Holds(Over(f.s, r), r', f.found[r']) {
        OverKeepsHold(f.s, r, r', f.found[r']);
      }
    } else {
      FoundHolds(f.s, r);
    }
  }

  lemma FoundHolds(s: State, r: Returner)
    requires Returning(s, r) && Equivalent(s.pools, Returned(s, r)).Some?
    ensures Holds(s, r, Equivalent(s.pools, Returned(s, r)).value)
  {
  }

  lemma FinishKeepsFine(f: Fine, m: map<Wip, Place>, r: Returner, results: bool, front: bool)
    requires FineInv(f) && PlacesInv(f.s, m) && CanFine(f, Finish(r, results, front))
    ensures FineInv(DoFine(f, Finish(r, results, front)))
  {
    hide PlacesInv, Holds, Finished, Over;
    var f' := DoFine(f, Finish(r, results, front));
    forall r' | r' in f'.found ensures Holds(f'.s, r', f'.found[r']) {
      FinishKeepsHold(f.s, m, r, f.found[r], results, front, r', f.found[r']);
    }
  }

  // ---------------------------------------------------------------- runs

  /** A state that a run of the state machine ends in. */
  ghost predicate Reachable(s: State) {
    exists trace: seq<State>, actions: seq<Action> :: Run(trace, actions) && trace[|actions|] == s
  }

  lemma ReachNext(s: State, a: Action)
    requires Reachable(s) && Enabled(s, a)
    ensures Reachable(Apply(s, a))
  {
    hide Apply, Enabled;
    var trace: seq<State>, actions: seq<Action> :| Run(trace, actions) && trace[|actions|] == s;
    var trace', actions' := trace + [Apply(s, a)], actions + [a];
    forall i | 0 <= i < |actions'| ensures Follows(trace'[i], actions'[i], trace'[i + 1]) {
      if i < |actions| { assert Follows(trace[i], actions[i], trace[i + 1]); }
    }
    assert Run(trace', actions') && trace'[|actions'|] == Apply(s, a);
  }

  lemma ReachStart()
    ensures Reachable(Start())
  {
    var actions: seq<Action> := [];
    assert Run([Start()], actions) && [Start()][|actions|] == Start();
  }

  lemma ReachablePlaces(s: State) returns (m: map<Wip, Place>)
    requires Reachable(s)
    ensures PlacesInv(s, m)
  {
    var trace: seq<State>, actions: seq<Action> :| Run(trace, actions) && trace[|actions|] == s;
    m := RunKeepsPlaces(trace, actions, |actions|);
  }

  /** A step without a race is a step of the state machine, or none. */
  lemma FineStep(f: Fine, a: FineAction)
    requires FineInv(f) && Reachable(f.s) && CanFine(f, a) && !Race(f, a)
    ensures FineInv(DoFine(f, a)) && Reachable(DoFine(f, a).s)
  {
    var m := ReachablePlaces(f.s);
    match a
    case Step(b) =>
      hide Apply, Enabled, PlacesInv, Reachable, FineInv;
      StepKeepsFine(f, m, b);
      ReachNext(f.s, b);
    case Find(r) =>
      hide Apply, Enabled, PlacesInv, Reachable, FineInv;
      FindKeepsFine(f, r);
      FindReaches(f, r);
    case Finish(r, results, front) =>
      hide Apply, Enabled, Placed, Reachable;
      FinishKeepsFine(f, m, r, results, front);
      FinishedIsReturn(f.s.pools, Returned(f.s, r), f.found[r], results, front);
      AtomicIs(f.s, r, results, front);
      ReachNext(f.s, Atomic(r, results, front));
  }

  /** A lookup that finds nothing is a return that changes nothing. */
  lemma FindReaches(f: Fine, r: Returner)
    requires Reachable(f.s) && CanFine(f, Find(r))
    ensures Reachable(DoFine(f, Find(r)).s)
  {
    hide Apply, Enabled, Reachable, Equivalent;
    AtomicIs(f.s, r, true, true);
    ReachNext(f.s, Atomic(r, true, true));
  }

  /** In a run without races every state is one of the state machine with atomic returns, so that
      all that is proved of its runs holds of this one. */
  lemma {:induction false} NoRaceIsAtomic(trace: seq<Fine>, actions: seq<FineAction>, n: nat)
    requires FineRun(trace, actions) && n < |trace| && NoRace(trace, actions, n)
    ensures FineInv(trace[n]) && Reachable(trace[n].s)
  {
    hide Reachable, FineInv, CanFine, DoFine, Race;
    if n == 0 {
      ReachStart();
      assert FineInv(trace[0]) by { NothingFound(); }
    } else {
      NoRaceIsAtomic(trace, actions, n - 1);
      assert FineFollows(trace[n - 1], actions[n - 1], trace[n]);
      FineStep(trace[n - 1], actions[n - 1]);
    }
  }

  lemma NothingFound()
    ensures FineInv(Fine(Start(), map[]))
  {
  }

  ghost predicate NoDuplicates(q: seq<Wip>) {
    forall i, j :: 0 <= i < j < |q| ==> q[i] != q[j]
  }

  /** Without races no object is in two places, and none is completed twice. */
  lemma NoRaceNoDuplicates(trace: seq<Fine>, actions: seq<FineAction>, n: nat, p: Place, q: Place, w: Wip)
    requires FineRun(trace, actions) && n < |trace| && NoRace(trace, actions, n)
    ensures NoDuplicates(trace[n].s.pools.completed)
    ensures At(trace[n].s, p, w) && At(trace[n].s, q, w) ==> p == q
  {
    hide At, Reachable, FineInv, FineRun, NoRace;
    NoRaceIsAtomic(trace, actions, n);
    var m := ReachablePlaces(trace[n].s);
    CompletedOnce(trace[n].s, m);
    hide Placed;
    if At(trace[n].s, p, w) && At(trace[n].s, q, w) {
      PlacedOnce(trace[n].s, m, p, w);
      PlacedOnce(trace[n].s, m, q, w);
    }
  }

  lemma CompletedOnce(s: State, m: map<Wip, Place>)
    requires Placed(s, m)
    ensures NoDuplicates(s.pools.completed)
  {
  }

  /** Two returns that found the same unit complete it twice. */
  lemma TwiceCompleted(f: Fine, r: Returner, r': Returner, front: bool, front': bool)
    requires r in f.found && r' in f.found && r != r' && f.found[r] == f.found[r']
    requires Returning(f.s, r) && Returning(f.s, r')
    ensures CanFine(f, Finish(r, true, front))
    ensures var f1 := DoFine(f, Finish(r, true, front));
            && CanFine(f1, Finish(r', true, front'))
            && !NoDuplicates(DoFine(f1, Finish(r', true, front')).s.pools.completed)
  {
    hide Key;
    var a, c := f.found[r], f.s.pools.completed;
    var f1 := DoFine(f, Finish(r, true, front));
    var c1 := f1.s.pools.completed;
    var c2 := DoFine(f1, Finish(r', true, front')).s.pools.completed;
    assert c1 == if front then [a] + c else c + [a];
    assert c2 == if front' then [a] + c1 else c1 + [a];
    var i := if front then 0 else |c|;
    assert c1[i] == a;
    if front' {
      assert c2[0] == c2[i + 1];
    } else {
      assert c2[i] == c2[|c1|];
    }
  }

  /** The first race of a run is enough: the two returns that found the same unit can both finish,
      and the completed list then has it twice. */
  lemma FirstRaceDuplicates(trace: seq<Fine>, actions: seq<FineAction>)
    requires FineRun(trace, actions) && actions != []
    requires var n := |actions| - 1; NoRace(trace, actions, n) && Race(trace[n], actions[n])
    ensures exists r, r' ::
              var f := trace[|actions|];
              && CanFine(f, Finish(r, true, false))
              && var f1 := DoFine(f, Finish(r, true, false));
                 && CanFine(f1, Finish(r', true, false))
                 && !NoDuplicates(DoFine(f1, Finish(r', true, false)).s.pools.completed)
  {
    hide Reachable, Holds, NoDuplicates, Equivalent;
    var n := |actions| - 1;
    NoRaceIsAtomic(trace, actions, n);
    assert FineFollows(trace[n], actions[n], trace[n + 1]);
    var f, f', r := trace[n], trace[n + 1], actions[n].who;
    var a := Equivalent(f.s.pools, Returned(f.s, r)).value;
    var r' :| r' in f.found && f.found[r'] == a;
    assert f'.found == f.found[r := a] && f'.s == f.s;
    HoldsReturns(f.s, r', a);
    TwiceCompleted(f', r, r', false, false);
  }

  lemma HoldsReturns(s: State, r: Returner, a: Wip)
    requires Holds(s, r, a)
    ensures Returning(s, r)
  {
  }

  // ---------------------------------------------------------------- late returns

  /** No unit of the job is active. */
  ghost predicate NoneActive(p: Pools, j: Job) {
    forall x :: x in p.active ==> Key(p, x) != Some(j)
  }

  /** The step hands a unit of the job to the active set. */
  ghost predicate Activates(s: State, a: Action, j: Job) {
    && a.Handing? && CanHand(s, a.handing)
    && var w := HandedUnit(s, a.handing);
       w.Some? && Key(s.pools, w.value) == Some(j)
  }

  lemma ActiveFrom(s: State, a: Action, x: Wip)
    requires Enabled(s, a) && !IsReturn(a) && x in Apply(s, a).pools.active
    ensures x in s.pools.active || (a.Handing? && HandedUnit(s, a.handing) == Some(x))
  {
    hide Counter, Equivalent, ReturnUnit;
  }

  lemma HandedKey(s: State, m: map<Wip, Place>, a: HandAction)
    requires Placed(s, m) && CanHand(s, a) && HandedUnit(s, a).Some?
    ensures HandedUnit(s, a).value !in Touched(s, Handing(a))
  {
    hide SetAt, QueueAt, PeersAt;
    assert ThreadAt(m, s.threads[a.t], a.t);
  }

  lemma ReturnLeavesNone(p: Pools, w: Wip, results: bool, front: bool, j: Job)
    requires NoneActive(p, j)
    ensures NoneActive(ReturnUnit(p, w, results, front), j)
  {
  }

  lemma StepLeavesNone(s: State, m: map<Wip, Place>, a: Action, j: Job)
    requires PlacesInv(s, m) && Enabled(s, a) && !IsReturn(a) && NoneActive(s.pools, j) && !Activates(s, a, j)
    ensures NoneActive(Apply(s, a).pools, j)
  {
    hide Apply, Touched, Placed, Key;
    forall x | x in Apply(s, a).pools.active ensures Key(Apply(s, a).pools, x) != Some(j) {
      ActiveFrom(s, a, x);
      if x in s.pools.active {
        ActiveIsKnown(s, m);
        if x in Touched(s, a) { TouchedElsewhere(s, m, a, x); }
      } else {
        HandedKey(s, m, a.handing);
      }
      KeysOutside(s, a, x);
    }
  }

  /** After a unit of the job was returned, and until another one is handed out, none is active. */
  lemma {:induction false} NoneActiveAfterReturn(trace: seq<State>, actions: seq<Action>, i: nat, n: nat, r: Returner,
                                                 results: bool, front: bool, j: Job)
    requires Run(trace, actions) && i < n < |trace|
    requires Returning(trace[i], r) && actions[i] == Atomic(r, results, front)
    requires Key(trace[i].pools, Returned(trace[i], r)) == Some(j)
    requires forall k :: i < k < n ==> !Activates(trace[k], actions[k], j)
    ensures NoneActive(trace[n].pools, j)
    decreases n
  {
    hide Apply, Enabled, PlacesInv, Activates, NoneActive, ReturnUnit;
    var s, a := trace[n - 1], actions[n - 1];
    var m := RunKeepsPlaces(trace, actions, n - 1);
    assert Follows(s, a, trace[n]);
    if n - 1 == i {
      AtomicIs(s, r, results, front);
      KeysAreUnique(s, m);
      ReturnEmpties(s.pools, Returned(s, r), results, front, j);
    } else {
      NoneActiveAfterReturn(trace, actions, i, n - 1, r, results, front, j);
      if IsReturn(a) {
        ReturnIsAtomic(s, a);
        ReturnLeavesNone(s.pools, Returned(s, WhoReturns(a)), HasResults(a), ToFront(a), j);
      } else {
        StepLeavesNone(s, m, a, j);
      }
    }
  }

  lemma KeysAreUnique(s: State, m: map<Wip, Place>)
    requires PlacesInv(s, m)
    ensures OnePerJob(s.pools)
  {
  }

  lemma ReturnEmpties(p: Pools, w: Wip, results: bool, front: bool, j: Job)
    requires OnePerJob(p) && Key(p, w) == Some(j)
    ensures NoneActive(ReturnUnit(p, w, results, front), j)
  {
  }

  function WhoReturns(a: Action): Returner
    requires IsReturn(a)
  {
    if a.Receiving? then ByThread(a.receiving.t) else ByWorker
  }

  function HasResults(a: Action): bool
    requires IsReturn(a)
  {
    if a.Receiving? then a.receiving.results else a.housekeeping.results
  }

  function ToFront(a: Action): bool
    requires IsReturn(a)
  {
    if a.Receiving? then a.receiving.front else a.housekeeping.front
  }

  lemma ReturnIsAtomic(s: State, a: Action)
    requires Enabled(s, a) && IsReturn(a)
    ensures a == Atomic(WhoReturns(a), HasResults(a), ToFront(a)) && Returning(s, WhoReturns(a))
    ensures Apply(s, a).pools == ReturnUnit(s.pools, Returned(s, WhoReturns(a)), HasResults(a), ToFront(a))
  {
    hide ReturnUnit;
    AtomicIs(s, WhoReturns(a), HasResults(a), ToFront(a));
  }

  /** In any run, once a unit of a job was returned, returning that job again changes no container
      until another of its units is handed out. */
  lemma LateReturnsChangeNothing(trace: seq<State>, actions: seq<Action>, i: nat, n: nat, r: Returner, results: bool,
                                 front: bool, j: Job)
    requires Run(trace, actions) && i < n < |actions|
    requires Returning(trace[i], r) && actions[i] == Atomic(r, results, front)
    requires Key(trace[i].pools, Returned(trace[i], r)) == Some(j)
    requires forall k :: i < k < n ==> !Activates(trace[k], actions[k], j)
    ensures IsReturn(actions[n]) && Returning(trace[n], WhoReturns(actions[n]))
            && Key(trace[n].pools, Returned(trace[n], WhoReturns(actions[n]))) == Some(j)
            ==> trace[n + 1].pools == trace[n].pools
  {
    hide Apply, Enabled, Activates, ReturnUnit;
    NoneActiveAfterReturn(trace, actions, i, n, r, results, front, j);
    assert Follows(trace[n], actions[n], trace[n + 1]);
    if IsReturn(actions[n]) {
      ReturnIsAtomic(trace[n], actions[n]);
      var who := WhoReturns(actions[n]);
      if Key(trace[n].pools, Returned(trace[n], who)) == Some(j) {
        StaleReturnsChangeNothing(trace[n].pools, Returned(trace[n], who), HasResults(actions[n]), ToFront(actions[n]));
      }
    }
  }

  // ---------------------------------------------------------------- a run with a race

  lemma {:induction false} PlayIsFine(s: State, actions: seq<Action>, s': State) returns (trace: seq<Fine>, fine: seq<FineAction>)
    requires Play(s, actions) == Some(s') && NoReturns(actions)
    ensures |fine| == |actions| && |trace| == |actions| + 1
    ensures trace[0] == Fine(s, map[]) && trace[|actions|] == Fine(s', map[])
    ensures forall i :: 0 <= i < |actions| ==> fine[i].Step? && FineFollows(trace[i], fine[i], trace[i + 1])
    decreases |actions|
  {
    hide Apply, Enabled;
    if actions == [] {
      trace, fine := [Fine(s, map[])], [];
    } else {
      var s1 := Apply(s, actions[0]);
      assert NoReturns(actions[1..]);
      var rest, more := PlayIsFine(s1, actions[1..], s');
      trace, fine := [Fine(s, map[])] + rest, [Step(actions[0])] + more;
      assert FineFollows(Fine(s, map[]), Step(actions[0]), rest[0]);
      forall i | 0 <= i < |actions| ensures fine[i].Step? && FineFollows(trace[i], fine[i], trace[i + 1]) {
        if i > 0 { assert fine[i] == more[i - 1] && FineFollows(rest[i - 1], more[i - 1], rest[i]); }
      }
    }
  }

  /** Two results of one job have been unpacked, and the tracked unit is still active. */
  lemma TwoAreReturning() returns (actions: seq<Action>, s: State, t: nat, u: nat)
    ensures Play(Start(), actions) == Some(s) && NoReturns(actions)
    ensures t != u && Returning(s, ByThread(t)) && Returning(s, ByThread(u))
    ensures Equivalent(s.pools, Returned(s, ByThread(t))) == Equivalent(s.pools, Returned(s, ByThread(u))) == Some(1)
  {
    hide Play, UnpackedPools, Equivalent;
    var a, s0 := BothAreOut();
    var b := UnpackResults(s0, 1);
    var p1, p2 := UnpackedPools(BOTH_OUT, 3), UnpackedPools(UnpackedPools(BOTH_OUT, 3), 4);
    UnpackedPair();
    t, u := |s0.threads|, |s0.threads| + 1;
    var s1 := s0.(pools := p1, threads := s0.threads + [Receiver(3, Unpacked(5, 6))]);
    PlayBoth(Start(), a, b, s0);
    var c := UnpackResults(s1, 2);
    s := s1.(pools := p2, threads := s1.threads + [Receiver(4, Unpacked(7, 8))]);
    PlayBoth(Start(), a + b, c, s1);
    actions := a + b + c;
  }

  lemma UnpackedPair()
    ensures var p := UnpackedPools(BOTH_OUT, 3);
            && p.idle == {} && p.next == 7 && p.peers == BOTH_OUT.peers
            && var q := UnpackedPools(p, 4);
               Equivalent(q, 5) == Some(1) && Equivalent(q, 7) == Some(1)
  {
    UnpackedFirst();
    var p := BOTH_OUT.(job := ONE_BACK.job, next := 7);
    assert p == UnpackedPools(BOTH_OUT, 3);
    UnpackedIs(p, 4, 7);
    hide UnpackedPools;
    var q := UnpackedPools(p, 4);
    assert q.job[1] == 7 && q.job[5] == 7 && q.job[7] == 7 && q.active == {1};
    assert 1 in q.active;
  }

  /** A run that has its first race in its last step. */
  lemma ARace()
    ensures exists trace: seq<Fine>, actions: seq<FineAction> ::
              && FineRun(trace, actions) && actions != []
              && var n := |actions| - 1; NoRace(trace, actions, n) && Race(trace[n], actions[n])
  {
    hide Play, Equivalent, Start;
    var a, s, t, u := TwoAreReturning();
    var trace, fine := PlayIsFine(Start(), a, s);
    var f, f1 := Fine(s, map[]), Fine(s, map[ByThread(t) := 1]);
    assert map[][ByThread(t) := 1] == f1.found;
    assert FineFollows(f, Find(ByThread(t)), f1);
    var trace1, fine1 := trace + [f1], fine + [Find(ByThread(t))];
    assert CanFine(f1, Find(ByThread(u))) && 1 in f1.found.Values;
    assert Race(f1, Find(ByThread(u)));
    assert !Race(f, Find(ByThread(t)));
    var f2 := DoFine(f1, Find(ByThread(u)));
    hide CanFine, DoFine, Race;
    var trace2, fine2 := trace1 + [f2], fine1 + [Find(ByThread(u))];
    forall i | 0 <= i < |fine2| ensures FineFollows(trace2[i], fine2[i], trace2[i + 1]) {
      if i < |fine| { assert FineFollows(trace[i], fine[i], trace[i + 1]); }
    }
    assert FineRun(trace2, fine2);
    StepsDoNotRace(trace2, fine2, |fine|);
    assert NoRace(trace2, fine2, |fine2| - 1);
  }

  lemma StepsDoNotRace(trace: seq<Fine>, actions: seq<FineAction>, n: nat)
    requires n <= |actions| < |trace| && forall i :: 0 <= i < n ==> actions[i].Step?
    ensures NoRace(trace, actions, n)
  {
  }
}
