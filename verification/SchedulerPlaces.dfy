/**
 Where the work objects are: in every state that the scheduler can reach, each of them is in at
 most one place, and no two active units belong to the same job.
 */
module SchedulerPlaces {
  import opened Wrappers
  import opened SchedulerState

  datatype Place = InIdle | InActive | InRemote | InLocal | InCompleted | AtPeer(h: Host)
                 | AtThread(t: nat, slot: nat) | AtWorker

  /** The object a thread holds in its first or second variable. */
  function Slot(th: Thread, slot: nat): Option<Wip> {
    if slot == 0 then First(th) else if slot == 1 then Second(th) else None
  }

  function First(th: Thread): Option<Wip> {
    match th
    case Preparer(_, _, Holding(w)) => Some(w)
    case Preparer(_, _, Ready(w)) => Some(w)
    case Loader(_, Busy(w)) => Some(w)
    case Sender(_, Popped(w)) => Some(w)
    case Sender(_, Copied(w, _)) => Some(w)
    case Getter(w) => Some(w)
    case Receiver(_, WithTmp(tmp)) => Some(tmp)
    case Receiver(_, WithBoth(tmp, _)) => Some(tmp)
    case Receiver(_, Unpacked(tmp, _)) => Some(tmp)
    case Receiver(_, Settled(tmp, _)) => Some(tmp)
    case _ => None
  }

  function Second(th: Thread): Option<Wip> {
    match th
    case Sender(_, Copied(_, copy)) => Some(copy)
    case Sender(_, Activated(copy)) => Some(copy)
    case Receiver(_, WithBoth(_, bak)) => Some(bak)
    case Receiver(_, Unpacked(_, bak)) => Some(bak)
    case Receiver(_, Settled(_, bak)) => Some(bak)
    case Receiver(_, OnlyBak(bak)) => Some(bak)
    case _ => None
  }

  /** Object `w` is in place `p`. */
  predicate At(s: State, p: Place, w: Wip) {
    match p
    case InIdle => w in s.pools.idle
    case InActive => w in s.pools.active
    case InRemote => w in s.remote.queue
    case InLocal => w in s.local.queue
    case InCompleted => w in s.pools.completed
    case AtPeer(h) => h in s.pools.peers && s.pools.peers[h] == w
    case AtThread(t, k) => t < |s.threads| && Slot(s.threads[t], k) == Some(w)
    case AtWorker => w == s.worker
  }

  // ---------------------------------------------------------------- the invariant

  ghost predicate Is(m: map<Wip, Place>, w: Wip, p: Place) {
    w in m && m[w] == p
  }

  ghost predicate SetAt(m: map<Wip, Place>, ws: set<Wip>, p: Place) {
    forall w :: w in ws ==> Is(m, w, p)
  }

  ghost predicate QueueAt(m: map<Wip, Place>, q: seq<Wip>, p: Place) {
    && (forall i, j :: 0 <= i < j < |q| ==> q[i] != q[j])
    && (forall i :: 0 <= i < |q| ==> Is(m, q[i], p))
  }

  ghost predicate PeersAt(m: map<Wip, Place>, peers: map<Host, Wip>) {
    forall h :: h in peers ==> Is(m, peers[h], AtPeer(h))
  }

  ghost predicate ThreadAt(m: map<Wip, Place>, th: Thread, t: nat) {
    && (First(th).Some? ==> Is(m, First(th).value, AtThread(t, 0)))
    && (Second(th).Some? ==> Is(m, Second(th).value, AtThread(t, 1)))
    && (th.Receiver? ==> th.alias in m && m[th.alias].AtPeer?)
  }

  ghost predicate ThreadsAt(m: map<Wip, Place>, threads: seq<Thread>) {
    forall t :: 0 <= t < |threads| ==> ThreadAt(m, threads[t], t)
  }

  ghost predicate Below(m: map<Wip, Place>, next: Wip) {
    forall w :: w in m ==> w < next
  }

  /** `m` gives every object its only place; an object that was dropped keeps its last one. */
  ghost predicate Placed(s: State, m: map<Wip, Place>) {
    && SetAt(m, s.pools.idle, InIdle)
    && SetAt(m, s.pools.active, InActive)
    && QueueAt(m, s.remote.queue, InRemote)
    && QueueAt(m, s.local.queue, InLocal)
    && QueueAt(m, s.pools.completed, InCompleted)
    && PeersAt(m, s.pools.peers)
    && ThreadsAt(m, s.threads)
    && Is(m, s.worker, AtWorker)
    && Below(m, s.pools.next)
  }

  /** No two active units have the same key. */
  ghost predicate OnePerJob(p: Pools) {
    forall a, b :: a in p.active && b in p.active && Key(p, a) == Key(p, b) ==> a == b
  }

  ghost predicate PlacesInv(s: State, m: map<Wip, Place>) {
    Placed(s, m) && OnePerJob(s.pools)
  }

  // ---------------------------------------------------------------- moving one object

  ghost predicate NotInThread(th: Thread, w: Wip) {
    First(th) != Some(w) && Second(th) != Some(w) && (th.Receiver? ==> th.alias != w)
  }

  /** Nothing holds `w`. */
  ghost predicate Free(s: State, w: Wip) {
    && w !in s.pools.idle && w !in s.pools.active
    && w !in s.remote.queue && w !in s.local.queue && w !in s.pools.completed
    && (forall h :: h in s.pools.peers ==> s.pools.peers[h] != w)
    && (forall t :: 0 <= t < |s.threads| ==> NotInThread(s.threads[t], w))
    && w != s.worker
  }

  lemma QueueRetag(m: map<Wip, Place>, q: seq<Wip>, p: Place, w: Wip, p': Place)
    requires QueueAt(m, q, p) && w !in q
    ensures QueueAt(m[w := p'], q, p)
  {
  }

  lemma SetRetag(m: map<Wip, Place>, ws: set<Wip>, p: Place, w: Wip, p': Place)
    requires SetAt(m, ws, p) && w !in ws
    ensures SetAt(m[w := p'], ws, p)
  {
  }

  lemma PeersRetag(m: map<Wip, Place>, peers: map<Host, Wip>, w: Wip, p': Place)
    requires PeersAt(m, peers) && forall h :: h in peers ==> peers[h] != w
    ensures PeersAt(m[w := p'], peers)
  {
  }

  lemma ThreadsRetag(m: map<Wip, Place>, threads: seq<Thread>, w: Wip, p': Place)
    requires ThreadsAt(m, threads) && forall t :: 0 <= t < |threads| ==> NotInThread(threads[t], w)
    ensures ThreadsAt(m[w := p'], threads)
  {
  }

  /** An object that nothing holds can be given any place. */
  lemma Retag(s: State, m: map<Wip, Place>, w: Wip, p': Place)
    requires Placed(s, m) && Free(s, w) && w < s.pools.next
    ensures Placed(s, m[w := p'])
  {
    SetRetag(m, s.pools.idle, InIdle, w, p');
    SetRetag(m, s.pools.active, InActive, w, p');
    QueueRetag(m, s.remote.queue, InRemote, w, p');
    QueueRetag(m, s.local.queue, InLocal, w, p');
    QueueRetag(m, s.pools.completed, InCompleted, w, p');
    PeersRetag(m, s.pools.peers, w, p');
    ThreadsRetag(m, s.threads, w, p');
    hide SetAt, QueueAt, PeersAt, ThreadsAt;
  }

  /** Nothing but place `p` holds `w`. */
  ghost predicate OnlyAt(s: State, w: Wip, p: Place) {
    && (p != InIdle ==> w !in s.pools.idle)
    && (p != InActive ==> w !in s.pools.active)
    && (p != InRemote ==> w !in s.remote.queue)
    && (p != InLocal ==> w !in s.local.queue)
    && (p != InCompleted ==> w !in s.pools.completed)
    && (forall h :: h in s.pools.peers && p != AtPeer(h) ==> s.pools.peers[h] != w)
    && (forall t :: 0 <= t < |s.threads| ==> OnlyAtThread(s.threads[t], t, w, p))
    && (p != AtWorker ==> w != s.worker)
  }

  ghost predicate OnlyAtThread(th: Thread, t: nat, w: Wip, p: Place) {
    && (p != AtThread(t, 0) ==> First(th) != Some(w))
    && (p != AtThread(t, 1) ==> Second(th) != Some(w))
    && (!p.AtPeer? && th.Receiver? ==> th.alias != w)
  }

  lemma NowhereElse(s: State, m: map<Wip, Place>, w: Wip)
    requires Placed(s, m) && w in m
    ensures OnlyAt(s, w, m[w])
  {
  }

  // ---------------------------------------------------------------- taking and giving

  /** An idle object is taken: it is free, and may be given another place. */
  lemma TakeFromIdle(s: State, m: map<Wip, Place>, w: Wip, p: Place)
    requires Placed(s, m) && w in s.pools.idle
    ensures Placed(s.(pools := TakeIdle(s.pools, w)), m[w := p])
    ensures w < s.pools.next
    ensures OnlyAt(s, w, InIdle)
  {
    NowhereElse(s, m, w);
    var s1 := s.(pools := TakeIdle(s.pools, w));
    assert Free(s1, w) by {
      assert forall t :: 0 <= t < |s.threads| ==> OnlyAtThread(s.threads[t], t, w, InIdle);
    }
    assert Placed(s1, m);
    Retag(s1, m, w, p);
  }

  /** A new object is allocated: nothing can hold it. */
  lemma TakeNew(s: State, m: map<Wip, Place>, p: Place)
    requires Placed(s, m)
    ensures Placed(s.(pools := Allocate(s.pools)), m[s.pools.next := p])
    ensures s.pools.next !in m
  {
    var w := s.pools.next;
    var s1 := s.(pools := Allocate(s.pools));
    assert w !in m;
    assert Free(s1, w) by {
      assert forall t :: 0 <= t < |s.threads| ==> ThreadAt(m, s.threads[t], t);
    }
    Retag(s1, m, w, p);
  }

  lemma SetThread(s: State, m: map<Wip, Place>, t: nat, th: Thread)
    requires Placed(s, m) && t < |s.threads| && ThreadAt(m, th, t)
    ensures Placed(s.WithThread(t, th), m)
  {
  }

  lemma AddThread(s: State, m: map<Wip, Place>, th: Thread)
    requires Placed(s, m) && ThreadAt(m, th, |s.threads|)
    ensures Placed(s.Spawn(th), m)
  {
  }

  /** A thread lets go of the object in one of its variables; the object gets another place. */
  lemma LetGo(s: State, m: map<Wip, Place>, t: nat, th: Thread, w: Wip, p: Place)
    requires Placed(s, m) && t < |s.threads|
    requires First(s.threads[t]) == Some(w) || Second(s.threads[t]) == Some(w)
    requires ThreadAt(m, th, t) && NotInThread(th, w)
    ensures Placed(s.WithThread(t, th), m[w := p])
    ensures OnlyAt(s, w, m[w]) && m[w].AtThread? && Free(s.WithThread(t, th), w)
  {
    assert ThreadAt(m, s.threads[t], t);
    NowhereElse(s, m, w);
    SetThread(s, m, t, th);
    var s1 := s.WithThread(t, th);
    assert Free(s1, w) by {
      forall i | 0 <= i < |s1.threads| ensures NotInThread(s1.threads[i], w) {
        assert OnlyAtThread(s.threads[i], i, w, m[w]);
      }
    }
    Retag(s1, m, w, p);
  }

  lemma QueuePush(m: map<Wip, Place>, q: seq<Wip>, p: Place, w: Wip)
    requires QueueAt(m, q, p) && w !in q && Is(m, w, p)
    ensures QueueAt(m, q + [w], p) && QueueAt(m, [w] + q, p)
  {
  }

  lemma QueuePop(m: map<Wip, Place>, q: seq<Wip>, p: Place)
    requires QueueAt(m, q, p) && q != []
    ensures QueueAt(m, q[1..], p) && q[0] !in q[1..] && Is(m, q[0], p)
  {
  }

  lemma PushLane(s: State, m: map<Wip, Place>, remote: bool, w: Wip)
    requires Placed(s, m) && Free(s, w) && Is(m, w, if remote then InRemote else InLocal)
    ensures var lane := s.LaneOf(remote);
            Placed(s.WithLane(remote, lane.(queue := lane.queue + [w])), m)
  {
    QueuePush(m, s.LaneOf(remote).queue, if remote then InRemote else InLocal, w);
    hide SetAt, QueueAt, PeersAt, ThreadsAt, Below;
  }

  /** The front of a queue goes to a new thread. */
  lemma PopLane(s: State, m: map<Wip, Place>, remote: bool, th: Thread)
    requires Placed(s, m) && s.LaneOf(remote).queue != []
    requires First(th) == Some(s.LaneOf(remote).queue[0]) && Second(th) == None && !th.Receiver?
    ensures var lane := s.LaneOf(remote);
            Placed(s.WithLane(remote, lane.(queue := lane.queue[1..])).Spawn(th),
                   m[lane.queue[0] := AtThread(|s.threads|, 0)])
  {
    var lane := s.LaneOf(remote);
    var w := lane.queue[0];
    var s1 := s.WithLane(remote, lane.(queue := lane.queue[1..]));
    QueuePop(m, lane.queue, if remote then InRemote else InLocal);
    NowhereElse(s, m, w);
    assert Placed(s1, m) by { hide SetAt, QueueAt, PeersAt, ThreadsAt, Below; }
    assert w < s.pools.next;
    assert Free(s1, w) by {
      assert forall t :: 0 <= t < |s.threads| ==> OnlyAtThread(s.threads[t], t, w, m[w]);
    }
    Retag(s1, m, w, AtThread(|s.threads|, 0));
    AddThread(s1, m[w := AtThread(|s.threads|, 0)], th);
  }

  lemma GiveIdle(s: State, m: map<Wip, Place>, w: Wip)
    requires Placed(s, m) && Is(m, w, InIdle)
    ensures Placed(s.(pools := PutIdle(s.pools, w)), m)
  {
  }

  /** The jobs that objects refer to, and the history counts, are not about places. */
  lemma JobsAside(s: State, m: map<Wip, Place>, p: Pools)
    requires Placed(s, m)
    requires p.idle == s.pools.idle && p.active == s.pools.active && p.completed == s.pools.completed
    requires p.peers == s.pools.peers && p.next == s.pools.next
    ensures Placed(s.(pools := p), m)
  {
  }

  /** Keys of active units do not change, so they stay different. */
  lemma SameKeys(p: Pools, p': Pools)
    requires OnePerJob(p) && p'.active <= p.active
    requires forall a :: a in p'.active ==> Key(p', a) == Key(p, a)
    ensures OnePerJob(p')
  {
  }

  // ---------------------------------------------------------------- reserving, preparing, loading

  lemma ReserveKeeps(s: State, m: map<Wip, Place>, a: ReserveAction)
    requires PlacesInv(s, m) && CanReserve(s, a)
    ensures PlacesInv(DoReserve(s, a), m)
  {
    hide SetAt, QueueAt, PeersAt, Below, OnePerJob;
  }

  lemma PrepTakeKeeps(s: State, m: map<Wip, Place>, a: PrepareAction)
    requires PlacesInv(s, m) && CanPrepare(s, a) && a.PrepTake?
    ensures PlacesInv(DoPrepare(s, a), m[a.w := AtThread(a.t, 0)])
  {
    hide Placed, OnlyAt;
    TakeFromIdle(s, m, a.w, AtThread(a.t, 0));
    SetThread(s.(pools := TakeIdle(s.pools, a.w)), m[a.w := AtThread(a.t, 0)], a.t, s.threads[a.t].(prep := Holding(a.w)));
    SameKeys(s.pools, TakeIdle(s.pools, a.w));
  }

  lemma ActiveIsKnown(s: State, m: map<Wip, Place>)
    requires Placed(s, m)
    ensures forall a :: a in s.pools.active ==> Is(m, a, InActive)
    ensures Below(m, s.pools.next) && ThreadsAt(m, s.threads)
    ensures forall a :: a in s.pools.active ==> a < s.pools.next
  {
  }

  lemma PrepNewKeeps(s: State, m: map<Wip, Place>, a: PrepareAction)
    requires PlacesInv(s, m) && CanPrepare(s, a) && a.PrepNew?
    ensures PlacesInv(DoPrepare(s, a), m[s.pools.next := AtThread(a.t, 0)])
  {
    hide Placed;
    var w := s.pools.next;
    ActiveIsKnown(s, m);
    TakeNew(s, m, AtThread(a.t, 0));
    SetThread(s.(pools := Allocate(s.pools)), m[w := AtThread(a.t, 0)], a.t, s.threads[a.t].(prep := Holding(w)));
    SameKeys(s.pools, Allocate(s.pools));
  }

  lemma PrepGotWorkKeeps(s: State, m: map<Wip, Place>, a: PrepareAction)
    requires PlacesInv(s, m) && CanPrepare(s, a) && a.PrepGotWork?
    ensures PlacesInv(DoPrepare(s, a), m)
  {
    hide Placed;
    var th := s.threads[a.t];
    var w := th.prep.w;
    ActiveIsKnown(s, m);
    assert ThreadAt(m, th, a.t);
    var job := s.pools.job[w := a.job];
    JobsAside(s, m, s.pools.(job := job));
    SetThread(s.(pools := s.pools.(job := job)), m, a.t, th.(prep := Ready(w)));
    SameKeys(s.pools, s.pools.(job := job));
  }

  lemma PrepNoWorkKeeps(s: State, m: map<Wip, Place>, a: PrepareAction)
    requires PlacesInv(s, m) && CanPrepare(s, a) && a.PrepNoWork?
    ensures PlacesInv(DoPrepare(s, a), m[s.threads[a.t].prep.w := InIdle])
  {
    hide Placed, OnlyAt, Free;
    var th := s.threads[a.t];
    var w := th.prep.w;
    ActiveIsKnown(s, m);
    assert ThreadAt(m, th, a.t);
    LetGo(s, m, a.t, th.(prep := Exiting), w, InIdle);
    GiveIdle(s.WithThread(a.t, th.(prep := Exiting)), m[w := InIdle], w);
    SameKeys(s.pools, PutIdle(s.pools, w));
  }

  lemma StartLoaderKeeps(s: State, m: map<Wip, Place>, a: PrepareAction)
    requires PlacesInv(s, m) && CanPrepare(s, a) && a.StartLoader?
    ensures PlacesInv(DoPrepare(s, a), m[s.threads[a.t].prep.w := AtThread(|s.threads|, 0)])
  {
    hide Placed, OnlyAt, Free;
    var th := s.threads[a.t];
    var w := th.prep.w;
    var th' := th.(tickets := th.tickets - 1, prep := Looping);
    LetGo(s, m, a.t, th', w, AtThread(|s.threads|, 0));
    AddThread(s.WithThread(a.t, th'), m[w := AtThread(|s.threads|, 0)], Loader(th.remote, Busy(w)));
  }

  /** Steps that only drop an object, or change counters. */
  lemma PrepOtherKeeps(s: State, m: map<Wip, Place>, a: PrepareAction)
    requires PlacesInv(s, m) && CanPrepare(s, a)
    requires a.PrepLeave? || a.StartLoaderFails? || a.PrepRelease?
    ensures PlacesInv(DoPrepare(s, a), m)
  {
    hide SetAt, QueueAt, PeersAt, Below, OnePerJob;
  }

  lemma PrepareKeeps(s: State, m: map<Wip, Place>, a: PrepareAction) returns (m': map<Wip, Place>)
    requires PlacesInv(s, m) && CanPrepare(s, a)
    ensures PlacesInv(DoPrepare(s, a), m')
  {
    hide PlacesInv, DoPrepare;
    match a
    case PrepTake(t, w) => PrepTakeKeeps(s, m, a); m' := m[w := AtThread(t, 0)];
    case PrepNew(t) => PrepNewKeeps(s, m, a); m' := m[s.pools.next := AtThread(t, 0)];
    case PrepGotWork(_, _) => PrepGotWorkKeeps(s, m, a); m' := m;
    case PrepNoWork(t) => PrepNoWorkKeeps(s, m, a); m' := m[s.threads[t].prep.w := InIdle];
    case StartLoader(t) => StartLoaderKeeps(s, m, a); m' := m[s.threads[t].prep.w := AtThread(|s.threads|, 0)];
    case _ => PrepOtherKeeps(s, m, a); m' := m;
  }

  lemma LoadPushKeeps(s: State, m: map<Wip, Place>, a: LoadAction) returns (m': map<Wip, Place>)
    requires PlacesInv(s, m) && CanLoad(s, a) && a.LoadPush?
    ensures PlacesInv(DoLoad(s, a), m')
  {
    hide Placed, OnlyAt, Free;
    var th := s.threads[a.t];
    var w := th.load.w;
    var p := if th.remote then InRemote else InLocal;
    m' := m[w := p];
    LetGo(s, m, a.t, th.(load := Pushed), w, p);
    PushLane(s.WithThread(a.t, th.(load := Pushed)), m', th.remote, w);
  }

  lemma LoadKeeps(s: State, m: map<Wip, Place>, a: LoadAction) returns (m': map<Wip, Place>)
    requires PlacesInv(s, m) && CanLoad(s, a)
    ensures PlacesInv(DoLoad(s, a), m')
  {
    if a.LoadPush? {
      hide PlacesInv;
      m' := LoadPushKeeps(s, m, a);
    } else {
      hide SetAt, QueueAt, PeersAt, Below, OnePerJob;
      m' := m;
    }
  }

  // ---------------------------------------------------------------- handing out

  lemma SendTakeKeeps(s: State, m: map<Wip, Place>, a: HandAction)
    requires PlacesInv(s, m) && CanHand(s, a) && a.SendTake?
    ensures PlacesInv(DoHand(s, a), m[a.w := AtThread(a.t, 1)])
  {
    hide Placed, OnlyAt;
    var th := s.threads[a.t];
    ActiveIsKnown(s, m);
    assert ThreadAt(m, th, a.t);
    IdleIsKnown(s, m, a.w);
    TakeFromIdle(s, m, a.w, AtThread(a.t, 1));
    SetThread(s.(pools := TakeIdle(s.pools, a.w)), m[a.w := AtThread(a.t, 1)], a.t, th.(send := Copied(th.send.w, a.w)));
    SameKeys(s.pools, TakeIdle(s.pools, a.w));
  }

  lemma IdleIsKnown(s: State, m: map<Wip, Place>, w: Wip)
    requires Placed(s, m) && w in s.pools.idle
    ensures Is(m, w, InIdle)
  {
  }

  lemma SendNewKeeps(s: State, m: map<Wip, Place>, a: HandAction)
    requires PlacesInv(s, m) && CanHand(s, a) && a.SendNew?
    ensures PlacesInv(DoHand(s, a), m[s.pools.next := AtThread(a.t, 1)])
  {
    hide Placed;
    var th, w := s.threads[a.t], s.pools.next;
    ActiveIsKnown(s, m);
    assert ThreadAt(m, th, a.t);
    TakeNew(s, m, AtThread(a.t, 1));
    SetThread(s.(pools := Allocate(s.pools)), m[w := AtThread(a.t, 1)], a.t, th.(send := Copied(th.send.w, w)));
    SameKeys(s.pools, Allocate(s.pools));
  }

  lemma PutActiveKeepsKeys(p: Pools, w: Wip)
    requires OnePerJob(p)
    ensures OnePerJob(PutActive(p, w))
  {
  }

  /** Whether or not the active set takes the unit, it has left its thread. */
  lemma GiveActive(s: State, m: map<Wip, Place>, w: Wip)
    requires Placed(s, m) && Is(m, w, InActive)
    ensures Placed(s.(pools := PutActive(s.pools, w)), m)
  {
  }

  /** A unit leaves its thread for the active set, after its job was copied to another object. */
  lemma ActivateKeeps(s: State, m: map<Wip, Place>, t: nat, th: Thread, w: Wip, c: Wip)
    requires PlacesInv(s, m) && t < |s.threads| && First(s.threads[t]) == Some(w)
    requires ThreadAt(m, th, t) && NotInThread(th, w)
    requires c in m && m[c] != InActive && c != w
    ensures var p := PutActive(CopyJob(s.pools, w, c), w);
            PlacesInv(s.(pools := p.(handed := p.handed + 1)).WithThread(t, th), m[w := InActive])
  {
    ActiveIsKnown(s, m);
    hide Placed, OnlyAt, Free, PutActive;
    var m' := m[w := InActive];
    var s1 := s.WithThread(t, th);
    LetGo(s, m, t, th, w, InActive);
    var q := CopyJob(s.pools, w, c);
    JobsAside(s1, m', q);
    SameKeys(s.pools, q);
    var s2 := s1.(pools := q);
    GiveActive(s2, m', w);
    PutActiveKeepsKeys(q, w);
    var p := PutActive(q, w);
    JobsAside(s2.(pools := p), m', p.(handed := p.handed + 1));
    SameKeys(p, p.(handed := p.handed + 1));
  }

  lemma SendActivateKeeps(s: State, m: map<Wip, Place>, a: HandAction)
    requires PlacesInv(s, m) && CanHand(s, a) && a.SendActivate?
    ensures PlacesInv(DoHand(s, a), m[s.threads[a.t].send.w := InActive])
  {
    hide Placed, OnePerJob, PutActive, CopyJob;
    var th := s.threads[a.t];
    var Copied(w, c) := th.send;
    ActiveIsKnown(s, m);
    assert ThreadAt(m, th, a.t);
    ActivateKeeps(s, m, a.t, th.(send := Activated(c)), w, c);
  }

  lemma SetPeer(s: State, m: map<Wip, Place>, h: Host, w: Wip)
    requires Placed(s, m) && Is(m, w, AtPeer(h))
    ensures Placed(s.(pools := s.pools.(peers := s.pools.peers[h := w])), m)
  {
  }

  lemma SendRecordKeeps(s: State, m: map<Wip, Place>, a: HandAction)
    requires PlacesInv(s, m) && CanHand(s, a) && a.SendRecord?
    ensures PlacesInv(DoHand(s, a), m[s.threads[a.t].send.copy := AtPeer(s.threads[a.t].host)])
  {
    hide Placed, OnlyAt, Free;
    var th := s.threads[a.t];
    var c := th.send.copy;
    LetGo(s, m, a.t, Done, c, AtPeer(th.host));
    SetPeer(s.WithThread(a.t, Done), m[c := AtPeer(th.host)], th.host, c);
    SameKeys(s.pools, s.pools.(peers := s.pools.peers[th.host := c]));
  }

  lemma GetActivateKeeps(s: State, m: map<Wip, Place>, a: HandAction)
    requires PlacesInv(s, m) && CanHand(s, a) && a.GetActivate?
    ensures PlacesInv(DoHand(s, a), m[s.threads[a.t].w := InActive])
  {
    hide OnePerJob, PutActive, CopyJob;
    var th := s.threads[a.t];
    ActiveIsKnown(s, m);
    assert ThreadAt(m, th, a.t) && Is(m, s.worker, AtWorker);
    ActivateKeeps(s, m, a.t, Done, th.w, s.worker);
  }

  lemma HandKeeps(s: State, m: map<Wip, Place>, a: HandAction) returns (m': map<Wip, Place>)
    requires PlacesInv(s, m) && CanHand(s, a)
    ensures PlacesInv(DoHand(s, a), m')
  {
    hide Placed, OnePerJob;
    match a
    case SendPop(h) =>
      PopLane(s, m, true, Sender(h, Popped(s.remote.queue[0])));
      m' := m[s.remote.queue[0] := AtThread(|s.threads|, 0)];
    case GetPop =>
      PopLane(s, m, false, Getter(s.local.queue[0]));
      m' := m[s.local.queue[0] := AtThread(|s.threads|, 0)];
    case SendTake(t, w) => SendTakeKeeps(s, m, a); m' := m[w := AtThread(t, 1)];
    case SendNew(t) => SendNewKeeps(s, m, a); m' := m[s.pools.next := AtThread(t, 1)];
    case SendActivate(t) => SendActivateKeeps(s, m, a); m' := m[s.threads[t].send.w := InActive];
    case SendRecord(t) => SendRecordKeeps(s, m, a); m' := m[s.threads[t].send.copy := AtPeer(s.threads[t].host)];
    case GetActivate(t) => GetActivateKeeps(s, m, a); m' := m[s.threads[t].w := InActive];
  }

  // ---------------------------------------------------------------- receiving

  lemma ContactKeeps(s: State, m: map<Wip, Place>, h: Host) returns (m': map<Wip, Place>)
    requires PlacesInv(s, m)
    ensures PlacesInv(s.(pools := Contact(s.pools, h)), m')
    ensures h in Contact(s.pools, h).peers && Is(m', Contact(s.pools, h).peers[h], AtPeer(h))
  {
    if h in s.pools.peers {
      m' := m;
    } else {
      m' := m[s.pools.next := AtPeer(h)];
      ActiveIsKnown(s, m);
      hide Placed;
      TakeNew(s, m, AtPeer(h));
      SetPeer(s.(pools := Allocate(s.pools)), m', h, s.pools.next);
      SameKeys(s.pools, Contact(s.pools, h));
    }
  }

  lemma ReceiveStartKeeps(s: State, m: map<Wip, Place>, h: Host) returns (m': map<Wip, Place>)
    requires PlacesInv(s, m)
    ensures PlacesInv(DoReceive(s, Receive(h)), m')
  {
    hide Placed, OnePerJob;
    m' := ContactKeeps(s, m, h);
    var s1 := s.(pools := Contact(s.pools, h));
    AddThread(s1, m', Receiver(s1.pools.peers[h], Received));
  }

  lemma RecvTakeKeeps(s: State, m: map<Wip, Place>, a: ReceiveAction) returns (m': map<Wip, Place>)
    requires PlacesInv(s, m) && CanReceive(s, a) && a.RecvTake?
    ensures PlacesInv(DoReceive(s, a), m')
  {
    hide Placed, OnlyAt;
    var th, w := s.threads[a.t], a.w;
    var p := AtThread(a.t, if th.recv.Received? then 0 else 1);
    m' := m[w := p];
    ActiveIsKnown(s, m);
    assert ThreadAt(m, th, a.t);
    IdleIsKnown(s, m, w);
    TakeFromIdle(s, m, w, p);
    SetThread(s.(pools := TakeIdle(s.pools, w)), m', a.t, WithOneMore(th, w));
    SameKeys(s.pools, TakeIdle(s.pools, w));
  }

  lemma RecvNewKeeps(s: State, m: map<Wip, Place>, a: ReceiveAction) returns (m': map<Wip, Place>)
    requires PlacesInv(s, m) && CanReceive(s, a) && a.RecvNew?
    ensures PlacesInv(DoReceive(s, a), m')
  {
    hide Placed;
    var th, w := s.threads[a.t], s.pools.next;
    var p := AtThread(a.t, if th.recv.Received? then 0 else 1);
    m' := m[w := p];
    ActiveIsKnown(s, m);
    assert ThreadAt(m, th, a.t);
    TakeNew(s, m, p);
    SetThread(s.(pools := Allocate(s.pools)), m', a.t, WithOneMore(th, w));
    SameKeys(s.pools, Allocate(s.pools));
  }

  lemma RecvUnpackKeeps(s: State, m: map<Wip, Place>, a: ReceiveAction)
    requires PlacesInv(s, m) && CanReceive(s, a) && (a.RecvUnpack? || a.RecvFails?)
    ensures PlacesInv(DoReceive(s, a), m)
  {
    hide Placed;
    var th := s.threads[a.t];
    var s' := DoReceive(s, a);
    ActiveIsKnown(s, m);
    assert ThreadAt(m, th, a.t);
    JobsAside(s, m, s'.pools);
    SetThread(s.(pools := s'.pools), m, a.t, s'.threads[a.t]);
    SameKeys(s.pools, s'.pools);
  }

  /** The active unit that a returned one matches goes to the completed list or the idle pool. */
  lemma ReturnKeeps(s: State, m: map<Wip, Place>, w: Wip, results: bool, front: bool) returns (m': map<Wip, Place>)
    requires PlacesInv(s, m)
    ensures PlacesInv(s.(pools := ReturnUnit(s.pools, w, results, front)), m')
    ensures forall x :: x in m && m[x] != InActive ==> x in m' && m'[x] == m[x]
  {
    var e := Equivalent(s.pools, w);
    if e.None? {
      m' := m;
    } else {
      m' := ReturnMatched(s, m, w, e.value, results, front);
    }
  }

  lemma LeaveActive(s: State, m: map<Wip, Place>, a: Wip, p: Place)
    requires Placed(s, m) && a in s.pools.active
    ensures var s1 := s.(pools := s.pools.(active := s.pools.active - {a}));
            Placed(s1, m[a := p]) && Free(s1, a)
    ensures Is(m, a, InActive)
  {
    NowhereElse(s, m, a);
    var s1 := s.(pools := s.pools.(active := s.pools.active - {a}));
    assert Free(s1, a) by {
      assert forall t :: 0 <= t < |s.threads| ==> OnlyAtThread(s.threads[t], t, a, InActive);
    }
    assert a < s.pools.next;
    assert Placed(s1, m);
    Retag(s1, m, a, p);
  }

  lemma GiveCompleted(s: State, m: map<Wip, Place>, a: Wip, front: bool)
    requires Placed(s, m) && Free(s, a) && Is(m, a, InCompleted)
    ensures var c := s.pools.completed;
            Placed(s.(pools := s.pools.(completed := if front then [a] + c else c + [a])), m)
  {
  }

  lemma ReturnMatched(s: State, m: map<Wip, Place>, w: Wip, a: Wip, results: bool, front: bool)
    returns (m': map<Wip, Place>)
    requires PlacesInv(s, m) && Equivalent(s.pools, w) == Some(a)
    ensures PlacesInv(s.(pools := ReturnUnit(s.pools, w, results, front)), m')
    ensures forall x :: x in m && m[x] != InActive ==> x in m' && m'[x] == m[x]
  {
    hide Placed, Free, Equivalent;
    var p := if results then InCompleted else InIdle;
    m' := m[a := p];
    LeaveActive(s, m, a, p);
    var q := s.pools.(active := s.pools.active - {a});
    var s1 := s.(pools := q);
    var r := ReturnUnit(s.pools, w, results, front);
    if results {
      GiveCompleted(s1, m', a, front);
      JobsAside(s1.(pools := q.(completed := r.completed)), m', r);
    } else {
      GiveIdle(s1, m', a);
      JobsAside(s1.(pools := PutIdle(q, a)), m', r);
    }
    SameKeys(s.pools, r);
  }

  lemma RecvReturnKeeps(s: State, m: map<Wip, Place>, a: ReceiveAction) returns (m': map<Wip, Place>)
    requires PlacesInv(s, m) && CanReceive(s, a) && a.RecvReturn?
    ensures PlacesInv(DoReceive(s, a), m')
  {
    hide Placed, ReturnUnit, OnePerJob;
    var th := s.threads[a.t];
    ActiveIsKnown(s, m);
    assert ThreadAt(m, th, a.t);
    m' := ReturnKeeps(s, m, th.recv.tmp, a.results, a.front);
    SetThread(s.(pools := ReturnUnit(s.pools, th.recv.tmp, a.results, a.front)), m', a.t,
              th.(recv := Settled(th.recv.tmp, th.recv.bak)));
  }

  lemma RecvPutKeeps(s: State, m: map<Wip, Place>, a: ReceiveAction) returns (m': map<Wip, Place>)
    requires PlacesInv(s, m) && CanReceive(s, a) && (a.RecvPutTmp? || a.RecvPutBak?)
    ensures PlacesInv(DoReceive(s, a), m')
  {
    hide Placed, OnlyAt, Free;
    var th := s.threads[a.t];
    var w := if a.RecvPutTmp? then th.recv.tmp else th.recv.bak;
    var th' := if a.RecvPutTmp? then th.(recv := OnlyBak(th.recv.bak)) else Done;
    m' := m[w := InIdle];
    ActiveIsKnown(s, m);
    assert ThreadAt(m, th, a.t);
    LetGo(s, m, a.t, th', w, InIdle);
    GiveIdle(s.WithThread(a.t, th'), m', w);
    SameKeys(s.pools, PutIdle(s.pools, w));
  }

  lemma ReceiveKeeps(s: State, m: map<Wip, Place>, a: ReceiveAction) returns (m': map<Wip, Place>)
    requires PlacesInv(s, m) && CanReceive(s, a)
    ensures PlacesInv(DoReceive(s, a), m')
  {
    hide PlacesInv, DoReceive;
    match a
    case Receive(h) => m' := ReceiveStartKeeps(s, m, h);
    case RecvTake(_, _) => m' := RecvTakeKeeps(s, m, a);
    case RecvNew(_) => m' := RecvNewKeeps(s, m, a);
    case RecvUnpack(_) => RecvUnpackKeeps(s, m, a); m' := m;
    case RecvFails(_) => RecvUnpackKeeps(s, m, a); m' := m;
    case RecvReturn(_, _, _) => m' := RecvReturnKeeps(s, m, a);
    case RecvPutTmp(_) => m' := RecvPutKeeps(s, m, a);
    case RecvPutBak(_) => m' := RecvPutKeeps(s, m, a);
  }

  // ---------------------------------------------------------------- housekeeping

  lemma ReapKeeps(s: State, m: map<Wip, Place>, a: HouseAction)
    requires PlacesInv(s, m) && CanKeep(s, a) && a.Reap?
    ensures PlacesInv(DoKeep(s, a), m)
  {
    ActiveIsKnown(s, m);
    assert PeersAt(m, s.pools.peers - a.hosts);
    hide SetAt, QueueAt, ThreadsAt, Below;
    SameKeys(s.pools, DoKeep(s, a).pools);
  }

  lemma KeepKeeps(s: State, m: map<Wip, Place>, a: HouseAction) returns (m': map<Wip, Place>)
    requires PlacesInv(s, m) && CanKeep(s, a)
    ensures PlacesInv(DoKeep(s, a), m')
  {
    hide PlacesInv, ReturnUnit;
    match a
    case HostSeen(h) => m' := ContactKeeps(s, m, h);
    case WorkerReturn(results, front) => m' := ReturnKeeps(s, m, s.worker, results, front);
    case Reap(_, _) => ReapKeeps(s, m, a); m' := m;
  }

  // ---------------------------------------------------------------- runs

  lemma StepKeepsPlaces(s: State, m: map<Wip, Place>, a: Action) returns (m': map<Wip, Place>)
    requires PlacesInv(s, m) && Enabled(s, a)
    ensures PlacesInv(Apply(s, a), m')
  {
    hide PlacesInv, DoReserve, DoPrepare, DoLoad, DoHand, DoReceive, DoKeep,
         CanReserve, CanPrepare, CanLoad, CanHand, CanReceive, CanKeep;
    match a
    case Reserving(b) => ReserveKeeps(s, m, b); m' := m;
    case Preparing(b) => m' := PrepareKeeps(s, m, b);
    case Loading(b) => m' := LoadKeeps(s, m, b);
    case Handing(b) => m' := HandKeeps(s, m, b);
    case Receiving(b) => m' := ReceiveKeeps(s, m, b);
    case Housekeeping(b) => m' := KeepKeeps(s, m, b);
  }

  lemma {:induction false} RunKeepsPlaces(trace: seq<State>, actions: seq<Action>, n: nat) returns (m: map<Wip, Place>)
    requires Run(trace, actions) && n < |trace|
    ensures PlacesInv(trace[n], m)
  {
    if n == 0 {
      m := map[0 := AtWorker];
    } else {
      hide PlacesInv, Apply, Enabled;
      var before := RunKeepsPlaces(trace, actions, n - 1);
      assert Follows(trace[n - 1], actions[n - 1], trace[n]);
      m := StepKeepsPlaces(trace[n - 1], before, actions[n - 1]);
    }
  }

  lemma PlacedOnce(s: State, m: map<Wip, Place>, p: Place, w: Wip)
    requires Placed(s, m) && At(s, p, w)
    ensures Is(m, w, p)
  {
  }

  /** In every state of every run, no object is in two places: not in two containers, not with
      two hosts, not in two variables of the threads. */
  lemma EveryObjectInOnePlace(trace: seq<State>, actions: seq<Action>, n: nat, p: Place, q: Place, w: Wip)
    requires Run(trace, actions) && n < |trace|
    requires At(trace[n], p, w) && At(trace[n], q, w)
    ensures p == q
  {
    hide At, Run, Placed;
    var m := RunKeepsPlaces(trace, actions, n);
    PlacedOnce(trace[n], m, p, w);
    PlacedOnce(trace[n], m, q, w);
  }

  /** ... and within a queue or the completed list it occurs once. */
  lemma QueuesHaveNoDuplicates(trace: seq<State>, actions: seq<Action>, n: nat, i: nat, j: nat)
    requires Run(trace, actions) && n < |trace| && i < j
    ensures j < |trace[n].remote.queue| ==> trace[n].remote.queue[i] != trace[n].remote.queue[j]
    ensures j < |trace[n].local.queue| ==> trace[n].local.queue[i] != trace[n].local.queue[j]
    ensures j < |trace[n].pools.completed| ==> trace[n].pools.completed[i] != trace[n].pools.completed[j]
  {
    var m := RunKeepsPlaces(trace, actions, n);
  }

  /** In every state of every run, at most one unit of a job is active. */
  lemma OneActiveUnitPerJob(trace: seq<State>, actions: seq<Action>, n: nat, a: Wip, b: Wip)
    requires Run(trace, actions) && n < |trace|
    requires a in trace[n].pools.active && b in trace[n].pools.active
    requires Key(trace[n].pools, a) == Key(trace[n].pools, b)
    ensures a == b
  {
    var m := RunKeepsPlaces(trace, actions, n);
  }
}
