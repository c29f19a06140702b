/**
 The scheduler's critical sections as the methods of the daemon that run them
 (src/lib/daemon.cpp:668-745, 1479-1511, 1863-2018, 2172-2204), each proved to make the move of
 the same name in SchedulerState.
 */
module Daemon {
  import opened Wrappers
  import opened SchedulerState
  import opened SchedulerPlaces

  /** The two moves of a hand-out: the copy is made, and the unit becomes active. */
  ghost function HandOut(p: Pools, w: Wip, copy: Wip): Pools {
    var q := PutActive(CopyJob(p, w, copy), w);
    q.(handed := q.handed + 1)
  }

  /** A hand-out gives the copy the key of the unit, and makes the unit active unless an active unit has
      that key. */
  lemma HandOutMoves(p: Pools, w: Wip, copy: Wip)
    requires copy != w && copy !in p.active
    ensures var q := HandOut(p, w, copy);
            && q.handed == p.handed + 1 && Key(q, copy) == Key(p, w) && (forall x :: x != copy ==> Key(q, x) == Key(p, x))
            && (if exists a :: a in p.active && Key(p, a) == Key(p, w) then q.active == p.active else q.active == p.active + {w})
            && q.idle == p.idle && q.completed == p.completed && q.peers == p.peers && q.next == p.next
  {
    var c := CopyJob(p, w, copy);
    assert forall x :: x != copy ==> Key(c, x) == Key(p, x);
  }

  /** Two sets and a list of known objects have none in common, and the list has none twice. */
  ghost predicate Apart(a: set<Wip>, b: set<Wip>, q: seq<Wip>, next: Wip) {
    && a !! b && (forall w :: w in a || w in b ==> w < next)
    && (forall i :: 0 <= i < |q| ==> q[i] !in a && q[i] !in b && q[i] < next)
    && (forall i, j :: 0 <= i < j < |q| ==> q[i] != q[j])
  }

  /** An object that was in the list becomes active, and objects leave the idle set. */
  lemma MoveApart(a: set<Wip>, a': set<Wip>, b: set<Wip>, b': set<Wip>, q: seq<Wip>, w: Wip, next: Wip, next': Wip)
    requires Apart(a, b, q, next) && w !in a && w !in q && w < next <= next' && a' <= a && b' <= b + {w}
    ensures Apart(a', b', q, next')
  {
  }

  /** An active object becomes idle, or leaves. */
  lemma LeaveApart(a: set<Wip>, b: set<Wip>, q: seq<Wip>, next: Wip, w: Wip)
    requires Apart(a, b, q, next) && w in b
    ensures Apart(a, b - {w}, q, next) && Apart(a + {w}, b - {w}, q, next)
  {
  }

  lemma ApartParts(a: set<Wip>, b: set<Wip>, q: seq<Wip>, next: Wip)
    requires Apart(a, b, q, next)
    ensures a !! b && forall w :: w in b ==> w < next
  {
  }

  lemma PopApart(a: set<Wip>, b: set<Wip>, q: seq<Wip>, r: seq<Wip>, next: Wip)
    requires Apart(a, b, q + r, next)
    ensures q != [] ==> Apart(a, b, q[1..] + r, next) && q[0] !in q[1..] + r && q[0] !in a && q[0] < next
    ensures r != [] ==> Apart(a, b, q + r[1..], next) && r[0] !in q + r[1..] && r[0] !in a && r[0] < next
  {
    var s := q + r;
    if q != [] {
      assert forall i :: 0 <= i < |s| - 1 ==> (q[1..] + r)[i] == s[i + 1];
      assert s[0] == q[0];
    }
    if r != [] {
      var n := |q|;
      assert forall i :: 0 <= i < n ==> (q + r[1..])[i] == s[i];
      assert forall i :: n <= i < |s| - 1 ==> (q + r[1..])[i] == s[i + 1];
      assert s[n] == r[0];
    }
  }

  lemma OnlyMatch(p: Pools, w: Wip)
    requires OnePerJob(p)
    ensures forall a :: a in p.active && Key(p, a) == Key(p, w) ==> Equivalent(p, w) == Some(a)
  {
  }

  lemma MatchIsActive(p: Pools, w: Wip)
    ensures Equivalent(p, w).Some? ==> Equivalent(p, w).value in p.active
  {
  }

  class Daemon {
    var idle: set<Wip>
    var active: set<Wip>
    var completed: seq<Wip>
    var peers: map<Host, Wip>
    var jobOf: map<Wip, Job>
    var next: Wip
    ghost var handed: nat
    ghost var untracked: nat
    ghost var recycled: nat
    var queue: seq<Wip>
    var localQueue: seq<Wip>
    var preparingRemote: int
    var preparingLocal: int
    var maxRemote: int
    var maxLocal: int

    /** The containers as the state machine sees them. */
    ghost function View(): Pools
      reads this
    {
      Pools(idle, active, completed, peers, jobOf, next, handed, untracked, recycled)
    }

    constructor ()
      ensures View() == Start().pools && queue == [] && localQueue == [] && Valid()
      ensures preparingRemote == preparingLocal == 0
      ensures maxRemote == Start().remote.limit && maxLocal == Start().local.limit
    {
      idle, active, completed, peers, jobOf := {}, {}, [], map[], map[];
      queue, localQueue := [], [];
      next := 1;
      handed, untracked, recycled := 0, 0, 0;
      preparingRemote, preparingLocal := 0, 0;
      maxRemote, maxLocal := 50, 5;
    }

    /** A pooled object if there is one, a new one otherwise. */
    method GetIdleWip() returns (w: Wip)
      modifies this`idle, this`next, this`jobOf
      ensures old(idle) != {} ==> w in old(idle) && View() == TakeIdle(old(View()), w)
      ensures old(idle) == {} ==> w == old(next) && View() == Allocate(old(View()))
    {
      if idle != {} {
        w :| w in idle;
        idle := idle - {w};
        return;
      }
      w := next;
      next := next + 1;
      jobOf := jobOf - {w};
    }

    /** Resets an object and pools it. */
    method PutIdleWip(w: Wip)
      modifies this`idle, this`jobOf
      ensures View() == PutIdle(old(View()), w)
    {
      jobOf := jobOf - {w};
      idle := idle + {w};
    }

    method GetRemoteWip() returns (r: Option<Wip>)
      modifies this`queue
      ensures old(queue) == [] ==> r == None && queue == []
      ensures old(queue) != [] ==> r == Some(old(queue)[0]) && queue == old(queue)[1..]
    {
      r := None;
      if |queue| > 0 {
        r := Some(queue[0]);
        queue := queue[1..];
      }
    }

    method GetLocalWip() returns (r: Option<Wip>)
      modifies this`localQueue
      ensures old(localQueue) == [] ==> r == None && localQueue == []
      ensures old(localQueue) != [] ==> r == Some(old(localQueue)[0]) && localQueue == old(localQueue)[1..]
    {
      r := None;
      if |localQueue| > 0 {
        r := Some(localQueue[0]);
        localQueue := localQueue[1..];
      }
    }

    function KeyOf(w: Wip): Option<Job>
      reads this`jobOf
    {
      if w in jobOf then Some(jobOf[w]) else None
    }

    /** The active unit that a lookup with `w` finds. */
    method GetActiveWip(w: Wip) returns (r: Option<Wip>)
      requires OnePerJob(View())
      ensures r == Equivalent(View(), w)
    {
      r := None;
      var rest := active;
      while rest != {}
        invariant rest <= active && r == None
        invariant forall a :: a in active && a !in rest ==> KeyOf(a) != KeyOf(w)
        decreases rest
      {
        var a :| a in rest;
        if KeyOf(a) == KeyOf(w) { r := Some(a); break; }
        rest := rest - {a};
      }
      ghost var p := View();
      assert forall a :: KeyOf(a) == Key(p, a);
    }

    /** Inserts a unit unless an equivalent one is active, as a set ordered by job does. */
    method PutActiveWip(w: Wip)
      requires OnePerJob(View())
      modifies this`active, this`untracked
      ensures View() == PutActive(old(View()), w)
      ensures OnePerJob(View()) && active <= old(active) + {w}
    {
      PutActiveKeepsKeys(View(), w);
      var e := GetActiveWip(w);
      if e.None? { active := active + {w}; } else { untracked := untracked + 1; }
    }

    /** What the containers promise each other: no object is in two of them, all are known, and no
        two active units belong to the same job. */
    ghost predicate Valid()
      reads this
    {
      OnePerJob(View()) && Apart(idle, active, queue + localQueue, next)
    }

    /** The caller's object, or a pooled or new one, becomes a copy of the unit, and the unit
        itself becomes active. */
    method Activate(tmp: Wip, wip: Option<Wip>) returns (c: Wip)
      requires OnePerJob(View()) && idle !! active && (forall w :: w in active ==> w < next)
      requires wip.Some? ==> wip.value !in active
      modifies this`idle, this`next, this`jobOf, this`active, this`handed, this`untracked
      ensures wip.Some? ==> c == wip.value && View() == HandOut(old(View()), tmp, c)
      ensures wip.None? && old(idle) != {} ==>
                c in old(idle) && View() == HandOut(TakeIdle(old(View()), c), tmp, c)
      ensures wip.None? && old(idle) == {} ==>
                c == old(next) && View() == HandOut(Allocate(old(View())), tmp, c)
      ensures OnePerJob(View())
      ensures idle <= old(idle) && active <= old(active) + {tmp} && next >= old(next)
    {
      hide PutActive;
      ghost var before := View();
      if wip.None? { c := GetIdleWip(); } else { c := wip.value; }
      SameKeys(before, View());
      ghost var middle := View();
      if tmp in jobOf { jobOf := jobOf[c := jobOf[tmp]]; } else { jobOf := jobOf - {c}; }
      SameKeys(middle, View());
      PutActiveWip(tmp);
      handed := handed + 1;
    }

    /** Hands out the first unit of a queue, if it has one. */
    method GetWork(wip: Option<Wip>, remote: bool) returns (r: Option<Wip>)
      requires Valid() && (wip.Some? ==> wip.value !in active)
      modifies this`queue, this`localQueue, this`idle, this`next, this`jobOf, this`active, this`handed, this`untracked
      ensures var q := old(if remote then queue else localQueue);
              (if remote then queue else localQueue) == (if q == [] then [] else q[1..])
      ensures (if remote then localQueue else queue) == old(if remote then localQueue else queue)
      ensures r.None? <==> old(if remote then queue else localQueue) == []
      ensures r.None? ==> View() == old(View())
      ensures r.Some? ==>
                var w := old(if remote then queue else localQueue)[0];
                var p := old(View());
                if wip.Some? then r == wip && View() == HandOut(p, w, r.value)
                else if p.idle != {} then r.value in p.idle && View() == HandOut(TakeIdle(p, r.value), w, r.value)
                else r.value == p.next && View() == HandOut(Allocate(p), w, r.value)
      ensures Valid()
    {
      hide OnePerJob, PutActive, Apart;
      PopApart(idle, active, queue, localQueue, next);
      ApartParts(idle, active, queue + localQueue, next);
      var tmp;
      if remote { tmp := GetRemoteWip(); } else { tmp := GetLocalWip(); }
      if tmp.None? { return None; }
      var c := Activate(tmp.value, wip);
      MoveApart(old(idle), idle, old(active), active, queue + localQueue, tmp.value, old(next), next);
      r := Some(c);
    }

    /** Takes back a unit: the matching active one goes to the completed list, remote units to its
        end and local ones to its front, or to the idle pool. */
    method ReturnWork(w: Wip, results: bool, isRemote: bool)
      requires Valid()
      modifies this`active, this`completed, this`idle, this`jobOf, this`recycled
      ensures View() == ReturnUnit(old(View()), w, results, !isRemote)
      ensures forall a :: a in old(active) && old(KeyOf(a)) == old(KeyOf(w)) ==>
                && active == old(active) - {a}
                && (results && isRemote ==> completed == old(completed) + [a])
                && (results && !isRemote ==> completed == [a] + old(completed))
                && (!results ==> completed == old(completed) && idle == old(idle) + {a})
      ensures Valid()
    {
      hide Equivalent, Apart;
      ghost var before := View();
      var e := GetActiveWip(w);
      MatchIsActive(before, w);
      if e.Some? { LeaveApart(idle, active, queue + localQueue, next, e.value); }
      if e.Some? {
        var a := e.value;
        active := active - {a};
        if results {
          if w in jobOf { jobOf := jobOf[a := jobOf[w]]; } else { jobOf := jobOf - {a}; }
          if isRemote { completed := completed + [a]; } else { completed := [a] + completed; }
        } else {
          PutIdleWip(a);
          recycled := recycled + 1;
        }
        SameKeys(before, View());
      }
      OnlyMatch(before, w);
    }

    /** The object of a host, made on first contact. */
    method GetWip(h: Host) returns (w: Wip)
      modifies this`peers, this`next, this`jobOf
      ensures View() == Contact(old(View()), h)
      ensures h in peers && w == peers[h]
    {
      if h !in peers {
        peers := peers[h := next];
        jobOf := jobOf - {next};
        next := next + 1;
      }
      w := peers[h];
    }

    /** The remote round of the reserver: it takes a ticket for every unit that is missing, so that
        what is queued or in preparation fills the limit, unless it exceeds it already. */
    method ReserveRemote() returns (tickets: nat)
      modifies this`preparingRemote
      ensures preparingRemote == old(preparingRemote) + tickets
      ensures |queue| + old(preparingRemote) <= maxRemote ==> |queue| + preparingRemote == maxRemote
      ensures |queue| + old(preparingRemote) >= maxRemote ==> tickets == 0
      ensures tickets > 0 ==> tickets == Wanted(Lane(queue, old(preparingRemote), maxRemote, 0, 0, maxRemote), true)
    {
      tickets := 0;
      var nToPrepare := maxRemote - |queue| - preparingRemote;
      if nToPrepare > 0 {
        preparingRemote := preparingRemote + nToPrepare;
        tickets := nToPrepare;
      }
    }

    /** The local round: one ticket at a time, and only where the queue has room for its unit. */
    method ReserveLocal() returns (tickets: nat)
      modifies this`preparingLocal
      ensures preparingLocal == old(preparingLocal) + tickets
      ensures tickets > 0 ==> preparingLocal == 1 && |localQueue| + preparingLocal <= maxLocal
      ensures tickets == 0 ==> preparingLocal != 0 || |localQueue| >= maxLocal
      ensures tickets > 0 ==> tickets == Wanted(Lane(localQueue, old(preparingLocal), maxLocal, 0, 0, maxLocal), false)
    {
      tickets := 0;
      if preparingLocal == 0 && |localQueue| + preparingLocal < maxLocal { tickets := 1; }
      if tickets > 0 { preparingLocal := preparingLocal + tickets; }
    }
  }

  // ---------------------------------------------------------------- the reaper

  /** What the clock tells about a host's unit; a unit that was never started has no start. */
  datatype Times = Times(now: int, started: map<Wip, int>, lastSeen: map<Host, int>,
                         workTimeout: map<Job, int>, hostTimeout: int)

  predicate WorkLate(c: Times, j: Job, w: Wip) {
    w in c.started && j in c.workTimeout && c.now - c.started[w] > c.workTimeout[j]
  }

  predicate HostLate(c: Times, h: Host) {
    h in c.lastSeen && c.now - c.lastSeen[h] > c.hostTimeout
  }

  /** The entry of a host stays: its job is alive and neither timeout has passed. */
  predicate Stays(p: Pools, c: Times, h: Host)
    requires h in p.peers
  {
    var w := p.peers[h];
    w in p.job && !WorkLate(c, p.job[w], w) && !HostLate(c, h)
  }

  /** The unit of a host is failed: its job is alive and a timeout has passed. */
  predicate Fails(p: Pools, c: Times, h: Host)
    requires h in p.peers
  {
    var w := p.peers[h];
    w in p.job && (WorkLate(c, p.job[w], w) || HostLate(c, h))
  }

  /** The pass over the peer table: entries are erased while it is walked, and timed-out units are
      collected; a unit whose work and host are both late is pushed once, and then as null. */
  method ReapPeers(p: Pools, c: Times) returns (peers: map<Host, Wip>, timedOut: seq<Option<Wip>>)
    ensures forall h :: h in peers <==> h in p.peers && p.peers[h] in p.job && WorkInTime(p, c, h) && HostInTime(c, h)
    ensures forall h :: h in peers ==> peers[h] == p.peers[h]
    ensures forall w :: Some(w) in timedOut <==>
              w in p.job && exists h :: h in p.peers && p.peers[h] == w && !(WorkInTime(p, c, h) && HostInTime(c, h))
    ensures peers == map h | h in p.peers && Stays(p, c, h) :: p.peers[h]
    ensures forall w :: Some(w) in timedOut <==> exists h :: h in p.peers && Fails(p, c, h) && p.peers[h] == w
    ensures OneHostEach(p) ==> OnceEach(timedOut)
  {
    TimesExactly(p, c);
    hide Stays, Fails, OnceEach, WorkInTime, HostInTime;
    peers := p.peers;
    timedOut := [];
    assert OnceEach(timedOut) by { NothingTwice(); }
    var todo := p.peers.Keys;
    while todo != {}
      invariant todo <= p.peers.Keys
      invariant peers == map h | h in p.peers && (h in todo || Stays(p, c, h)) :: p.peers[h]
      invariant Collected(p, c, timedOut, todo)
      invariant OneHostEach(p) ==> OnceEach(timedOut)
      decreases todo
    {
      var h :| h in todo;
      ghost var before, done := timedOut, todo;
      var stays, pushed := Examine(p, c, h);
      timedOut := timedOut + pushed;
      if !stays { peers := peers - {h}; }
      todo := todo - {h};
      ReapStep(p, c, h, before, pushed, done);
    }
  }

  /** The unit of the host was started no longer ago than its job allows, if it was started. */
  ghost predicate WorkInTime(p: Pools, c: Times, h: Host)
    requires h in p.peers && p.peers[h] in p.job
  {
    var w := p.peers[h];
    w in c.started && p.job[w] in c.workTimeout ==> c.now <= c.started[w] + c.workTimeout[p.job[w]]
  }

  /** The host was seen no longer ago than hosts may be silent. */
  ghost predicate HostInTime(c: Times, h: Host) {
    h in c.lastSeen ==> c.now <= c.lastSeen[h] + c.hostTimeout
  }

  /** What stays and what fails, on times. */
  lemma TimesExactly(p: Pools, c: Times)
    ensures forall h :: h in p.peers && p.peers[h] in p.job ==>
              && (Stays(p, c, h) <==> WorkInTime(p, c, h) && HostInTime(c, h))
              && (Fails(p, c, h) <==> !(WorkInTime(p, c, h) && HostInTime(c, h)))
    ensures forall h :: h in p.peers && p.peers[h] !in p.job ==> !Stays(p, c, h) && !Fails(p, c, h)
  {
  }

  /** Waiting longer never lets more entries stay, nor fewer units fail. */
  lemma LaterKeepsFewer(p: Pools, c: Times, later: int, h: Host)
    requires h in p.peers && c.now <= later
    ensures Stays(p, c.(now := later), h) ==> Stays(p, c, h)
    ensures Fails(p, c, h) ==> Fails(p, c.(now := later), h)
  {
  }

  /** In the end every started unit of a job with a timeout fails. */
  lemma EverySilentUnitFails(p: Pools, c: Times, h: Host)
    requires h in p.peers && p.peers[h] in p.job
    requires (p.peers[h] in c.started && p.job[p.peers[h]] in c.workTimeout) || h in c.lastSeen
    ensures exists later :: later >= c.now && Fails(p, c.(now := later), h)
  {
    var w := p.peers[h];
    var n := if h in c.lastSeen then c.lastSeen[h] + c.hostTimeout + 1 else c.started[w] + c.workTimeout[p.job[w]] + 1;
    var later := if n < c.now then c.now else n;
    assert Fails(p, c.(now := later), h);
  }

  /** One entry: whether it stays, and what is pushed to the list of timed-out units. */
  method Examine(p: Pools, c: Times, h: Host) returns (stays: bool, pushed: seq<Option<Wip>>)
    requires h in p.peers
    ensures stays == Stays(p, c, h)
    ensures if Fails(p, c, h)
            then pushed == [Some(p.peers[h])] || pushed == [Some(p.peers[h]), None]
            else pushed == []
  {
    pushed := [];
    var wip := Some(p.peers[h]);
    var job := if wip.value in p.job then Some(p.job[wip.value]) else None;
    if job.Some? && WorkLate(c, job.value, wip.value) {
      pushed := pushed + [wip];
      wip := None;
    }
    if job.Some? {
      if HostLate(c, h) {
        pushed := pushed + [wip];
        wip := None;
      }
    } else {
      wip := None;
    }
    stays := wip.Some?;
  }

  /** No two hosts share an object. */
  ghost predicate OneHostEach(p: Pools) {
    forall h, g :: h in p.peers && g in p.peers && p.peers[h] == p.peers[g] ==> h == g
  }

  /** No object is failed twice. */
  ghost predicate OnceEach(timedOut: seq<Option<Wip>>) {
    forall i, j :: 0 <= i < j < |timedOut| && timedOut[i].Some? ==> timedOut[i] != timedOut[j]
  }

  lemma NothingTwice()
    ensures OnceEach([])
  {
  }

  /** The timed-out list holds exactly the failed units of the hosts looked at so far. */
  ghost predicate Collected(p: Pools, c: Times, timedOut: seq<Option<Wip>>, todo: set<Host>) {
    forall w :: Some(w) in timedOut <==> exists h :: h in p.peers && h !in todo && Fails(p, c, h) && p.peers[h] == w
  }

  lemma ReapStep(p: Pools, c: Times, h: Host, before: seq<Option<Wip>>, pushed: seq<Option<Wip>>, todo: set<Host>)
    requires h in todo && todo <= p.peers.Keys && Collected(p, c, before, todo)
    requires if Fails(p, c, h)
             then pushed == [Some(p.peers[h])] || pushed == [Some(p.peers[h]), None]
             else pushed == []
    ensures Collected(p, c, before + pushed, todo - {h})
    ensures OneHostEach(p) && OnceEach(before) ==> OnceEach(before + pushed)
  {
  }

  /** failedWIP on every unit of the list: its job is told, and forgotten by the unit. */
  function FailAll(p: Pools, timedOut: seq<Option<Wip>>): Pools {
    p.(job := p.job - set w | w in p.job && Some(w) in timedOut)
  }

  /** The pass, and failing the units it collects, are one reaping step of the state machine: of
      the erased hosts, and among them those whose unit is failed. */
  lemma ReapIsAStep(s: State, c: Times, peers: map<Host, Wip>, timedOut: seq<Option<Wip>>)
    requires peers == map h | h in s.pools.peers && Stays(s.pools, c, h) :: s.pools.peers[h]
    requires forall w :: Some(w) in timedOut <==> exists h :: h in s.pools.peers && Fails(s.pools, c, h) && s.pools.peers[h] == w
    ensures var gone := s.pools.peers.Keys - peers.Keys;
            var failed := set h | h in s.pools.peers && Fails(s.pools, c, h);
            && CanKeep(s, Reap(gone, failed))
            && DoKeep(s, Reap(gone, failed)) == s.(pools := FailAll(s.pools, timedOut).(peers := peers))
  {
    var p := s.pools;
    var gone := p.peers.Keys - peers.Keys;
    var failed := set h | h in p.peers && Fails(p, c, h);
    assert forall h :: h in failed ==> !Stays(p, c, h);
    hide Stays, Fails;
    assert p.peers - gone == peers;
    var units := set h | h in failed :: p.peers[h];
    assert forall w :: w in units <==> Some(w) in timedOut;
    assert p.job - units == FailAll(p, timedOut).job;
  }
}
