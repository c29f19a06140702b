/**
 What the moves of the scheduler do to each container (src/lib/daemon.cpp:1479-1511, 1863-2018), and
 the order in which units go through the queues.
 */
module SchedulerMoves {
  import opened Wrappers
  import opened SchedulerState
  import opened SchedulerPlaces
  import opened SchedulerFaults

  // ---------------------------------------------------------------- the pools

  /** Objects other than `x` keep their keys. */
  ghost predicate OtherKeysStay(p: Pools, q: Pools, x: Wip) {
    forall w :: w != x ==> Key(q, w) == Key(p, w)
  }

  /** Taking, making and pooling an object. */
  lemma IdleMoves(p: Pools, w: Wip)
    ensures w in p.idle ==> TakeIdle(p, w) == p.(idle := p.idle - {w})
    ensures var q := Allocate(p);
            q.next == p.next + 1 && Key(q, p.next) == None && OtherKeysStay(p, q, p.next) && q == p.(next := q.next, job := q.job)
    ensures var q := PutIdle(p, w);
            q.idle == p.idle + {w} && Key(q, w) == None && OtherKeysStay(p, q, w) && q == p.(idle := q.idle, job := q.job)
  {
  }

  /** Copying a job, and the entry of a host. */
  lemma CopyMoves(p: Pools, from: Wip, to: Wip, h: Host)
    ensures var q := CopyJob(p, from, to);
            Key(q, to) == Key(p, from) && OtherKeysStay(p, q, to) && q == p.(job := q.job)
    ensures h in p.peers ==> Contact(p, h) == p
    ensures h !in p.peers ==>
              var q := Contact(p, h);
              && q.peers == p.peers[h := p.next] && q.next == p.next + 1 && Key(q, p.next) == None
              && OtherKeysStay(p, q, p.next) && q == p.(peers := q.peers, next := q.next, job := q.job)
  {
  }

  /** The active set takes a unit exactly when no active unit has its key. */
  lemma ActivateMoves(p: Pools, w: Wip)
    ensures (exists a :: a in p.active && Key(p, a) == Key(p, w)) ==> PutActive(p, w) == p.(untracked := p.untracked + 1)
    ensures (forall a :: a in p.active ==> Key(p, a) != Key(p, w)) ==> PutActive(p, w) == p.(active := p.active + {w})
  {
  }

  /** A return takes the active unit with the key out of the active set. With results it goes to the
      front or the end of the completed list, with the key of what was returned, and otherwise to the
      idle pool, without one. */
  lemma ReturnMoves(p: Pools, w: Wip, a: Wip, results: bool, front: bool)
    requires OnePerJob(p) && a in p.active && Key(p, a) == Key(p, w)
    ensures var q := ReturnUnit(p, w, results, front);
            && q.active == p.active - {a} && OtherKeysStay(p, q, a)
            && q == p.(active := q.active, completed := q.completed, idle := q.idle, job := q.job, recycled := q.recycled)
            && (results ==> q.idle == p.idle && q.recycled == p.recycled && Key(q, a) == Key(p, w)
                            && q.completed == if front then [a] + p.completed else p.completed + [a])
            && (!results ==> q.completed == p.completed && q.idle == p.idle + {a} && q.recycled == p.recycled + 1
                             && Key(q, a) == None)
  {
    assert Equivalent(p, w) == Some(a);
  }

  // ---------------------------------------------------------------- the queues

  /** A queue after `pushed` was added at its end and `popped` units were taken from its front. */
  ghost predicate Shifted(before: seq<Wip>, after: seq<Wip>, pushed: seq<Wip>, popped: nat) {
    popped <= |before| + |pushed| && after == (before + pushed)[popped..]
  }

  lemma ShiftedTwice(a: seq<Wip>, b: seq<Wip>, c: seq<Wip>, p: seq<Wip>, i: nat, q: seq<Wip>, j: nat)
    requires Shifted(a, b, p, i) && Shifted(b, c, q, j)
    ensures Shifted(a, c, p + q, i + j)
  {
    assert a + (p + q) == (a + p) + q;
    assert ((a + p) + q)[i..] == (a + p)[i..] + q;
    assert ((a + p) + q)[i + j..] == ((a + p) + q)[i..][j..];
  }

  /** A step adds at most one unit, at the end, or takes the first. */
  lemma StepShifts(s: State, a: Action, remote: bool) returns (pushed: seq<Wip>, popped: nat)
    requires Enabled(s, a)
    ensures Shifted(s.LaneOf(remote).queue, Apply(s, a).LaneOf(remote).queue, pushed, popped)
    ensures |pushed| + popped <= 1
    ensures pushed != [] ==> a.Loading? && a.loading.LoadPush? && s.threads[a.loading.t].remote == remote
                             && pushed == [s.threads[a.loading.t].load.w]
    ensures popped == 1 <==> a.Handing? && (if remote then a.handing.SendPop? else a.handing.GetPop?)
  {
    hide Counter, PutActive, ReturnUnit, CopyJob, Contact;
    pushed, popped := [], 0;
    if a.Loading? && a.loading.LoadPush? && s.threads[a.loading.t].remote == remote {
      pushed := [s.threads[a.loading.t].load.w];
    }
    if a.Handing? && (if remote then a.handing.SendPop? else a.handing.GetPop?) {
      popped := 1;
    }
  }

  /** Over any stretch of any run the queues are first in, first out. */
  lemma {:induction false} FirstInFirstOut(trace: seq<State>, actions: seq<Action>, i: nat, n: nat, remote: bool)
    returns (pushed: seq<Wip>, popped: nat)
    requires Leads(trace, actions) && i <= n < |trace|
    ensures Shifted(trace[i].LaneOf(remote).queue, trace[n].LaneOf(remote).queue, pushed, popped)
    ensures |pushed| + popped <= n - i
    decreases n
  {
    hide Apply, Enabled, Shifted;
    if n == i {
      pushed, popped := [], 0;
      NothingShifted(trace[i].LaneOf(remote).queue);
    } else {
      var p, k := FirstInFirstOut(trace, actions, i, n - 1, remote);
      assert Follows(trace[n - 1], actions[n - 1], trace[n]);
      var q, j := StepShifts(trace[n - 1], actions[n - 1], remote);
      ShiftedTwice(trace[i].LaneOf(remote).queue, trace[n - 1].LaneOf(remote).queue, trace[n].LaneOf(remote).queue, p, k, q, j);
      pushed, popped := p + q, k + j;
    }
  }

  lemma NothingShifted(q: seq<Wip>)
    ensures Shifted(q, q, [], 0)
  {
  }
}
