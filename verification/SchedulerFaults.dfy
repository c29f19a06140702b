/**
 What a preparer that cannot be started does to the scheduler: the shutdown waits for its tickets
 (src/lib/daemon.cpp:327-329, 2188-2198). Also, how lists of actions are played from a state, for
 the concrete runs here and in the modules about refusals and returns.
 */
module SchedulerFaults {
  import opened Wrappers
  import opened SchedulerState
  import opened SchedulerCounters

  // ---------------------------------------------------------------- failed starts

  /** The step is a failed start of a preparer of the given lane. */
  ghost predicate StartFails(s: State, a: Action, remote: bool) {
    && a.Reserving? && a.reserving.StartPreparerFails? && a.reserving.t < |s.threads|
    && s.threads[a.reserving.t].Spawning? && s.threads[a.reserving.t].remote == remote
  }

  /** One of the first `n` steps of a run is a failed start. */
  ghost predicate SomeStartFailed(trace: seq<State>, actions: seq<Action>, n: nat, remote: bool)
    requires n <= |actions| < |trace|
  {
    exists i :: 0 <= i < n && StartFails(trace[i], actions[i], remote)
  }

  /** A thread is only started for tickets. */
  ghost predicate StartsHaveTickets(threads: seq<Thread>) {
    forall t :: 0 <= t < |threads| && threads[t].Spawning? ==> threads[t].tickets > 0
  }

  lemma ReserveKeepsStarts(s: State, a: ReserveAction)
    requires CanReserve(s, a) && StartsHaveTickets(s.threads)
    ensures StartsHaveTickets(DoReserve(s, a).threads)
  {
    hide Counter;
  }

  lemma PrepareKeepsStarts(s: State, a: PrepareAction)
    requires CanPrepare(s, a) && StartsHaveTickets(s.threads)
    ensures StartsHaveTickets(DoPrepare(s, a).threads)
  {
    hide Counter, Allocate, PutIdle, TakeIdle;
  }

  lemma WorkKeepsStarts(s: State, a: Action)
    requires Enabled(s, a) && StartsHaveTickets(s.threads) && (a.Reserving? || a.Preparing? || a.Loading?)
    ensures StartsHaveTickets(Apply(s, a).threads)
  {
    hide DoHand, DoReceive, DoKeep, CanHand, CanReceive, CanKeep, DoReserve, DoPrepare, CanReserve, CanPrepare;
    match a
    case Reserving(b) => ReserveKeepsStarts(s, b);
    case Preparing(b) => PrepareKeepsStarts(s, b);
    case _ =>
  }

  lemma ExchangeKeepsStarts(s: State, a: Action)
    requires Enabled(s, a) && StartsHaveTickets(s.threads) && (a.Handing? || a.Housekeeping?)
    ensures StartsHaveTickets(Apply(s, a).threads)
  {
    hide PutActive, ReturnUnit, CopyJob, Contact, DoReserve, DoPrepare, DoLoad, CanReserve, CanPrepare, CanLoad, DoReceive, CanReceive;
  }

  lemma ReceiveKeepsStarts(s: State, a: Action)
    requires Enabled(s, a) && StartsHaveTickets(s.threads) && a.Receiving?
    ensures StartsHaveTickets(Apply(s, a).threads)
  {
    hide ReturnUnit, CopyJob, Contact, DoReserve, DoPrepare, DoLoad, CanReserve, CanPrepare, CanLoad, DoHand, DoKeep, CanHand, CanKeep;
  }

  lemma StepKeepsStarts(s: State, a: Action)
    requires Enabled(s, a) && StartsHaveTickets(s.threads)
    ensures StartsHaveTickets(Apply(s, a).threads)
  {
    hide Apply, Enabled, StartsHaveTickets;
    if a.Receiving? {
      ReceiveKeepsStarts(s, a);
    } else if a.Handing? || a.Housekeeping? {
      ExchangeKeepsStarts(s, a);
    } else {
      WorkKeepsStarts(s, a);
    }
  }

  /** Tickets are lost by failed starts of their lane, and by nothing else. */
  lemma LeakStep(s: State, a: Action, remote: bool)
    requires Enabled(s, a) && StartsHaveTickets(s.threads)
    ensures var before, after := s.LaneOf(remote).leaked, Apply(s, a).LaneOf(remote).leaked;
            if StartFails(s, a, remote) then after > before else after == before
  {
    if !(a.Reserving? && a.reserving.StartPreparerFails?) {
      hide Apply, Enabled;
      LeakedOnlyByFailedStarts(s, a);
    }
  }

  lemma {:induction false} LeakedExactly(trace: seq<State>, actions: seq<Action>, n: nat, remote: bool)
    requires Run(trace, actions) && n < |trace|
    ensures StartsHaveTickets(trace[n].threads) && trace[n].LaneOf(remote).leaked >= 0
    ensures trace[n].LaneOf(remote).leaked > 0 <==> SomeStartFailed(trace, actions, n, remote)
  {
    if n > 0 {
      hide Apply, Enabled, StartFails, StartsHaveTickets;
      LeakedExactly(trace, actions, n - 1, remote);
      assert Follows(trace[n - 1], actions[n - 1], trace[n]);
      StepKeepsStarts(trace[n - 1], actions[n - 1]);
      LeakStep(trace[n - 1], actions[n - 1], remote);
      if i :| 0 <= i < n - 1 && StartFails(trace[i], actions[i], remote) {
        assert SomeStartFailed(trace, actions, n, remote);
      }
    }
  }

  /** Once all preparers and loaders of a lane have finished, the counter that the shutdown loop
      waits for is zero exactly when no preparer of that lane ever failed to start. */
  lemma ShutdownWaitEnds(trace: seq<State>, actions: seq<Action>, n: nat, remote: bool)
    requires Run(trace, actions) && n < |trace| && Quiet(trace[n].threads, remote)
    ensures trace[n].LaneOf(remote).preparing == 0 <==> !SomeStartFailed(trace, actions, n, remote)
  {
    hide Run, TotalTickets, StartFails, SomeStartFailed;
    LeakedExactly(trace, actions, n, remote);
    TicketsAreAccountedFor(trace, actions, n, remote);
    QuietTotals(trace[n].threads, remote);
  }

  /** After a failed start the counter is never zero again: the wait does not end. */
  lemma ShutdownHangs(trace: seq<State>, actions: seq<Action>, i: nat, n: nat, remote: bool)
    requires Run(trace, actions) && i < n < |trace| && StartFails(trace[i], actions[i], remote)
    ensures trace[n].LaneOf(remote).preparing > 0
  {
    hide Run, TotalTickets, StartFails;
    LeakedExactly(trace, actions, n, remote);
    TicketsAreAccountedFor(trace, actions, n, remote);
  }

  // ---------------------------------------------------------------- playing actions

  /** The state after a list of actions, if they can be taken in this order. */
  ghost function Play(s: State, actions: seq<Action>): Option<State>
    decreases |actions|
  {
    if actions == [] then Some(s)
    else if Enabled(s, actions[0]) then Play(Apply(s, actions[0]), actions[1..])
    else None
  }

  lemma {:induction false} PlayBoth(s: State, a: seq<Action>, b: seq<Action>, s': State)
    requires Play(s, a) == Some(s')
    ensures Play(s, a + b) == Play(s', b)
    decreases |a|
  {
    hide Apply, Enabled;
    if a == [] {
      assert a + b == b;
    } else {
      assert (a + b)[1..] == a[1..] + b && (a + b)[0] == a[0];
      PlayBoth(Apply(s, a[0]), a[1..], b, s');
    }
  }

  /** `trace` leads from its first state to its last by the actions. */
  ghost predicate Leads(trace: seq<State>, actions: seq<Action>) {
    && |trace| == |actions| + 1
    && forall i :: 0 <= i < |actions| ==> Follows(trace[i], actions[i], trace[i + 1])
  }

  lemma {:induction false} PlayLeads(s: State, actions: seq<Action>, s': State) returns (trace: seq<State>)
    requires Play(s, actions) == Some(s')
    ensures Leads(trace, actions) && trace[0] == s && trace[|actions|] == s'
    decreases |actions|
  {
    hide Apply, Enabled;
    if actions == [] {
      trace := [s];
    } else {
      var rest := PlayLeads(Apply(s, actions[0]), actions[1..], s');
      trace := [s] + rest;
      forall i | 0 <= i < |actions| ensures Follows(trace[i], actions[i], trace[i + 1]) {
        if i > 0 { assert Follows(rest[i - 1], actions[1..][i - 1], rest[i]); }
      }
    }
  }

  lemma PlayOne(s: State, a: Action)
    requires Enabled(s, a)
    ensures Play(s, [a]) == Some(Apply(s, a))
  {
    hide Apply, Enabled;
    assert [a][1..] == [];
    assert Play(Apply(s, a), []) == Some(Apply(s, a));
  }

  /** Two actions after the start: fifty remote tickets are waiting for their preparer. */
  function FirstTickets(): State {
    Start().(remote := Lane([], 50, 50, 0, 0, 50), threads := [Spawning(true, 50)])
  }

  const FIRST_TICKETS: seq<Action> := [Reserving(Reserve(true)), Reserving(AddTickets(true))]

  lemma FirstTicketsAreReached()
    ensures Play(Start(), FIRST_TICKETS) == Some(FirstTickets()) && NoReturns(FIRST_TICKETS)
  {
    var a, b := Reserving(Reserve(true)), Reserving(AddTickets(true));
    var s1 := Start().(remote := Lane([], 0, 50, 50, 0, 50));
    assert Enabled(Start(), a) && Apply(Start(), a) == s1;
    assert Enabled(s1, b) && Apply(s1, b) == FirstTickets();
    hide Apply, Enabled;
    PlayOne(Start(), a);
    PlayOne(s1, b);
    PlayBoth(Start(), [a], [b], s1);
    assert FIRST_TICKETS == [a] + [b];
  }

  lemma FirstStartFails()
    ensures var s, a := FirstTickets(), Reserving(StartPreparerFails(0));
            && Enabled(s, a)
            && Apply(s, a) == s.(remote := Lane([], 50, 50, 0, 50, 50), threads := [Done])
  {
  }

  lemma OneDone()
    ensures Quiet([Done], true) && Quiet([Done], false)
  {
  }

  /** A run in which the first preparer cannot be started: no thread is left, and fifty tickets. */
  lemma StuckShutdown()
    ensures exists trace: seq<State>, actions: seq<Action> ::
              && Run(trace, actions)
              && Quiet(trace[|actions|].threads, true) && Quiet(trace[|actions|].threads, false)
              && trace[|actions|].remote.preparing == 50
  {
    var a := Reserving(StartPreparerFails(0));
    var s := FirstTickets();
    var s' := s.(remote := Lane([], 50, 50, 0, 50, 50), threads := [Done]);
    hide Apply, Enabled, Play, Quiet, FIRST_TICKETS;
    assert Enabled(s, a) && Apply(s, a) == s' by { FirstStartFails(); }
    PlayOne(s, a);
    FirstTicketsAreReached();
    PlayBoth(Start(), FIRST_TICKETS, [a], s);
    assert Quiet([Done], true) && Quiet([Done], false) by { OneDone(); }
    var actions := FIRST_TICKETS + [a];
    var trace := PlayLeads(Start(), actions, s');
    assert Run(trace, actions) && trace[|actions|] == s';
  }
}
