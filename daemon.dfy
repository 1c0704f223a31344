/** The connection limit of the daemon: the accept loop of main counts
    every connection it hands to a child in current_connections, refuses
    connections once the count reaches connection_limit, and sig_child
    gives a slot back for every child it reaps. Both counters are
    u_int32_t. Processes are modelled by two numbers: children still
    running and children that have exited but are not reaped yet. */
module Daemon {

  const U32Max: nat := 0xFFFF_FFFF

  /** The u_int32_t decrement, wrapping at zero: subtraction modulo 2^32. */
  function Dec32(x: nat): (r: nat)
    requires x <= U32Max
    ensures r <= U32Max
    ensures r == (x - 1) % 0x1_0000_0000
  {
    if x == 0 then U32Max else x - 1
  }

  /** The counters and the children they are meant to count. */
  datatype Counters = Counters(limit: nat, current: nat, running: nat, zombies: nat)

  /** The counter never exceeds the limit and never falls below the number
      of children it answers for. */
  predicate Bounded(c: Counters) {
    c.running + c.zombies <= c.current <= c.limit <= U32Max
  }

  /** The counter is exactly the number of children not yet reaped. */
  predicate Exact(c: Counters) {
    Bounded(c) && c.current == c.running + c.zombies
  }

  /** The fate of one connection that select reports as ready. */
  datatype AcceptAction = AcceptFailed | Refused | Spawned | ForkFailed

  /** The accept loop body as written: the counter is incremented before
      fork, and a failed fork leaves it incremented. */
  function AcceptAsWrittenNext(c: Counters, acceptOk: bool, forkOk: bool): (Counters, AcceptAction) {
    if !acceptOk then (c, AcceptFailed)
    else if c.current >= c.limit then (c, Refused)
    else if forkOk then (c.(current := c.current + 1, running := c.running + 1), Spawned)
    else (c.(current := c.current + 1), ForkFailed)
  }

  /** The accept loop body with the slot given back when fork fails. */
  function AcceptNext(c: Counters, acceptOk: bool, forkOk: bool): (Counters, AcceptAction) {
    if !acceptOk then (c, AcceptFailed)
    else if c.current >= c.limit then (c, Refused)
    else if forkOk then (c.(current := c.current + 1, running := c.running + 1), Spawned)
    else (c, ForkFailed)
  }

  /** A running child exits and becomes reapable. */
  function ExitNext(c: Counters): Counters
    requires c.running > 0
  {
    c.(running := c.running - 1, zombies := c.zombies + 1)
  }

  /** sig_child: waitpid succeeds once per reapable child, and each success
      decrements the counter. */
  function Reap(c: Counters): Counters
    requires c.current <= U32Max
    decreases c.zombies
  {
    if c.zombies == 0 then c
    else Reap(c.(current := Dec32(c.current), zombies := c.zombies - 1))
  }

  /** Whether a listener was ready, and how accept and fork went for it. */
  datatype ListenEvent = ListenEvent(ready: bool, acceptOk: bool, forkOk: bool)

  /** One pass of the loop over the listeners that select reported, each
      ready one handled by the loop body as written. */
  function RoundNext(c: Counters, events: seq<ListenEvent>): (Counters, seq<AcceptAction>)
    decreases |events|
  {
    if events == [] then (c, [])
    else if !events[0].ready then RoundNext(c, events[1..])
    else
      var (c1, a) := AcceptAsWrittenNext(c, events[0].acceptOk, events[0].forkOk);
      var (c2, rest) := RoundNext(c1, events[1..]);
      (c2, [a] + rest)
  }

  /** The same pass with the corrected accept step. */
  function RoundFixedNext(c: Counters, events: seq<ListenEvent>): (Counters, seq<AcceptAction>)
    decreases |events|
  {
    if events == [] then (c, [])
    else if !events[0].ready then RoundFixedNext(c, events[1..])
    else
      var (c1, a) := AcceptNext(c, events[0].acceptOk, events[0].forkOk);
      var (c2, rest) := RoundFixedNext(c1, events[1..]);
      (c2, [a] + rest)
  }

  /** How many of the actions are a. */
  function Count(actions: seq<AcceptAction>, a: AcceptAction): nat {
    if actions == [] then 0 else (if actions[0] == a then 1 else 0) + Count(actions[1..], a)
  }

  /** Proof helper: Count of a sequence with one action in front. */
  lemma CountCons(a: AcceptAction, rest: seq<AcceptAction>, b: AcceptAction)
    ensures Count([a] + rest, b) == (if a == b then 1 else 0) + Count(rest, b)
  {
    assert ([a] + rest)[1..] == rest;
  }

  /** A connection is refused exactly when accept succeeded and the counter
      has reached the limit; a refused or failed accept leaves the counters
      alone, a spawned child takes one slot, and the limit is never
      exceeded. This holds for both forms of the accept step. */
  lemma AcceptRespectsLimit(c: Counters, acceptOk: bool, forkOk: bool)
    requires Bounded(c)
    ensures var (n, a) := AcceptNext(c, acceptOk, forkOk);
      Bounded(n) && (a == Refused <==> acceptOk && c.current >= c.limit) &&
      (a == AcceptFailed <==> !acceptOk) &&
      (a == Spawned <==> acceptOk && c.current < c.limit && forkOk) &&
      (a != Spawned ==> n == c) &&
      (a == Spawned ==> n.limit == c.limit && n.current == c.current + 1 &&
                        n.running == c.running + 1 && n.zombies == c.zombies)
    ensures var (n, a) := AcceptAsWrittenNext(c, acceptOk, forkOk);
      Bounded(n) && (a == Refused <==> acceptOk && c.current >= c.limit) &&
      (a == AcceptFailed <==> !acceptOk) &&
      (a == Spawned <==> acceptOk && c.current < c.limit && forkOk) &&
      (a == Refused || a == AcceptFailed ==> n == c) &&
      (acceptOk && c.current < c.limit ==>
        n.limit == c.limit && n.current == c.current + 1 && n.zombies == c.zombies &&
        n.running == c.running + (if forkOk then 1 else 0))
  {
  }

  /** The corrected accept step keeps the counter exact. */
  lemma AcceptKeepsExact(c: Counters, acceptOk: bool, forkOk: bool)
    requires Exact(c)
    ensures Exact(AcceptNext(c, acceptOk, forkOk).0)
  {
  }

  /** As written, a failed fork takes a slot that no child will give back:
      the counter then exceeds the number of children. */
  lemma ForkFailureLeaksSlot(c: Counters)
    requires Exact(c) && c.current < c.limit
    ensures var (n, a) := AcceptAsWrittenNext(c, true, false);
      a == ForkFailed && n.current == c.running + c.zombies + 1 && !Exact(n)
  {
  }

  lemma ExitKeepsExact(c: Counters)
    requires Exact(c) && c.running > 0
    ensures Exact(ExitNext(c))
  {
  }

  /** Reaping leaves no reapable child; for bounded counters it subtracts the
      reaped children without wrapping, so it keeps both invariants. */
  lemma {:induction false} ReapReleasesSlots(c: Counters)
    requires Bounded(c)
    ensures var r := Reap(c);
      r == c.(current := c.current - c.zombies, zombies := 0) && Bounded(r) &&
      (Exact(c) ==> Exact(r))
    decreases c.zombies
  {
    if c.zombies > 0 {
      ReapReleasesSlots(c.(current := Dec32(c.current), zombies := c.zombies - 1));
    }
  }

  /** A pass over the listeners as written keeps the counter within the
      limit and above the children, and spawns children only while slots
      are free; every failed fork widens the gap between the counter and
      the children by one, so the counter stays exact only on a pass
      without one. */
  lemma {:induction false} RoundKeepsBounded(c: Counters, events: seq<ListenEvent>)
    requires Bounded(c)
    ensures var (n, actions) := RoundNext(c, events);
      Bounded(n) && |actions| <= |events| && n.limit == c.limit &&
      n.running == c.running + Count(actions, Spawned) && n.zombies == c.zombies &&
      n.current == c.current + Count(actions, Spawned) + Count(actions, ForkFailed) &&
      (Exact(c) ==> (Exact(n) <==> Count(actions, ForkFailed) == 0))
    decreases |events|
  {
    if events != [] {
      if !events[0].ready {
        RoundKeepsBounded(c, events[1..]);
      } else {
        AcceptRespectsLimit(c, events[0].acceptOk, events[0].forkOk);
        var (c1, a) := AcceptAsWrittenNext(c, events[0].acceptOk, events[0].forkOk);
        RoundKeepsBounded(c1, events[1..]);
        var (c2, rest) := RoundNext(c1, events[1..]);
        CountCons(a, rest, Spawned);
        CountCons(a, rest, ForkFailed);
      }
    }
  }

  /** A pass with the corrected step keeps both invariants; the counter
      grows by the number of Spawned actions. */
  lemma {:induction false} RoundFixedKeepsInvariants(c: Counters, events: seq<ListenEvent>)
    requires Bounded(c)
    ensures var (n, actions) := RoundFixedNext(c, events);
      Bounded(n) && (Exact(c) ==> Exact(n)) && |actions| <= |events| &&
      n.current == c.current + Count(actions, Spawned) && n.zombies == c.zombies
    decreases |events|
  {
    if events != [] {
      if !events[0].ready {
        RoundFixedKeepsInvariants(c, events[1..]);
      } else {
        AcceptRespectsLimit(c, events[0].acceptOk, events[0].forkOk);
        var (c1, a) := AcceptNext(c, events[0].acceptOk, events[0].forkOk);
        RoundFixedKeepsInvariants(c1, events[1..]);
        var (c2, rest) := RoundFixedNext(c1, events[1..]);
        CountCons(a, rest, Spawned);
      }
    }
  }

  /** With a limit of one, a single failed fork blocks the service for good
      as written: once the exited children are reaped, the next connection is
      still refused, where the corrected step serves it. */
  lemma ForkFailureBlocksService()
    ensures var c := Counters(1, 0, 0, 0);
      var leaked := Reap(AcceptAsWrittenNext(c, true, false).0);
      AcceptAsWrittenNext(leaked, true, true).1 == Refused
    ensures var c := Counters(1, 0, 0, 0);
      var kept := Reap(AcceptNext(c, true, false).0);
      AcceptNext(kept, true, true).1 == Spawned
  {
  }

  /** Once the slot of a limit of one has leaked, no child is left to exit or
      to reap, and every later pass over the listeners refuses or fails every
      connection and leaves the counters as they are: the service stays
      blocked for good. */
  lemma {:induction false} LeakedSlotIsStuck(events: seq<ListenEvent>)
    ensures var leaked := Reap(AcceptAsWrittenNext(Counters(1, 0, 0, 0), true, false).0);
      leaked.running == 0 && leaked.zombies == 0 && Reap(leaked) == leaked &&
      var (n, actions) := RoundNext(leaked, events);
      n == leaked && forall i :: 0 <= i < |actions| ==> actions[i] == Refused || actions[i] == AcceptFailed
    decreases |events|
  {
    var leaked := Counters(1, 1, 0, 0);
    assert Reap(AcceptAsWrittenNext(Counters(1, 0, 0, 0), true, false).0) == leaked;
    if events != [] {
      LeakedSlotIsStuck(events[1..]);
      if events[0].ready {
        var (c1, a) := AcceptAsWrittenNext(leaked, events[0].acceptOk, events[0].forkOk);
        assert c1 == leaked && (a == Refused || a == AcceptFailed);
        var (c2, rest) := RoundNext(leaked, events[1..]);
        assert RoundNext(leaked, events) == (c2, [a] + rest);
      }
    }
  }

  /** With a limit of two, the third concurrent connection is refused and
      served again once a child has exited and been reaped. */
  lemma LimitTwoScenario()
    ensures var c0 := Counters(2, 0, 0, 0);
      var c1 := AcceptAsWrittenNext(c0, true, true).0;
      var c2 := AcceptAsWrittenNext(c1, true, true).0;
      AcceptAsWrittenNext(c2, true, true).1 == Refused &&
      AcceptAsWrittenNext(Reap(ExitNext(c2)), true, true).1 == Spawned
  {
    var c2 := Counters(2, 2, 2, 0);
    assert Reap(ExitNext(c2)) == Counters(2, 1, 1, 0) by {
      ReapReleasesSlots(ExitNext(c2));
    }
  }

  /** The daemon's counters as a mutable object; running and zombies stand
      for the process table. */
  class Server {
    var connectionLimit: nat
    var currentConnections: nat
    var running: nat
    var zombies: nat

    function State(): Counters
      reads this
    {
      Counters(connectionLimit, currentConnections, running, zombies)
    }

    constructor(limit: nat)
      requires limit <= U32Max
      ensures State() == Counters(limit, 0, 0, 0) && Exact(State())
    {
      connectionLimit := limit;
      currentConnections := 0;
      running := 0;
      zombies := 0;
    }

    /** One ready listener, as the accept loop handles it. */
    method AcceptAsWritten(acceptOk: bool, forkOk: bool) returns (action: AcceptAction)
      modifies this
      ensures (State(), action) == AcceptAsWrittenNext(old(State()), acceptOk, forkOk)
    {
      if !acceptOk {
        return AcceptFailed;
      }
      if currentConnections >= connectionLimit {
        return Refused;
      }
      currentConnections := currentConnections + 1;
      if forkOk {
        running := running + 1;
        return Spawned;
      }
      return ForkFailed;
    }

    /** One ready listener, giving the slot back when fork fails. */
    method Accept(acceptOk: bool, forkOk: bool) returns (action: AcceptAction)
      modifies this
      ensures (State(), action) == AcceptNext(old(State()), acceptOk, forkOk)
    {
      if !acceptOk {
        return AcceptFailed;
      }
      if currentConnections >= connectionLimit {
        return Refused;
      }
      currentConnections := currentConnections + 1;
      if forkOk {
        running := running + 1;
        return Spawned;
      }
      currentConnections := currentConnections - 1;
      return ForkFailed;
    }

    /** The loop over the listeners after select returns, as written. */
    method ServeReady(events: seq<ListenEvent>) returns (actions: seq<AcceptAction>)
      modifies this
      ensures (State(), actions) == RoundNext(old(State()), events)
    {
      var i := 0;
      actions := [];
      assert events[0..] == events;
      assert actions + RoundNext(State(), events).1 == RoundNext(State(), events).1;
      while i < |events|
        invariant 0 <= i <= |events|
        invariant (RoundNext(State(), events[i..]).0, actions + RoundNext(State(), events[i..]).1)
                  == RoundNext(old(State()), events)
      {
        ghost var before, acted := State(), actions;
        assert events[i..] == [events[i]] + events[i + 1..];
        if events[i].ready {
          var a := AcceptAsWritten(events[i].acceptOk, events[i].forkOk);
          assert RoundNext(before, events[i..]) ==
            (RoundNext(State(), events[i + 1..]).0, [a] + RoundNext(State(), events[i + 1..]).1);
          assert acted + ([a] + RoundNext(State(), events[i + 1..]).1) ==
            (acted + [a]) + RoundNext(State(), events[i + 1..]).1;
          actions := actions + [a];
        } else {
          assert RoundNext(before, events[i..]) == RoundNext(State(), events[i + 1..]);
        }
        i := i + 1;
      }
      assert actions + [] == actions;
    }

    /** A running child exits. */
    method ChildExit()
      requires running > 0
      modifies this
      ensures State() == ExitNext(old(State()))
    {
      running := running - 1;
      zombies := zombies + 1;
    }

    /** sig_child */
    method SigChild()
      requires currentConnections <= U32Max
      modifies this
      ensures State() == Reap(old(State()))
    {
      while zombies > 0
        invariant currentConnections <= U32Max
        invariant Reap(State()) == Reap(old(State()))
        decreases zombies
      {
        zombies := zombies - 1;
        currentConnections := Dec32(currentConnections);
      }
    }
  }
}
