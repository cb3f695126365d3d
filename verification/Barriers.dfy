/**
 * The two barriers of the traffic threads: the full-duplex start/stop barrier of
 * src/Launch.cpp, which two threads share, and Client::BarrierClient of src/Client.cpp,
 * at which the parallel clients meet before they send. A wait gives up the mutex, so a
 * call is cut into critical sections at its waits, and runs interleave those.
 */
module Barriers {
  // ----- fullduplex_startstop_barrier -----

  /** How a critical section ends: the call returns, or goes (back) to sleep. */
  datatype Outcome = Returns(rc: int) | Waits(left: int)

  /** The section from the entry to the first wait. */
  function Entered(count: int, timeout: int): (int, Outcome) {
    if count + 1 == 2 then (2, Returns(1))
    else if timeout > 0 then (count + 1, Waits(timeout))
    else (0, Returns(0))
  }

  /** The section that follows a wait with `left` seconds of patience. */
  function Woken(count: int, left: int): (int, Outcome) {
    if left == 1 && count != 2 then (count, Returns(-1))
    else if count != 2 && left > 1 then (count, Waits(left - 1))
    else (0, Returns(0))
  }

  class BarrierMutex {
    var count: int
    const timeout: int

    constructor (timeout: int)
      ensures count == 0 && this.timeout == timeout
    {
      count, this.timeout := 0, timeout;
    }

    method Enter() returns (o: Outcome)
      modifies this
      ensures (count, o) == Entered(old(count), timeout)
    {
      count := count + 1;
      if count == 2 {
        return Returns(1);
      }
      o := WaitOrPass(timeout);
    }

    /** After Condition_TimedWait, whatever ended the wait. */
    method Wake(left: int) returns (o: Outcome)
      modifies this
      ensures (count, o) == Woken(old(count), left)
    {
      var timeout := left - 1;
      if timeout == 0 && count != 2 {
        return Returns(-1);
      }
      o := WaitOrPass(timeout);
    }

    /** The loop test and what follows the loop. */
    method WaitOrPass(timeout: int) returns (o: Outcome)
      modifies this
      ensures (count, o) == (if old(count) != 2 && timeout > 0 then (old(count), Waits(timeout)) else (0, Returns(0)))
    {
      if count != 2 && timeout > 0 {
        return Waits(timeout);
      }
      count := 0;
      o := Returns(0);
    }
  }

  /** The two threads of a full-duplex pair. */
  datatype Side = Near | Far

  datatype Seat = Away | Waiting(left: int)

  /** The barrier with its two callers, and how many calls began and returned 1, 0, -1. */
  datatype Duplex = Duplex(count: int, near: Seat, far: Seat, nears: nat, fars: nat,
                           ones: nat, zeros: nat, timeouts: nat, wakes: nat)
  {
    function Of(side: Side): Seat {
      if side.Near? then near else far
    }

    function Seated(side: Side, seat: Seat): Duplex {
      if side.Near? then this.(near := seat) else this.(far := seat)
    }

    function Counted(side: Side): Duplex {
      if side.Near? then this.(nears := nears + 1) else this.(fars := fars + 1)
    }

    function After(side: Side, next: (int, Outcome)): Duplex {
      var s := this.(count := next.0);
      match next.1
      case Waits(left) => s.Seated(side, Waiting(left))
      case Returns(rc) =>
        var s := s.Seated(side, Away);
        if rc == 1 then s.(ones := ones + 1)
        else if rc == 0 then s.(zeros := zeros + 1)
        else s.(timeouts := timeouts + 1)
    }
  }

  const FRESH := Duplex(0, Away, Away, 0, 0, 0, 0, 0, 0)

  datatype Step = Arrive(side: Side) | Wake(side: Side)

  predicate Possible(s: Duplex, a: Step) {
    match a
    case Arrive(side) => s.Of(side).Away?
    case Wake(side) => s.Of(side).Waiting?
  }

  /** One critical section; an impossible step changes nothing. */
  function Taken(timeout: int, s: Duplex, a: Step): Duplex {
    if !Possible(s, a) then s
    else match a
      case Arrive(side) => s.Counted(side).After(side, Entered(s.count, timeout))
      case Wake(side) => s.(wakes := s.wakes + 1).After(side, Woken(s.count, s.Of(side).left))
  }

  function Run(timeout: int, steps: seq<Step>): Duplex {
    if steps == [] then FRESH
    else Taken(timeout, Run(timeout, steps[..|steps| - 1]), steps[|steps| - 1])
  }

  /** A step that spoils the barrier: a timeout, or an entry before the waiter of the last round left. */
  predicate Spoils(s: Duplex, a: Step) {
    && Possible(s, a)
    && match a
       case Arrive(side) => s.count == 2
       case Wake(side) => s.count != 2 && s.Of(side).left == 1
  }

  predicate Orderly(timeout: int, steps: seq<Step>) {
    steps == [] ||
    (Orderly(timeout, steps[..|steps| - 1])
     && !Spoils(Run(timeout, steps[..|steps| - 1]), steps[|steps| - 1]))
  }

  predicate Quiet(s: Duplex) {
    s.near.Away? && s.far.Away?
  }

  /** Between rounds, one waiting, or both arrived and the first not yet awake. */
  predicate Clean(timeout: int, s: Duplex) {
    && (s.near.Waiting? ==> 1 <= s.near.left <= timeout)
    && (s.far.Waiting? ==> 1 <= s.far.left <= timeout)
    && (s.count == 0 <==> Quiet(s))
    && (s.near.Away? || s.far.Away?)
    && 0 <= s.count <= 2
    && s.timeouts == 0
    && s.ones == s.zeros + (if s.count == 2 then 1 else 0)
    && s.nears == s.ones + (if s.count == 1 && s.near.Waiting? then 1 else 0)
    && s.fars == s.ones + (if s.count == 1 && s.far.Waiting? then 1 else 0)
  }

  /** Out of step: whoever waits waits for a count that cannot come. */
  predicate Spoilt(s: Duplex) {
    && s.count >= 1 && (s.count <= 2 ==> Quiet(s))
    && (s.near.Waiting? ==> s.near.left >= 1) && (s.far.Waiting? ==> s.far.left >= 1)
  }

  lemma StepCleanIff(timeout: int, s: Duplex, a: Step)
    requires timeout > 0 && Clean(timeout, s)
    ensures Spoils(s, a) ==> Spoilt(Taken(timeout, s, a))
    ensures !Spoils(s, a) ==> Clean(timeout, Taken(timeout, s, a))
  {
  }

  lemma StepSpoilt(timeout: int, s: Duplex, a: Step)
    requires timeout > 0 && Spoilt(s)
    ensures
      var t := Taken(timeout, s, a);
      && Spoilt(t) && t.count >= s.count && t.zeros == s.zeros
      && t.ones <= s.ones + (if s.count == 1 && t.count == 2 then 1 else 0)
  {
  }

  lemma {:induction false} RunClean(timeout: int, steps: seq<Step>)
    requires timeout > 0
    ensures Orderly(timeout, steps) ==> Clean(timeout, Run(timeout, steps))
    ensures !Orderly(timeout, steps) ==> Spoilt(Run(timeout, steps))
    decreases |steps|
  {
    hide Clean, Spoilt, Spoils, Taken;
    if steps == [] {
      FreshClean(timeout);
    } else {
      var before, a := steps[..|steps| - 1], steps[|steps| - 1];
      RunClean(timeout, before);
      if Orderly(timeout, before) {
        StepCleanIff(timeout, Run(timeout, before), a);
      } else {
        StepSpoilt(timeout, Run(timeout, before), a);
      }
    }
  }

  lemma FreshClean(timeout: int)
    ensures Clean(timeout, FRESH)
  {
  }

  /**
   * When the barrier may be used again: whenever nobody is inside, the count is back to 0
   * if and only if nobody timed out and nobody came back before the other had left.
   */
  lemma ReusableIff(timeout: int, steps: seq<Step>)
    requires timeout > 0 && Quiet(Run(timeout, steps))
    ensures Run(timeout, steps).count == 0 <==> Orderly(timeout, steps)
  {
    RunClean(timeout, steps);
  }

  /**
   * The barrier property over every orderly run: the k-th call that passes has behind it
   * at least k arrivals on each side, no side is more than one ahead, nobody times out,
   * and the one told 1 came second.
   */
  lemma Rendezvous(timeout: int, steps: seq<Step>)
    requires timeout > 0 && Orderly(timeout, steps)
    ensures
      var s := Run(timeout, steps);
      && s.zeros <= s.ones <= s.nears <= s.ones + 1 && s.ones <= s.fars <= s.ones + 1
      && s.timeouts == 0 && s.ones <= s.zeros + 1
      && (Quiet(s) ==> s.ones == s.zeros == s.nears == s.fars)
  {
    RunClean(timeout, steps);
  }

  /** Once out of step the barrier never meets again: no later call returns 0, and at most one 1. */
  lemma {:induction false} SpoiltForGood(timeout: int, steps: seq<Step>, more: seq<Step>)
    requires timeout > 0 && !Orderly(timeout, steps)
    ensures
      var s, t := Run(timeout, steps), Run(timeout, steps + more);
      Spoilt(t) && t.count >= s.count && t.zeros == s.zeros
      && t.ones <= s.ones + (if s.count == 1 && t.count >= 2 then 1 else 0)
    decreases |more|
  {
    hide Spoilt, Taken;
    RunClean(timeout, steps);
    if more == [] {
      assert steps + more == steps;
    } else {
      var before := more[..|more| - 1];
      SpoiltForGood(timeout, steps, before);
      assert (steps + more)[..|steps + more| - 1] == steps + before;
      StepSpoilt(timeout, Run(timeout, steps + before), more[|more| - 1]);
      SpoiltCount(Run(timeout, steps));
    }
  }

  lemma SpoiltCount(s: Duplex)
    ensures Spoilt(s) ==> s.count >= 1
  {
  }

  /** What one round keeps, with or without a timeout. */
  predicate OneRound(timeout: int, s: Duplex) {
    && (s.near.Waiting? ==> 1 <= s.near.left <= timeout && s.nears == 1)
    && (s.far.Waiting? ==> 1 <= s.far.left <= timeout && s.fars == 1)
    && s.nears <= 1 && s.fars <= 1
    && s.count == (if s.zeros > 0 then 0 else s.nears + s.fars)
    && s.ones == (if s.nears + s.fars == 2 then 1 else 0)
    && s.zeros + s.timeouts <= 1
    && (s.zeros > 0 ==> s.nears + s.fars == 2)
    && s.ones + s.zeros + s.timeouts + (if s.near.Waiting? then 1 else 0) + (if s.far.Waiting? then 1 else 0)
       == s.nears + s.fars
  }

  lemma StepOneRound(timeout: int, s: Duplex, a: Step)
    requires timeout > 0 && OneRound(timeout, s)
    requires Taken(timeout, s, a).nears <= 1 && Taken(timeout, s, a).fars <= 1
    ensures OneRound(timeout, Taken(timeout, s, a))
  {
  }

  lemma StepCounts(timeout: int, s: Duplex, a: Step)
    ensures s.nears <= Taken(timeout, s, a).nears && s.fars <= Taken(timeout, s, a).fars
  {
  }

  /**
   * One round from a fresh barrier, timeouts included: exactly the second of two arrivals
   * is told 1, a 0 comes only after both have arrived, and besides the 1 at most one
   * call returns, with 0 or with -1.
   */
  lemma {:induction false} RoundMeets(timeout: int, steps: seq<Step>)
    requires timeout > 0 && Run(timeout, steps).nears <= 1 && Run(timeout, steps).fars <= 1
    ensures
      var s := Run(timeout, steps);
      && OneRound(timeout, s)
      && (s.ones == 1 <==> s.nears == 1 && s.fars == 1) && s.ones <= 1
      && (s.zeros > 0 ==> s.nears == 1 && s.fars == 1) && s.zeros + s.timeouts <= 1
    decreases |steps|
  {
    if steps != [] {
      var before := Run(timeout, steps[..|steps| - 1]);
      StepCounts(timeout, before, steps[|steps| - 1]);
      RoundMeets(timeout, steps[..|steps| - 1]);
      hide Taken;
      StepOneRound(timeout, before, steps[|steps| - 1]);
    }
  }

  /**
   * EndJob frees the shared report on every nonzero answer of the stop barrier: when both
   * sides have come and gone, that is once if and only if nobody timed out, and else twice.
   */
  lemma FreedOnceIff(timeout: int, steps: seq<Step>)
    requires timeout > 0 && Quiet(Run(timeout, steps))
    requires Run(timeout, steps).nears == Run(timeout, steps).fars == 1
    ensures
      var s := Run(timeout, steps);
      && (s.ones + s.timeouts == 1 <==> s.timeouts == 0)
      && (s.timeouts != 0 ==> s.ones + s.timeouts == 2)
  {
    RoundMeets(timeout, steps);
  }

  function Patience(seat: Seat): int {
    if seat.Waiting? then seat.left else 0
  }

  predicate Bounded(timeout: int, s: Duplex) {
    && (s.near.Waiting? ==> s.near.left >= 1) && (s.far.Waiting? ==> s.far.left >= 1)
    && s.wakes + Patience(s.near) + Patience(s.far) <= timeout * (s.nears + s.fars)
  }

  lemma StepBounded(timeout: int, s: Duplex, a: Step)
    requires timeout > 0 && Bounded(timeout, s)
    ensures Bounded(timeout, Taken(timeout, s, a))
  {
    var n := s.nears + s.fars;
    assert timeout * (n + 1) == timeout * n + timeout;
  }

  /** The wait loop ends: however wakes and arrivals interleave, no call wakes more than `timeout` times. */
  lemma {:induction false} WaitsEnd(timeout: int, steps: seq<Step>)
    requires timeout > 0
    ensures Bounded(timeout, Run(timeout, steps))
    decreases |steps|
  {
    if steps != [] {
      WaitsEnd(timeout, steps[..|steps| - 1]);
      hide Taken, Bounded;
      StepBounded(timeout, Run(timeout, steps[..|steps| - 1]), steps[|steps| - 1]);
    }
  }

  lemma RunOne(timeout: int, steps: seq<Step>, a: Step)
    ensures Run(timeout, steps + [a]) == Taken(timeout, Run(timeout, steps), a)
    ensures Orderly(timeout, steps + [a]) <==> Orderly(timeout, steps) && !Spoils(Run(timeout, steps), a)
  {
    assert (steps + [a])[..|steps|] == steps;
  }

  function Wakes(side: Side, k: nat): seq<Step> {
    seq(k, _ => Wake(side))
  }

  /**
   * The patience of a call, whatever the timeout: one that finds the count at anything
   * but 1 and is left alone waits through exactly `timeout` wakes and then gives up.
   */
  lemma {:induction false} GivesUpAfter(timeout: int, steps: seq<Step>, side: Side, k: nat)
    requires 0 < timeout && k <= timeout
    requires Run(timeout, steps).Of(side).Away? && Run(timeout, steps).count != 1
    ensures
      var s, t := Run(timeout, steps), Run(timeout, steps + [Arrive(side)] + Wakes(side, k));
      && t.count == s.count + 1 && t.ones == s.ones && t.zeros == s.zeros
      && t.Of(side) == (if k < timeout then Waiting(timeout - k) else Away)
      && t.timeouts == s.timeouts + (if k < timeout then 0 else 1)
    decreases k
  {
    hide Run, Orderly;
    RunOne(timeout, steps, Arrive(side));
    if k == 0 {
      assert steps + [Arrive(side)] + Wakes(side, 0) == steps + [Arrive(side)];
    } else {
      GivesUpAfter(timeout, steps, side, k - 1);
      var before := steps + [Arrive(side)] + Wakes(side, k - 1);
      assert steps + [Arrive(side)] + Wakes(side, k) == before + [Wake(side)];
      RunOne(timeout, before, Wake(side));
    }
  }

  /** The one side waits at the start barrier until it times out. */
  lemma GivesUp() returns (steps: seq<Step>)
    ensures Run(3, steps) == Duplex(1, Away, Away, 1, 0, 0, 0, 1, 3)
  {
    hide Run, Orderly;
    steps := [];
    assert Run(3, steps) == FRESH by { RunNothing(3); }
    RunOne(3, steps, Arrive(Near)); steps := steps + [Arrive(Near)];
    RunOne(3, steps, Wake(Near)); steps := steps + [Wake(Near)];
    RunOne(3, steps, Wake(Near)); steps := steps + [Wake(Near)];
    RunOne(3, steps, Wake(Near)); steps := steps + [Wake(Near)];
  }

  /**
   * Then the other side, which comes too late, passes alone, is told 1 though nobody is
   * there, and times out itself at the stop barrier.
   */
  lemma PassesAlone() returns (late: seq<Step>, steps: seq<Step>)
    ensures late <= steps
    ensures var s := Run(3, late); Quiet(s) && s.nears == s.fars == 1 && s.ones == 1 && s.timeouts == 1
    ensures var s := Run(3, steps); Quiet(s) && s.nears == 1 && s.ones == 1 && s.zeros == 0 && s.timeouts == 2
  {
    hide Run, Orderly;
    steps := GivesUp();
    RunOne(3, steps, Arrive(Far)); steps := steps + [Arrive(Far)];
    late := steps;
    RunOne(3, steps, Arrive(Far)); steps := steps + [Arrive(Far)];
    RunOne(3, steps, Wake(Far)); steps := steps + [Wake(Far)];
    RunOne(3, steps, Wake(Far)); steps := steps + [Wake(Far)];
    RunOne(3, steps, Wake(Far)); steps := steps + [Wake(Far)];
  }

  /** A second entry before the waiter woke: both now wait for a count that has gone by. */
  lemma Overtaken() returns (steps: seq<Step>)
    ensures Run(10, steps).near.Waiting? && Run(10, steps).far.Waiting? && Run(10, steps).count == 3
    ensures Run(10, steps).ones == 1 && Run(10, steps).timeouts == 0
  {
    hide Run, Orderly;
    steps := [];
    assert Run(10, steps) == FRESH by { RunNothing(10); }
    RunOne(10, steps, Arrive(Near)); steps := steps + [Arrive(Near)];
    RunOne(10, steps, Arrive(Far)); steps := steps + [Arrive(Far)];
    RunOne(10, steps, Arrive(Far)); steps := steps + [Arrive(Far)];
  }

  lemma RunNothing(timeout: int)
    ensures Run(timeout, []) == FRESH
  {
  }

  // ----- Client::BarrierClient -----

  /** The section from the entry to the wait or the broadcast: the new count, and whether it is the last. */
  function Counted(count: int): (int, bool) {
    (count - 1, count - 1 <= 0)
  }

  class ConnectBarrier {
    var count: int

    constructor (n: int)
      ensures count == n
    {
      count := n;
    }

    /** The result true comes with the broadcast, false with the wait. */
    method Arrive() returns (last: bool)
      modifies this
      ensures (count, last) == Counted(old(count))
    {
      count := count - 1;
      last := count <= 0;
    }
  }

  /** The clients at the barrier: asleep, woken by the broadcast, told they are last, and gone. */
  datatype Meeting = Meeting(count: int, arrived: set<nat>, asleep: set<nat>, woken: set<nat>,
                             last: set<nat>, gone: set<nat>)

  datatype Move =
    | Come(t: nat)
    | Leave(t: nat)    // out of the wait after the broadcast
    | Expire(t: nat)   // out of the wait without it: the timed wait of a -t run, or a spurious wakeup

  predicate CanMove(m: Meeting, a: Move) {
    match a
    case Come(t) => t !in m.arrived
    case Leave(t) => t in m.woken
    case Expire(t) => t in m.asleep
  }

  function Moved(m: Meeting, a: Move): Meeting {
    if !CanMove(m, a) then m
    else match a
      case Come(t) =>
        var (count, last) := Counted(m.count);
        var m := m.(count := count, arrived := m.arrived + {t});
        if last then
          m.(last := m.last + {t}, gone := m.gone + {t}, woken := m.woken + m.asleep, asleep := {})
        else
          m.(asleep := m.asleep + {t})
      case Leave(t) => m.(woken := m.woken - {t}, gone := m.gone + {t})
      case Expire(t) => m.(asleep := m.asleep - {t}, gone := m.gone + {t})
  }

  function Met(n: nat, moves: seq<Move>): Meeting {
    if moves == [] then Meeting(n, {}, {}, {}, {}, {})
    else Moved(Met(n, moves[..|moves| - 1]), moves[|moves| - 1])
  }

  predicate Kept(n: nat, m: Meeting) {
    && m.count == n - |m.arrived|
    && |m.last| == (if m.count > 0 then 0 else 1 - m.count)
    && Placed(m)
  }

  predicate Placed(m: Meeting) {
    && m.asleep <= m.arrived && m.woken <= m.arrived && m.gone <= m.arrived && m.last <= m.arrived
    && (m.count > 0 ==> m.woken == {})
    && (m.count <= 0 ==> m.asleep == {})
  }

  lemma MoveKept(n: nat, m: Meeting, a: Move)
    requires n > 0 && Kept(n, m)
    ensures Kept(n, Moved(m, a))
  {
    hide Placed;
    MovePlaced(m, a);
    if a.Come? && a.t !in m.arrived {
      NotLast(m, a.t);
      OneMore(m.arrived, a.t);
      OneMore(m.last, a.t);
    }
  }

  lemma OneMore(s: set<nat>, t: nat)
    requires t !in s
    ensures |s + {t}| == |s| + 1
  {
  }

  lemma MovePlaced(m: Meeting, a: Move)
    requires Placed(m)
    ensures Placed(Moved(m, a))
  {
  }

  lemma NotLast(m: Meeting, t: nat)
    requires Placed(m) && t !in m.arrived
    ensures t !in m.last
  {
  }

  lemma {:induction false} AllKept(n: nat, moves: seq<Move>)
    requires n > 0
    ensures Kept(n, Met(n, moves))
    decreases |moves|
  {
    if moves != [] {
      AllKept(n, moves[..|moves| - 1]);
      hide Moved, Kept;
      MoveKept(n, Met(n, moves[..|moves| - 1]), moves[|moves| - 1]);
    }
  }

  /**
   * In every interleaving: nobody is told it is last before the n-th arrival, exactly one
   * is when n have arrived, and from then on nobody is asleep at the barrier.
   */
  lemma OneIsLast(n: nat, moves: seq<Move>)
    requires n > 0
    ensures
      var m := Met(n, moves);
      && (|m.arrived| < n ==> m.last == {})
      && (|m.arrived| == n ==> |m.last| == 1)
      && (|m.arrived| >= n ==> m.asleep == {} && |m.last| == |m.arrived| - n + 1)
  {
    AllKept(n, moves);
  }

  predicate Patient(moves: seq<Move>) {
    forall i :: 0 <= i < |moves| ==> !moves[i].Expire?
  }

  /** Without timed or spurious wakeups nobody leaves before all n have arrived. */
  lemma {:induction false} NobodyLeavesEarly(n: nat, moves: seq<Move>)
    requires n > 0 && Patient(moves) && Met(n, moves).gone != {}
    ensures |Met(n, moves).arrived| >= n
    decreases |moves|
  {
    if moves != [] {
      var before := moves[..|moves| - 1];
      AllKept(n, before);
      AllKept(n, moves);
      if Met(n, before).gone != {} {
        NobodyLeavesEarly(n, before);
        Arrivals(n, moves);
      } else {
        LeavesLate(n, Met(n, before), moves[|moves| - 1]);
      }
    }
  }

  lemma Arrivals(n: nat, moves: seq<Move>)
    requires n > 0 && moves != []
    ensures |Met(n, moves[..|moves| - 1]).arrived| <= |Met(n, moves).arrived|
  {
  }

  lemma LeavesLate(n: nat, m: Meeting, a: Move)
    requires Kept(n, m) && !a.Expire? && m.gone == {} && Moved(m, a).gone != {}
    ensures Moved(m, a).count <= 0
  {
  }

  /** With a timed wait one client of two starts alone. */
  lemma LeavesAlone()
    ensures Met(2, [Come(1), Expire(1)]).gone == {1} && Met(2, [Come(1), Expire(1)]).arrived == {1}
  {
    var moves := [Come(1), Expire(1)];
    assert moves[..1] == [Come(1)] && [Come(1)][..0] == [];
    assert Met(2, [Come(1)]) == Moved(Met(2, []), Come(1));
  }
}
