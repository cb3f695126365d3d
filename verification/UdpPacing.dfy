/**
 * The pacing of Client::RunUDP, src/Client.cpp: a running delay, in nanoseconds, that is
 * earned by sending and spent by waiting. Clock readings and write results are inputs of
 * the loop; times are reals where the program has doubles.
 */
module UdpPacing {
  import opened UdpSequence

  /** A sleep of the loop is taken only for at least this many nanoseconds. */
  const SLACK := 100000.0

  /** delay_target and delay_lower_bounds, in nanoseconds. */
  datatype Pace = Pace(target: real, lower: real)

  /** One pass of the loop: the clock at its top in microseconds, and what write returned. */
  datatype Tick = Tick(now: int, wrote: int, fatal: bool)

  /**
   * The variables of the loop, the earliest time delay_loop can return, and a record:
   * successful sends and the ids they carried, how often the delay was clamped, and by
   * how much that raised it.
   */
  datatype Pacer = Pacer(last: int, delay: real, currLen: int, id: int, stopped: bool, wake: int,
                         sends: nat, carried: seq<int>, clamps: nat, forgiven: real)

  function Begun(start: int, id: int): Pacer {
    Pacer(start, 0.0, 1, id, false, start, 0, [], 0, 0.0)
  }

  function Adjust(p: Pace, s: Pacer, now: int): real {
    (if s.currLen > 0 then p.target else 0.0) + 1000.0 * (s.last - now) as real
  }

  function Paced(p: Pace, s: Pacer, now: int): Pacer {
    if p.target > 0.0 then
      var d := s.delay + Adjust(p, s, now);
      if d < p.lower then
        s.(last := now, delay := p.target, clamps := s.clamps + 1, forgiven := s.forgiven + (p.target - d))
      else s.(last := now, delay := d)
    else s
  }

  /** Microseconds of delay_loop after a successful send. */
  function Sleep(delay: real): int {
    if delay >= SLACK then (delay / 1000.0).Floor else 0
  }

  function Written(s: Pacer, t: Tick): Pacer {
    if t.wrote > 0 then
      s.(currLen := t.wrote, id := s.id + 1, sends := s.sends + 1, carried := s.carried + [s.id],
         wake := t.now + Sleep(s.delay))
    else s.(currLen := 0, stopped := t.wrote < 0 && t.fatal, wake := t.now)
  }

  function Pass(p: Pace, s: Pacer, t: Tick): Pacer {
    if s.stopped then s else Written(Paced(p, s, t.now), t)
  }

  function Run(p: Pace, s: Pacer, ticks: seq<Tick>): Pacer {
    if ticks == [] then s else Pass(p, Run(p, s, ticks[..|ticks| - 1]), ticks[|ticks| - 1])
  }

  class UdpSender {
    var lastPacketTime: int
    var delay: real
    var currLen: int
    var packetID: int
    ghost var stopped: bool
    ghost var wake: int
    ghost var sends: nat
    var carried: seq<int>
    ghost var clamps: nat
    ghost var forgiven: real

    ghost function View(): Pacer
      reads this
    {
      Pacer(lastPacketTime, delay, currLen, packetID, stopped, wake, sends, carried, clamps, forgiven)
    }

    constructor (start: int, id: int)
      ensures View() == Begun(start, id)
    {
      lastPacketTime, delay, currLen, packetID := start, 0.0, 1, id;
      stopped, wake, sends, carried, clamps, forgiven := false, start, 0, [], 0, 0.0;
    }

    /** The loop, for as long as InProgress admits the given passes. */
    method RunUDP(p: Pace, ticks: seq<Tick>)
      requires !stopped
      modifies this
      ensures View() == Run(p, old(View()), ticks)
    {
      hide Run, Pass, Paced, Written;
      ghost var first := View();
      assert Run(p, first, ticks[..0]) == View() by { RunNothing(p, first, ticks); }
      var i, broke := 0, false;
      while i < |ticks| && !broke
        invariant 0 <= i <= |ticks| && broke == stopped
        invariant View() == Run(p, first, ticks[..i])
      {
        RunOne(p, first, ticks, i);
        broke := OnePass(p, ticks[i]);
        i := i + 1;
      }
      if broke {
        RunStopped(p, first, ticks, i);
      }
      assert ticks[..|ticks|] == ticks;
    }

    method OnePass(p: Pace, t: Tick) returns (broke: bool)
      requires !stopped
      modifies this
      ensures View() == Pass(p, old(View()), t) && broke == stopped
    {
      hide Adjust, Paced;
      RunDelay(p, t.now);
      broke := false;
      currLen, wake := t.wrote, t.now;
      if currLen <= 0 {
        if currLen < 0 && t.fatal {
          broke, stopped := true, true;
        }
        currLen := 0;
      } else {
        carried := carried + [packetID];
        packetID, sends := packetID + 1, sends + 1;
        if delay >= SLACK {
          wake := t.now + (delay / 1000.0).Floor;
        }
      }
    }

    /** The adjustment of the running delay, before the write. */
    method RunDelay(p: Pace, now: int)
      modifies this
      ensures View() == Paced(p, old(View()), now) && stopped == old(stopped)
    {
      if p.target > 0.0 {
        var adjust;
        if currLen > 0 {
          adjust := p.target + 1000.0 * (lastPacketTime - now) as real;
        } else {
          adjust := 1000.0 * (lastPacketTime - now) as real;
        }
        lastPacketTime := now;
        delay := delay + adjust;
        if delay < p.lower {
          clamps, forgiven := clamps + 1, forgiven + (p.target - delay);
          delay := p.target;
        }
      }
    }
  }

  lemma RunNothing(p: Pace, s: Pacer, ticks: seq<Tick>)
    ensures Run(p, s, ticks[..0]) == s
  {
  }

  lemma RunOne(p: Pace, s: Pacer, ticks: seq<Tick>, i: nat)
    requires i < |ticks|
    ensures Run(p, s, ticks[..i + 1]) == Pass(p, Run(p, s, ticks[..i]), ticks[i])
  {
    assert ticks[..i + 1][..i] == ticks[..i];
  }

  lemma {:induction false} RunStopped(p: Pace, s: Pacer, ticks: seq<Tick>, i: nat)
    requires i <= |ticks| && Run(p, s, ticks[..i]).stopped
    ensures Run(p, s, ticks) == Run(p, s, ticks[..i])
    decreases |ticks| - i
  {
    if i == |ticks| {
      assert ticks[..i] == ticks;
    } else {
      RunOne(p, s, ticks, i);
      RunStopped(p, s, ticks, i + 1);
    }
  }

  // ----- what the clock promises -----

  /** The clock does not run backwards, and delay_loop sleeps at least as long as asked. */
  predicate Honest(p: Pace, start: int, id: int, ticks: seq<Tick>) {
    forall i :: 0 <= i < |ticks| ==> ticks[i].now >= Run(p, Begun(start, id), ticks[..i]).wake
  }

  lemma HonestPrefix(p: Pace, start: int, id: int, ticks: seq<Tick>)
    requires Honest(p, start, id, ticks) && ticks != []
    ensures Honest(p, start, id, ticks[..|ticks| - 1])
    ensures ticks[|ticks| - 1].now >= Run(p, Begun(start, id), ticks[..|ticks| - 1]).wake
  {
    hide Run;
    var before := ticks[..|ticks| - 1];
    forall i | 0 <= i < |before| ensures before[i].now >= Run(p, Begun(start, id), before[..i]).wake {
      assert before[..i] == ticks[..i] && before[i] == ticks[i];
    }
  }

  // ----- the account -----

  function Product(a: real, n: nat): real {
    a * n as real
  }

  lemma ProductStep(a: real, n: nat)
    ensures Product(a, n + 1) == Product(a, n) + a
    ensures Product(a, 0) == 0.0
  {
    assert (n + 1) as real == n as real + 1.0;
  }

  function Elapsed(start: int, now: int): real {
    1000.0 * (now - start) as real
  }

  /** The sends the delay has been credited with: the latest one is not, until the next pass. */
  function Credited(s: Pacer): nat {
    if s.currLen > 0 then s.sends else s.sends + 1
  }

  /** The running delay is the time that the sends should have taken less the time gone by. */
  predicate Balanced(p: Pace, start: int, s: Pacer) {
    && s.delay == Product(p.target, Credited(s)) - Elapsed(start, s.last) + s.forgiven
    && s.forgiven >= 0.0 && (s.clamps == 0 ==> s.forgiven == 0.0) && (s.clamps > 0 ==> s.forgiven > p.target)
  }

  /** Bounds of the running delay. */
  predicate Bounded(p: Pace, s: Pacer) {
    && p.lower <= s.delay < p.target + SLACK
    && (s.currLen > 0 ==> s.delay < SLACK + Elapsed(s.last, s.wake))
    && s.last <= s.wake && s.currLen >= 0
  }

  /** Never ahead of the target by more than the slack, from the next pass on. */
  predicate NotAhead(p: Pace, start: int, s: Pacer) {
    Product(p.target, s.sends) <= Elapsed(start, s.wake) + SLACK
  }

  predicate Paces(p: Pace) {
    p.lower < 0.0 < p.target
  }

  predicate Good(p: Pace, start: int, s: Pacer) {
    Balanced(p, start, s) && Bounded(p, s) && NotAhead(p, start, s)
  }

  lemma SleepEnough(delay: real)
    ensures delay >= SLACK ==> 1000.0 * Sleep(delay) as real > delay - 1000.0
    ensures Sleep(delay) >= 0
  {
    var q := delay / 1000.0;
    assert delay == 1000.0 * q;
    assert q.Floor as real <= q < q.Floor as real + 1.0;
  }

  lemma PassBalanced(p: Pace, start: int, s: Pacer, t: Tick)
    requires Paces(p) && Balanced(p, start, s) && !s.stopped
    ensures Balanced(p, start, Pass(p, s, t))
  {
    hide Product, Sleep;
    ProductStep(p.target, s.sends);
    assert Elapsed(start, t.now) == Elapsed(start, s.last) - 1000.0 * (s.last - t.now) as real;
  }

  lemma PassBounded(p: Pace, s: Pacer, t: Tick)
    requires Paces(p) && Bounded(p, s) && t.now >= s.wake && !s.stopped
    ensures Bounded(p, Pass(p, s, t))
  {
    var r := Paced(p, s, t.now);
    assert p.lower <= r.delay < p.target + SLACK;
    SleepEnough(r.delay);
    hide Sleep;
  }

  lemma PassNotAhead(p: Pace, start: int, s: Pacer, t: Tick)
    requires Paces(p) && Balanced(p, start, s) && NotAhead(p, start, s) && Bounded(p, s)
    requires t.now >= s.wake && !s.stopped
    ensures NotAhead(p, start, Pass(p, s, t))
  {
    PassBalanced(p, start, s, t);
    PassBounded(p, s, t);
    hide Product, Sleep;
  }

  lemma BegunGood(p: Pace, start: int, id: int)
    requires Paces(p)
    ensures Good(p, start, Begun(start, id))
  {
    ProductStep(p.target, 0);
    hide Product;
  }

  lemma {:induction false} RunGood(p: Pace, start: int, id: int, ticks: seq<Tick>)
    requires Paces(p) && Honest(p, start, id, ticks)
    ensures Good(p, start, Run(p, Begun(start, id), ticks))
    decreases |ticks|
  {
    hide Good, Honest, Pass;
    if ticks == [] {
      BegunGood(p, start, id);
    } else {
      var t := ticks[|ticks| - 1];
      var s := Run(p, Begun(start, id), ticks[..|ticks| - 1]);
      HonestPrefix(p, start, id, ticks);
      RunGood(p, start, id, ticks[..|ticks| - 1]);
      PassGood(p, start, s, t);
    }
  }

  lemma PassGood(p: Pace, start: int, s: Pacer, t: Tick)
    requires Paces(p) && Good(p, start, s) && t.now >= s.wake
    ensures Good(p, start, Pass(p, s, t))
  {
    if !s.stopped {
      PassBalanced(p, start, s, t);
      PassBounded(p, s, t);
      PassNotAhead(p, start, s, t);
      hide Balanced, Bounded, NotAhead, Pass;
    }
  }

  // ----- the theorems -----

  /**
   * In every run, after every pass: the delay is target x sends - elapsed, exactly, while
   * it has not been clamped, and otherwise that plus what the clamps have forgiven; it is
   * never below its lower bound and never a slack above the target. The sends are those
   * Credited: their number after a success, and one more after a failed write.
   */
  lemma DelayTelescopes(p: Pace, start: int, id: int, ticks: seq<Tick>)
    requires Paces(p) && Honest(p, start, id, ticks)
    ensures
      var s := Run(p, Begun(start, id), ticks);
      && s.delay - s.forgiven
         == p.target * (if s.currLen > 0 then s.sends else s.sends + 1) as real - 1000.0 * (s.last - start) as real
      && s.forgiven >= 0.0 && (s.clamps == 0 ==> s.forgiven == 0.0)
      && p.lower <= s.delay < p.target + 100000.0
  {
    hide Run, Honest, Product, Elapsed;
    RunGood(p, start, id, ticks);
    var s := Run(p, Begun(start, id), ticks);
    Unnamed(p.target, Credited(s), start, s.last);
  }

  lemma Unnamed(a: real, n: nat, start: int, now: int)
    ensures Product(a, n) == a * n as real && Elapsed(start, now) == 1000.0 * (now - start) as real
  {
  }

  /**
   * The rate bound: target x the sends before the last pass is at most the time elapsed
   * and 100 microseconds, even across clamps.
   */
  lemma RateBound(p: Pace, start: int, id: int, ticks: seq<Tick>)
    requires Paces(p) && Honest(p, start, id, ticks) && ticks != []
    ensures
      var s := Run(p, Begun(start, id), ticks[..|ticks| - 1]);
      p.target * s.sends as real <= 1000.0 * (ticks[|ticks| - 1].now - start) as real + 100000.0
  {
    hide Run, Honest, Product, Elapsed;
    NeverAhead(p, start, id, ticks);
    Unnamed(p.target, Run(p, Begun(start, id), ticks[..|ticks| - 1]).sends, start, ticks[|ticks| - 1].now);
  }

  lemma NeverAhead(p: Pace, start: int, id: int, ticks: seq<Tick>)
    requires Paces(p) && Honest(p, start, id, ticks) && ticks != []
    ensures
      var s := Run(p, Begun(start, id), ticks[..|ticks| - 1]);
      Product(p.target, s.sends) <= Elapsed(start, ticks[|ticks| - 1].now) + SLACK
  {
    hide Run, Honest, Product;
    HonestPrefix(p, start, id, ticks);
    RunGood(p, start, id, ticks[..|ticks| - 1]);
  }

  // ----- the clamp, the sleep and the count, pass by pass -----

  /**
   * What the last pass of a run does: its delay is what is left of the delay before, with
   * the target if the write before it succeeded, less the time since the pass before; the
   * clamp sets it to the target exactly if it is below the lower bound. A success is
   * counted, and only a fatal error ends the loop.
   */
  lemma PassLaw(p: Pace, start: int, id: int, ticks: seq<Tick>)
    requires p.target > 0.0 && ticks != [] && !Run(p, Begun(start, id), ticks[..|ticks| - 1]).stopped
    ensures
      var s, t, r := Run(p, Begun(start, id), ticks[..|ticks| - 1]), ticks[|ticks| - 1], Run(p, Begun(start, id), ticks);
      var d := s.delay + (if s.currLen > 0 then p.target else 0.0) - 1000.0 * (t.now - s.last) as real;
      && r.last == t.now
      && r.delay == (if d < p.lower then p.target else d)
      && r.clamps == s.clamps + (if d < p.lower then 1 else 0)
      && r.sends == s.sends + (if t.wrote > 0 then 1 else 0)
      && (r.stopped <==> t.wrote < 0 && t.fatal)
  {
    hide Sleep;
  }

  /**
   * How long it sleeps: after a success with at least 100 microseconds to spare, the
   * whole microseconds of the delay, and otherwise not at all.
   */
  lemma SleepLaw(p: Pace, start: int, id: int, ticks: seq<Tick>)
    requires p.target > 0.0 && ticks != [] && !Run(p, Begun(start, id), ticks[..|ticks| - 1]).stopped
    ensures
      var t, r := ticks[|ticks| - 1], Run(p, Begun(start, id), ticks);
      if t.wrote > 0 && r.delay >= 100000.0
      then r.delay - 1000.0 < 1000.0 * (r.wake - t.now) as real <= r.delay
      else r.wake == t.now
  {
    var s := Run(p, Begun(start, id), ticks[..|ticks| - 1]);
    var q := Paced(p, s, ticks[|ticks| - 1].now);
    SleepExact(q.delay);
    hide Sleep, Adjust;
  }

  lemma SleepExact(delay: real)
    ensures if delay >= 100000.0 then delay - 1000.0 < 1000.0 * Sleep(delay) as real <= delay else Sleep(delay) == 0
  {
    var q := delay / 1000.0;
    assert delay == 1000.0 * q;
    assert q.Floor as real <= q < q.Floor as real + 1.0;
  }

  /** At no pass were the sends so far, and the one due, behind the clock by more than the lower bound. */
  predicate OnTime(p: Pace, start: int, id: int, ticks: seq<Tick>) {
    forall i :: 0 <= i < |ticks| ==> InTime(p, start, Run(p, Begun(start, id), ticks[..i]), ticks[i].now)
  }

  predicate InTime(p: Pace, start: int, s: Pacer, now: int) {
    s.stopped || p.target * (s.sends + 1) as real >= 1000.0 * (now - start) as real + p.lower
  }

  lemma OnTimePrefix(p: Pace, start: int, id: int, ticks: seq<Tick>)
    requires ticks != []
    ensures OnTime(p, start, id, ticks) <==>
      var last := |ticks| - 1;
      OnTime(p, start, id, ticks[..last]) && InTime(p, start, Run(p, Begun(start, id), ticks[..last]), ticks[last].now)
  {
    hide Run, InTime;
    var last := |ticks| - 1;
    assert forall i :: 0 <= i < last ==> ticks[..last][..i] == ticks[..i] && ticks[..last][i] == ticks[i];
    if OnTime(p, start, id, ticks) {
      forall i | 0 <= i < last ensures InTime(p, start, Run(p, Begun(start, id), ticks[..last][..i]), ticks[..last][i].now) {
        assert InTime(p, start, Run(p, Begun(start, id), ticks[..i]), ticks[i].now);
      }
    }
    if OnTime(p, start, id, ticks[..last]) {
      forall i | 0 <= i < last ensures InTime(p, start, Run(p, Begun(start, id), ticks[..i]), ticks[i].now) {
        assert InTime(p, start, Run(p, Begun(start, id), ticks[..last][..i]), ticks[..last][i].now);
      }
    }
  }

  lemma PassInTimeIff(p: Pace, start: int, s: Pacer, t: Tick)
    requires Paces(p) && Balanced(p, start, s) && s.clamps == 0
    ensures Pass(p, s, t).clamps == 0 <==> InTime(p, start, s, t.now)
  {
    hide Product, Sleep;
    ProductStep(p.target, s.sends);
    Unnamed(p.target, s.sends + 1, start, t.now);
  }

  lemma ClampsGrow(p: Pace, s: Pacer, t: Tick)
    ensures Pass(p, s, t).clamps >= s.clamps
  {
    hide Sleep, Adjust;
  }

  /** The delay is never clamped if and only if the sender is on time at every pass. */
  lemma {:induction false} NeverClampedIff(p: Pace, start: int, id: int, ticks: seq<Tick>)
    requires Paces(p) && Honest(p, start, id, ticks)
    ensures Run(p, Begun(start, id), ticks).clamps == 0 <==> OnTime(p, start, id, ticks)
    decreases |ticks|
  {
    hide Good, Honest, Pass, InTime, OnTime, Balanced, Bounded, NotAhead;
    if ticks == [] {
      NothingIsOnTime(p, start, id);
    } else {
      var before, t := ticks[..|ticks| - 1], ticks[|ticks| - 1];
      HonestPrefix(p, start, id, ticks);
      NeverClampedIff(p, start, id, before);
      OnTimePrefix(p, start, id, ticks);
      RunGood(p, start, id, before);
      var s := Run(p, Begun(start, id), before);
      ClampsGrow(p, s, t);
      if s.clamps == 0 {
        assert Balanced(p, start, s) by { GoodBalanced(p, start, s); }
        PassInTimeIff(p, start, s, t);
      }
    }
  }

  lemma NothingIsOnTime(p: Pace, start: int, id: int)
    ensures OnTime(p, start, id, [])
  {
  }

  lemma GoodBalanced(p: Pace, start: int, s: Pacer)
    requires Good(p, start, s)
    ensures Balanced(p, start, s)
  {
    hide Balanced, Bounded, NotAhead;
  }

  /**
   * The other side of the rate: a sender on time is never reset. Its delay is then exactly
   * target x sends - elapsed, so it has kept up with the target to within the lower bound.
   */
  lemma KeepsUp(p: Pace, start: int, id: int, ticks: seq<Tick>)
    requires Paces(p) && Honest(p, start, id, ticks) && OnTime(p, start, id, ticks)
    ensures
      var s := Run(p, Begun(start, id), ticks);
      && s.clamps == 0
      && s.delay == p.target * (if s.currLen > 0 then s.sends else s.sends + 1) as real - 1000.0 * (s.last - start) as real
      && p.target * (s.sends + 1) as real >= 1000.0 * (s.last - start) as real + p.lower
  {
    hide Run, Honest, OnTime;
    NeverClampedIff(p, start, id, ticks);
    DelayTelescopes(p, start, id, ticks);
    var s := Run(p, Begun(start, id), ticks);
    OneMore(p.target, s.sends);
  }

  lemma OneMore(a: real, n: nat)
    ensures a * (n + 1) as real == a * n as real + a
  {
    assert (n + 1) as real == n as real + 1.0;
  }

  /** The data ids of a run are consecutive, whatever the writes and the clock do. */
  lemma {:induction false} IdsConsecutive(p: Pace, start: int, id: int, ticks: seq<Tick>)
    ensures
      var s := Run(p, Begun(start, id), ticks);
      s.carried == From(id, s.sends) && s.id == id + s.sends
    decreases |ticks|
  {
    if ticks != [] {
      var t := ticks[|ticks| - 1];
      var s := Run(p, Begun(start, id), ticks[..|ticks| - 1]);
      IdsConsecutive(p, start, id, ticks[..|ticks| - 1]);
      FromSnoc(id, s.sends);
      hide From, Negated, Adjust, Sleep;
    }
  }

  /** RunUDP and FinishTrafficActions: all the ids that one stream puts on the wire. */
  method SendStream(p: Pace, start: int, id: int, ticks: seq<Tick>, handshake: bool, replies: seq<Reply>)
    returns (data: nat, fins: nat, ids: seq<int>)
    requires |replies| >= RETRYCOUNT
    ensures data == Run(p, Begun(start, id), ticks).sends <= |ticks|
    ensures fins == 1 + (if handshake then Retries(replies[..RETRYCOUNT]) else 0) <= 1 + RETRYCOUNT
    ensures ids == StreamIds(id, data, fins)
  {
    var sender := new UdpSender(start, id);
    sender.RunUDP(p, ticks);
    IdsConsecutive(p, start, id, ticks);
    SendsBounded(p, Begun(start, id), ticks);
    var fin := new FinSender(sender.packetID);
    var acked := fin.Finish(handshake, replies);
    data, fins := sender.packetID - id, |fin.attempts|;
    ids := sender.carried + fin.attempts;
  }

  lemma {:induction false} SendsBounded(p: Pace, s: Pacer, ticks: seq<Tick>)
    ensures Run(p, s, ticks).sends <= s.sends + |ticks|
    decreases |ticks|
  {
    if ticks != [] {
      SendsBounded(p, s, ticks[..|ticks| - 1]);
      hide Adjust, Sleep;
    }
  }

  // ----- get_delay_target -----

  /** An inter-packet gap in milliseconds, or a rate in bits or in packets per second. */
  datatype Rate = Gap(ms: real) | Bits(bufLen: nat, rate: nat) | Packets(rate: nat)

  function DelayTarget(r: Rate): real {
    match r
    case Gap(ms) => ms * 1000000.0
    case Bits(bufLen, rate) =>
      if rate > 0 then bufLen as real * (1000000000.0 * 8.0 / rate as real) else 0.0
    case Packets(rate) => if rate > 0 then 1000000000.0 / rate as real else 0.0
  }

  lemma TargetTimesRate(bufLen: nat, rate: nat)
    requires rate > 0
    ensures DelayTarget(Bits(bufLen, rate)) * rate as real == 8000000000.0 * bufLen as real
  {
    var q := 8000000000.0 / rate as real;
    assert q * rate as real == 8000000000.0;
    assert (bufLen as real * q) * rate as real == bufLen as real * (q * rate as real);
  }

  /**
   * What -b promises: the bits sent before any pass, in units of 1e-9 bit, are at most
   * rate x (elapsed + 100 microseconds).
   */
  lemma BitRateBound(bufLen: nat, rate: nat, lower: real, start: int, id: int, ticks: seq<Tick>)
    requires rate > 0 && bufLen > 0 && lower < 0.0 && ticks != []
    requires Honest(Pace(DelayTarget(Bits(bufLen, rate)), lower), start, id, ticks)
    ensures
      var s := Run(Pace(DelayTarget(Bits(bufLen, rate)), lower), Begun(start, id), ticks[..|ticks| - 1]);
      (8000000000.0 * bufLen as real) * s.sends as real
      <= rate as real * (1000.0 * (ticks[|ticks| - 1].now - start) as real + 100000.0)
  {
    hide Run, Honest, Product, DelayTarget, Elapsed;
    var p := Pace(DelayTarget(Bits(bufLen, rate)), lower);
    TargetPositive(bufLen, rate);
    NeverAhead(p, start, id, ticks);
    var n, now := Run(p, Begun(start, id), ticks[..|ticks| - 1]).sends, ticks[|ticks| - 1].now;
    TargetScaled(p.target, bufLen, rate, n, Elapsed(start, now) + SLACK);
    Unnamed(8000000000.0 * bufLen as real, n, start, now);
  }

  /** The same for a rate in packets, in units of 1e-9 packet. */
  lemma PacketRateBound(rate: nat, lower: real, start: int, id: int, ticks: seq<Tick>)
    requires rate > 0 && lower < 0.0 && ticks != []
    requires Honest(Pace(DelayTarget(Packets(rate)), lower), start, id, ticks)
    ensures
      var s := Run(Pace(DelayTarget(Packets(rate)), lower), Begun(start, id), ticks[..|ticks| - 1]);
      1000000000.0 * s.sends as real
      <= rate as real * (1000.0 * (ticks[|ticks| - 1].now - start) as real + 100000.0)
  {
    hide Run, Honest, Product, DelayTarget, Elapsed;
    var p := Pace(DelayTarget(Packets(rate)), lower);
    PacketTarget(rate);
    NeverAhead(p, start, id, ticks);
    var n, now := Run(p, Begun(start, id), ticks[..|ticks| - 1]).sends, ticks[|ticks| - 1].now;
    Unnamed(p.target, n, start, now);
    Scale(p.target * n as real, Elapsed(start, now) + SLACK, rate as real);
    Regroup(p.target, rate as real, n as real);
  }

  lemma PacketTarget(rate: nat)
    requires rate > 0
    ensures DelayTarget(Packets(rate)) * rate as real == 1000000000.0 && DelayTarget(Packets(rate)) > 0.0
  {
    var q := 1000000000.0 / rate as real;
    assert q * rate as real == 1000000000.0;
  }

  /** And for an inter-packet gap: so many milliseconds for each packet, less 100 microseconds. */
  lemma GapBound(ms: real, lower: real, start: int, id: int, ticks: seq<Tick>)
    requires ms > 0.0 && lower < 0.0 && ticks != []
    requires Honest(Pace(DelayTarget(Gap(ms)), lower), start, id, ticks)
    ensures
      var s := Run(Pace(DelayTarget(Gap(ms)), lower), Begun(start, id), ticks[..|ticks| - 1]);
      (1000000.0 * ms) * s.sends as real <= 1000.0 * (ticks[|ticks| - 1].now - start) as real + 100000.0
  {
    hide Run, Honest;
    assert DelayTarget(Gap(ms)) == 1000000.0 * ms;
    RateBound(Pace(DelayTarget(Gap(ms)), lower), start, id, ticks);
  }

  lemma TargetScaled(target: real, bufLen: nat, rate: nat, n: nat, bound: real)
    requires rate > 0 && target == DelayTarget(Bits(bufLen, rate)) && Product(target, n) <= bound
    ensures Product(8000000000.0 * bufLen as real, n) <= rate as real * bound
  {
    TargetTimesRate(bufLen, rate);
    hide DelayTarget;
    Scale(target * n as real, bound, rate as real);
    Regroup(target, rate as real, n as real);
  }

  lemma TargetPositive(bufLen: nat, rate: nat)
    requires rate > 0 && bufLen > 0
    ensures DelayTarget(Bits(bufLen, rate)) > 0.0
  {
    var q := 8000000000.0 / rate as real;
    assert q * rate as real == 8000000000.0;
    assert q > 0.0;
    assert bufLen as real * q > 0.0;
  }

  lemma Scale(a: real, b: real, k: real)
    requires a <= b && k >= 0.0
    ensures k * a <= k * b
  {
    assert k * (b - a) >= 0.0;
  }

  lemma Regroup(t: real, r: real, n: real)
    ensures r * (t * n) == (t * r) * n
  {
  }

  // ----- delay_lower_bounds -----

  /** The send timeout of InitTrafficLoop, in microseconds, from what it was computed as. */
  function SendTimer(t: int): (r: int)
    ensures 1000 <= r <= 1000000
    ensures 1000 <= t <= 1000000 ==> r == t
    ensures 0 <= t < 1000 ==> r == 1000
    ensures t < 0 || t > 1000000 ==> r == 1000000
  {
    var u := if t < 0 || t > 1000000 then 1000000 else t;
    if u < 1000 then 1000 else u
  }

  /** So every pace with a positive target meets the theorems above. */
  lemma LowerBoundPaces(t: int, target: real)
    requires target > 0.0
    ensures Paces(Pace(target, -1000.0 * SendTimer(t) as real))
    ensures -1000.0 * SendTimer(t) as real >= -1000000000.0
  {
  }
}
