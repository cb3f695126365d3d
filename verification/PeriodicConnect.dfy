/**
 * Client::ConnectPeriodic of src/Client.cpp: connects again and again, at the points of a
 * grid that starts at the call, until the test time is over.
 */
module PeriodicConnect {
  import opened Division
  import opened Timestamps

  /** isModeTime, mAmount (in 10 ms), mInterval (in microseconds), connectonly_count. */
  datatype Settings = Settings(timed: bool, amount: nat, interval: nat, count: int)

  /** One round of the loop: the clock when it is read, and whether a signal has come. */
  datatype Round = Round(now: nat, interrupted: bool)

  /** amount_usec, an unsigned int. */
  function AmountUsec(m: Settings): nat {
    (m.amount * 10000) % 0x1_0000_0000
  }

  /** The inner loop: whole intervals until the clock is no longer ahead. */
  function CaughtUp(next: int, interval: nat, now: int): (r: int)
    requires interval > 0
    ensures OnGrid(next, interval, r) && r >= now
    ensures r - interval == next || r - interval < now
    decreases now - next
  {
    GridStep(next, interval);
    var n := next + interval;
    if n < now then
      GridJoin(next, n, interval, CaughtUp(n, interval, now));
      CaughtUp(n, interval, now)
    else n
  }

  /** A point of the grid after `next`. */
  predicate OnGrid(next: int, interval: nat, x: int)
    requires interval > 0
  {
    x > next && (x - next) % interval == 0
  }

  function NextOf(m: Settings, next: int, now: int): int {
    if m.interval > 0 then CaughtUp(next, m.interval, now) else if m.timed then now else next
  }

  function FirstTries(m: Settings): int {
    if m.interval > 0 then -1 else if m.count < 0 then 10 else if m.count > 0 then m.count else -1
  }

  /** `next` after each round, for as long as the loop goes on. */
  function Nexts(m: Settings, end: int, next: int, tries: int, rounds: seq<Round>): seq<int>
    decreases |rounds|
  {
    if rounds == [] then []
    else
      var n := NextOf(m, next, rounds[0].now);
      var tries := if m.interval == 0 && m.timed then 1 else tries;
      [n] + if tries != 0 && !rounds[0].interrupted && n < end
            then Nexts(m, end, n, tries - 1, rounds[1..]) else []
  }

  /** The end of the test: without a test time, the moment the call began. */
  function End(m: Settings, created: nat): int {
    if m.timed then created + AmountUsec(m) else created
  }

  /** One connect in each round; the clock reads `created` for `end` and `started` for `next`. */
  method ConnectPeriodic(m: Settings, created: nat, started: nat, rounds: seq<Round>) returns (nexts: seq<int>)
    ensures nexts == Nexts(m, End(m, created), started, FirstTries(m), rounds)
  {
    var end := new Timestamp(created);
    var next := new Timestamp(started);
    var now := new Timestamp(0);
    if m.timed {
      end.AddUsec(AmountUsec(m));
    }
    var tries := -1;
    if m.interval == 0 {
      if m.count < 0 {
        tries := 10;
      } else if m.count > 0 {
        tries := m.count;
      }
    }
    nexts := ConnectLoop(m, end, next, now, tries, rounds);
  }

  method ConnectLoop(m: Settings, end: Timestamp, next: Timestamp, now: Timestamp, tries: int, rounds: seq<Round>)
    returns (nexts: seq<int>)
    requires end.Normal() && next.Normal() && now.Normal() && end != next && next != now && end != now
    modifies next, now
    ensures nexts == Nexts(m, end.Total(), old(next.Total()), tries, rounds)
  {
    hide Nexts, NextOf, CaughtUp;
    ghost var e, k := end.Total(), next.Total();
    ghost var all := Nexts(m, e, k, tries, rounds);
    nexts := [];
    var tries, i, goOn := tries, 0, true;
    assert rounds[0..] == rounds && all == nexts + Nexts(m, e, k, tries, rounds[i..]);
    while i < |rounds| && goOn
      invariant 0 <= i <= |rounds|
      invariant end.Normal() && next.Normal() && now.Normal()
      invariant e == end.Total() && k == next.Total()
      invariant all == nexts + if goOn then Nexts(m, e, k, tries, rounds[i..]) else []
    {
      NextsOne(m, e, k, tries, rounds, i);
      StepNext(m, next, now, rounds[i].now);
      if m.interval == 0 && m.timed {
        tries := 1;
      }
      ghost var before := nexts;
      k := next.Total();
      nexts := nexts + [next.tv_sec * MILLION + next.tv_usec];
      goOn := tries != 0 && !rounds[i].interrupted && next.Before(end);
      tries := tries - 1;
      i := i + 1;
      Assoc(before, k, if goOn then Nexts(m, e, k, tries, rounds[i..]) else []);
    }
    if goOn {
      NextsNone(m, e, k, tries, rounds);
    }
  }

  lemma NextsNone(m: Settings, end: int, next: int, tries: int, rounds: seq<Round>)
    ensures Nexts(m, end, next, tries, rounds[|rounds|..]) == []
  {
  }

  lemma Assoc(a: seq<int>, x: int, b: seq<int>)
    ensures a + ([x] + b) == (a + [x]) + b
  {
  }

  lemma NextsOne(m: Settings, end: int, next: int, tries: int, rounds: seq<Round>, i: nat)
    requires i < |rounds|
    ensures
      var n := NextOf(m, next, rounds[i].now);
      var tries' := if m.interval == 0 && m.timed then 1 else tries;
      Nexts(m, end, next, tries, rounds[i..])
      == [n] + if tries' != 0 && !rounds[i].interrupted && n < end
               then Nexts(m, end, n, tries' - 1, rounds[i + 1..]) else []
  {
    hide NextOf;
    assert rounds[i..][0] == rounds[i] && rounds[i..][1..] == rounds[i + 1..];
  }

  method StepNext(m: Settings, next: Timestamp, now: Timestamp, reading: nat)
    requires next != now && next.Normal() && now.Normal()
    modifies next, now
    ensures next.Normal() && now.Normal() && next.Total() == NextOf(m, old(next.Total()), reading)
  {
    if m.interval > 0 {
      now.SetNow(reading);
      CatchUp(next, m.interval, now);
    } else if m.timed {
      next.SetNow(reading);
    }
  }

  /** do { next.add(interval) } while (next.before(now)) */
  method CatchUp(next: Timestamp, interval: nat, now: Timestamp)
    requires interval > 0 && next != now && next.Normal() && now.Normal()
    modifies next
    ensures next.Normal() && next.Total() == CaughtUp(old(next.Total()), interval, now.Total())
  {
    ghost var goal := CaughtUp(next.Total(), interval, now.Total());
    next.AddUsec(interval);
    while next.Before(now)
      invariant next.Normal()
      invariant goal == if next.Before(now) then CaughtUp(next.Total(), interval, now.Total()) else next.Total()
      decreases now.Total() - next.Total()
    {
      next.AddUsec(interval);
    }
  }

  // ----- the grid -----

  lemma GridStep(next: int, interval: nat)
    requires interval > 0
    ensures OnGrid(next, interval, next + interval)
  {
  }

  lemma GridJoin(a: int, b: int, interval: nat, c: int)
    requires interval > 0 && OnGrid(a, interval, b) && OnGrid(b, interval, c)
    ensures OnGrid(a, interval, c)
  {
    Quotient(b - a, interval);
    Quotient(c - b, interval);
    var j, k := (b - a) / interval, (c - b) / interval;
    assert c - a == j * interval + k * interval == (j + k) * interval;
    Multiple(j + k, interval);
  }

  /** The point the catch-up stops at is the least later grid point that is not before `now`. */
  lemma CaughtUpIsLeast(next: int, interval: nat, now: int, y: int)
    requires interval > 0
    ensures OnGrid(next, interval, y) && y >= now ==> CaughtUp(next, interval, now) <= y
  {
    var r := CaughtUp(next, interval, now);
    if OnGrid(next, interval, y) && y >= now {
      Quotient(y - next, interval);
      Quotient(r - next, interval);
      var j, k := (y - next) / interval, (r - next) / interval;
      Apart(interval, j, k);
      Apart(interval, j, 1);
      assert j < k || j == k || k < j;
      if k < j { Apart(interval, k, j); }
    }
  }

  /** What the grid promises of the times that the rounds end by sleeping to. */
  predicate Gridded(start: int, interval: nat, rounds: seq<Round>, nexts: seq<int>)
    requires interval > 0 && |nexts| <= |rounds|
  {
    forall i :: 0 <= i < |nexts| ==>
      var prev := if i == 0 then start else nexts[i - 1];
      && OnGrid(start, interval, nexts[i]) && nexts[i] > prev && nexts[i] >= rounds[i].now
      && (nexts[i] - interval == prev || nexts[i] - interval < rounds[i].now)
  }

  lemma {:induction false} NextsLength(m: Settings, end: int, next: int, tries: int, rounds: seq<Round>)
    ensures |Nexts(m, end, next, tries, rounds)| <= |rounds|
    ensures rounds != [] ==> Nexts(m, end, next, tries, rounds) != []
    decreases |rounds|
  {
    if rounds != [] {
      var n := NextOf(m, next, rounds[0].now);
      var tries := if m.interval == 0 && m.timed then 1 else tries;
      NextsLength(m, end, n, tries - 1, rounds[1..]);
    }
  }

  /**
   * In every run with a positive interval these times stay whole intervals after the
   * start, strictly increase, are never in the past, and skip no point in the future.
   */
  lemma {:induction false} StaysOnGrid(m: Settings, end: int, next: int, tries: int, rounds: seq<Round>)
    requires m.interval > 0
    ensures |Nexts(m, end, next, tries, rounds)| <= |rounds|
    ensures Gridded(next, m.interval, rounds, Nexts(m, end, next, tries, rounds))
    decreases |rounds|
  {
    var nexts := Nexts(m, end, next, tries, rounds);
    NextsLength(m, end, next, tries, rounds);
    if |nexts| > 1 {
      var n, rest := nexts[0], nexts[1..];
      StaysOnGrid(m, end, n, tries - 1, rounds[1..]);
      assert rest == Nexts(m, end, n, tries - 1, rounds[1..]);
      forall i | 0 < i < |nexts|
        ensures OnGrid(next, m.interval, nexts[i])
        ensures nexts[i] > nexts[i - 1] && nexts[i] >= rounds[i].now
        ensures nexts[i] - m.interval == nexts[i - 1] || nexts[i] - m.interval < rounds[i].now
      {
        assert nexts[i] == rest[i - 1] && rounds[1..][i - 1] == rounds[i];
        assert i > 1 ==> nexts[i - 1] == rest[i - 2];
        GridJoin(next, n, m.interval, nexts[i]);
      }
    }
  }

  lemma OneLess(k: int, interval: nat)
    ensures k * interval == (k - 1) * interval + interval
  {
  }

  /** Hence at most one connect per interval of the test time, and one more. */
  lemma {:induction false} ConnectsBounded(m: Settings, end: int, next: int, tries: int, rounds: seq<Round>)
    requires m.interval > 0
    ensures
      var n := |Nexts(m, end, next, tries, rounds)|;
      n > 1 ==> next + (n - 1) * m.interval < end
    decreases |rounds|
  {
    var nexts := Nexts(m, end, next, tries, rounds);
    if |nexts| > 1 {
      var n, rest := nexts[0], nexts[1..];
      assert rest == Nexts(m, end, n, tries - 1, rounds[1..]);
      ConnectsBounded(m, end, n, tries - 1, rounds[1..]);
      OneLess(|nexts| - 1, m.interval);
    }
  }

  // ----- the test time -----

  /** A test of s seconds, s hundred units of 10 ms, ends s seconds on. */
  lemma EndsAfterSeconds(m: Settings, created: nat, s: nat)
    requires m.timed && m.amount == 100 * s && s <= 4294
    ensures End(m, created) == created + s * 1000000
  {
  }

  /** The microseconds are an unsigned int: that is so exactly for less than 2^32 of them. */
  lemma TestTimeIff(m: Settings, created: nat)
    requires m.timed
    ensures End(m, created) - created == m.amount * 10000 <==> m.amount <= 429496
  {
  }

  /** 4295 seconds are over after 32704 microseconds. */
  lemma WrapsAround()
    ensures End(Settings(true, 429500, 0, 0), 0) == 32704
  {
  }

  /** Without an interval each round of a timed test ends at the time it reads. */
  lemma {:induction false} ReadsTheClock(m: Settings, end: int, next: int, tries: int, rounds: seq<Round>, i: nat)
    requires m.timed && m.interval == 0 && i < |Nexts(m, end, next, tries, rounds)|
    ensures i < |rounds| && Nexts(m, end, next, tries, rounds)[i] == rounds[i].now
    decreases |rounds|
  {
    if i > 0 {
      ReadsTheClock(m, end, rounds[0].now, 0, rounds[1..], i - 1);
    }
  }

  // ----- connectonly_count -----

  /** The tries never run out: they count down from -1, are set anew, or the first round is the last. */
  predicate Unlimited(m: Settings, end: int, next: int, tries: int) {
    && (m.interval > 0 ==> tries < 0)
    && (m.interval == 0 && !m.timed ==> end <= next)
  }

  lemma {:induction false} TriesIgnored(m: Settings, count: int, end: int, next: int, tries: int, other: int,
                                        rounds: seq<Round>)
    requires Unlimited(m, end, next, tries) && Unlimited(m, end, next, other)
    ensures Nexts(m.(count := count), end, next, other, rounds) == Nexts(m, end, next, tries, rounds)
    decreases |rounds|
  {
    if rounds != [] && (m.interval > 0 || m.timed) {
      var n := NextOf(m, next, rounds[0].now);
      var reset := m.interval == 0;
      TriesIgnored(m, count, end, n, if reset then 0 else tries - 1, if reset then 0 else other - 1, rounds[1..]);
    }
  }

  /** In every setting and every run the loop does the same whatever the count is. */
  lemma CountIsNotHonoured(m: Settings, count: int, created: nat, started: nat, rounds: seq<Round>)
    requires created <= started
    ensures Nexts(m.(count := count), End(m, created), started, FirstTries(m.(count := count)), rounds)
         == Nexts(m, End(m, created), started, FirstTries(m), rounds)
  {
    TriesIgnored(m, count, End(m, created), started, FirstTries(m), FirstTries(m.(count := count)), rounds);
  }

  /** `next` after round i, if the loop gets there. */
  function At(m: Settings, next: int, rounds: seq<Round>, i: nat): int
    requires i < |rounds|
    decreases i
  {
    var n := NextOf(m, next, rounds[0].now);
    if i == 0 then n else At(m, n, rounds[1..], i - 1)
  }

  /** No signal has come in round i, and the end of the test has not. */
  predicate GoesOn(m: Settings, end: int, next: int, rounds: seq<Round>, i: nat)
    requires i < |rounds|
  {
    !rounds[i].interrupted && At(m, next, rounds, i) < end
  }

  /** Round n is the first after which the clock or a signal ends the loop, or the last given. */
  predicate StopsAfter(m: Settings, end: int, next: int, rounds: seq<Round>, n: int) {
    && 1 <= n <= |rounds|
    && (forall i :: 0 <= i < n - 1 ==> GoesOn(m, end, next, rounds, i))
    && (n < |rounds| ==> !GoesOn(m, end, next, rounds, n - 1))
  }

  lemma {:induction false} ConnectsIff(m: Settings, end: int, next: int, tries: int, rounds: seq<Round>, n: int)
    requires Unlimited(m, end, next, tries) && rounds != []
    ensures |Nexts(m, end, next, tries, rounds)| == n <==> StopsAfter(m, end, next, rounds, n)
    decreases |rounds|
  {
    var first, rest := NextOf(m, next, rounds[0].now), rounds[1..];
    NextsLength(m, end, next, tries, rounds);
    assert GoesOn(m, end, next, rounds, 0) <==> !rounds[0].interrupted && first < end;
    if rest != [] && GoesOn(m, end, next, rounds, 0) {
      var left := (if m.interval == 0 then 1 else tries) - 1;
      ConnectsIff(m, end, first, left, rest, n - 1);
      NextsLength(m, end, first, left, rest);
      StopsLater(m, end, next, rounds, n);
    }
  }

  lemma StopsLater(m: Settings, end: int, next: int, rounds: seq<Round>, n: int)
    requires |rounds| > 1 && GoesOn(m, end, next, rounds, 0)
    ensures StopsAfter(m, end, next, rounds, n)
       <==> StopsAfter(m, end, NextOf(m, next, rounds[0].now), rounds[1..], n - 1)
  {
    var first, rest := NextOf(m, next, rounds[0].now), rounds[1..];
    assert forall i :: 0 < i < |rounds| ==> rounds[i] == rest[i - 1];
    assert forall i :: 0 < i < |rounds| ==> (GoesOn(m, end, next, rounds, i) <==> GoesOn(m, end, first, rest, i - 1));
    if StopsAfter(m, end, first, rest, n - 1) {
      forall i | 0 <= i < n - 1 ensures GoesOn(m, end, next, rounds, i) {
        assert i > 0 ==> GoesOn(m, end, first, rest, i - 1);
      }
    }
    if StopsAfter(m, end, next, rounds, n) {
      forall i | 0 <= i < n - 2 ensures GoesOn(m, end, first, rest, i) {
        assert GoesOn(m, end, next, rounds, i + 1);
      }
    }
  }

  /** As many connects as asked for are made exactly if the clock or a signal happens to end the loop there. */
  lemma CountHonouredIff(m: Settings, created: nat, started: nat, rounds: seq<Round>)
    requires created <= started && rounds != []
    ensures |Nexts(m, End(m, created), started, FirstTries(m), rounds)| == m.count
       <==> StopsAfter(m, End(m, created), started, rounds, m.count)
  {
    ConnectsIff(m, End(m, created), started, FirstTries(m), rounds, m.count);
  }

  /** Without a test time the loop ends after its first round: `end` is never moved past the start. */
  lemma UntimedConnectsOnce(m: Settings, created: nat, started: nat, rounds: seq<Round>)
    requires !m.timed && created <= started && rounds != []
    ensures |Nexts(m, End(m, created), started, FirstTries(m), rounds)| == 1
  {
  }

  /** With one, two connects asked for in ten seconds are four by the time the clock has been read four times. */
  lemma TwoBecomeFour()
    ensures
      var m, rounds := Settings(true, 1000, 0, 2), [Round(1, false), Round(2, false), Round(3, false), Round(4, false)];
      |Nexts(m, End(m, 0), 0, FirstTries(m), rounds)| == 4
  {
    var m, rounds := Settings(true, 1000, 0, 2), [Round(1, false), Round(2, false), Round(3, false), Round(4, false)];
    assert At(m, 0, rounds, 0) == 1;
    assert rounds[1..] == [rounds[1], rounds[2], rounds[3]] && rounds[1..][1..] == [rounds[2], rounds[3]];
    assert At(m, 0, rounds, 1) == 2 && At(m, 0, rounds, 2) == 3;
    ConnectsIff(m, End(m, 0), 0, FirstTries(m), rounds, 4);
  }
}
