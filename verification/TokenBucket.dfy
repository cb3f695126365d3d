/**
 * Client::RunRateLimitedTCP, src/Client.cpp, at a fixed rate: tokens, one for a byte, are
 * earned by time and spent by writing, and nothing is written while they are negative.
 */
module TokenBucket {
  import opened Division

  /** Bits per second, mBufLen, isburst, and sizeof(struct TCP_burst_payload). */
  datatype Settings = Settings(rate: nat, buf: int, burst: bool, header: int)
  {
    predicate Valid() {
      buf > 0 && header > 0
    }

    /** The most that one pass can write. */
    function Quantum(): int {
      if burst && buf < header then header else buf
    }
  }

  /**
   * One pass: the clock in microseconds, and for the header write and the write that
   * follows, whether the pass gets to it (else AwaitSelectWrite has found the test over),
   * what the socket would take (negative on error), and whether an error is fatal. The
   * writen of the header returns no negative number, so its error branch is never taken.
   */
  datatype Pass = Pass(now: int, writable: bool, takes: int, fatal: bool,
                       writable2: bool, takes2: int, fatal2: bool)

  /** The loop variables, and the bytes that have really gone to the socket. */
  datatype Bucket = Bucket(time1: int, tokens: real, remaining: int, over: bool, totLen: int, wire: int)

  function Begun(start: int): Bucket {
    Bucket(start, 0.0, 0, false, 0, 0)
  }

  function PerUsec(m: Settings): real {
    m.rate as real / 8.0 / 1000000.0
  }

  function Gained(m: Settings, from: int, to: int): real {
    (to - from) as real * PerUsec(m)
  }

  function Filled(m: Settings, s: Bucket, now: int): Bucket {
    s.(tokens := s.tokens + Gained(m, s.time1, now), time1 := now)
  }

  /** The second write of a pass that has written `len` bytes already. */
  function WriteRest(s: Bucket, p: Pass, len: int): Bucket {
    if s.remaining > 0 && !p.writable2 then s.(over := true)
    else
      var len2 := if s.remaining > 0 then Least(p.takes2, s.remaining) else 0;
      if len2 < 0 then s.(over := p.fatal2)
      else s.(tokens := s.tokens - (len + len2) as real, totLen := s.totLen + len + len2, wire := s.wire + len2)
  }

  function WriteHeader(m: Settings, s: Bucket, p: Pass): Bucket {
    if !p.writable then s.(over := true)
    else
      var q := m.Quantum();
      var len := Least(p.takes, q);
      if len < 0 && p.fatal then s.(remaining := q, over := true)
      else
        var len := if len < 0 then 0 else len;
        WriteRest(s.(remaining := q - len, wire := s.wire + len), p, len)
  }

  function Step(m: Settings, s: Bucket, p: Pass): Bucket {
    var t := Filled(m, s, p.now);
    if t.tokens < 0.0 then t.(over := !p.writable)
    else if m.burst && !(t.remaining > 0) then WriteHeader(m, t, p)
    else WriteRest(t.(remaining := m.buf), p, 0)
  }

  function Run(m: Settings, s: Bucket, passes: seq<Pass>): Bucket
    decreases |passes|
  {
    if s.over || passes == [] then s else Run(m, Step(m, s, passes[0]), passes[1..])
  }

  class RateLimitedSender {
    var time1: int
    var tokens: real
    var writeRemaining: int
    var totLen: int
    ghost var wire: int

    ghost function View(over: bool): Bucket
      reads this
    {
      Bucket(time1, tokens, writeRemaining, over, totLen, wire)
    }

    constructor (start: int)
      ensures View(false) == Begun(start)
    {
      time1, tokens, writeRemaining, totLen, wire := start, 0.0, 0, 0, 0;
    }

    /** The loop, for as many passes as InProgress admits; `over` when it has left by itself. */
    method RunRateLimitedTCP(m: Settings, passes: seq<Pass>) returns (over: bool)
      modifies this
      ensures View(over) == Run(m, old(View(false)), passes)
    {
      hide Step;
      over := false;
      ghost var all := Run(m, View(over), passes);
      var i := 0;
      assert passes[0..] == passes;
      while !over && i < |passes|
        invariant 0 <= i <= |passes|
        invariant all == Run(m, View(over), passes[i..])
        decreases |passes| - i
      {
        assert passes[i..][0] == passes[i] && passes[i..][1..] == passes[i + 1..];
        over := OnePass(m, passes[i]);
        i := i + 1;
      }
    }

    method OnePass(m: Settings, p: Pass) returns (over: bool)
      modifies this
      ensures View(over) == Step(m, old(View(false)), p)
    {
      hide WriteHeader, WriteRest, Gained;
      tokens := tokens + Gained(m, time1, p.now);
      time1 := p.now;
      if tokens >= 0.0 {
        if m.burst && !(writeRemaining > 0) {
          over := Header(m, p);
        } else {
          writeRemaining := m.buf;
          over := Rest(p, 0);
        }
      } else {
        over := !p.writable;
      }
    }

    method Header(m: Settings, p: Pass) returns (over: bool)
      modifies this
      ensures View(over) == WriteHeader(m, old(View(false)), p)
    {
      hide WriteRest;
      if !p.writable {
        return true;
      }
      writeRemaining := m.buf;
      if m.burst && writeRemaining < m.header {
        writeRemaining := m.header;
      }
      var len := if p.takes < writeRemaining then p.takes else writeRemaining;
      if len < 0 {
        len := 0;
        if p.fatal {
          return true;
        }
      } else {
        writeRemaining := writeRemaining - len;
        wire := wire + len;
      }
      over := Rest(p, len);
    }

    method Rest(p: Pass, len: int) returns (over: bool)
      modifies this
      ensures View(over) == WriteRest(old(View(false)), p, len)
    {
      var len2 := 0;
      if writeRemaining > 0 {
        if !p.writable2 {
          return true;
        }
        len2 := if p.takes2 < writeRemaining then p.takes2 else writeRemaining;
      }
      if len2 < 0 {
        return p.fatal2;
      }
      tokens := tokens - (len + len2) as real;
      totLen := totLen + len + len2;
      wire := wire + len2;
      over := false;
    }
  }

  // ----- the account -----

  /** The clock does not run backwards. */
  predicate Monotone(time: int, passes: seq<Pass>) {
    && (passes != [] ==> time <= passes[0].now)
    && forall i, j :: 0 <= i < j < |passes| ==> passes[i].now <= passes[j].now
  }

  lemma GainedAdds(m: Settings, a: int, b: int, c: int)
    ensures Gained(m, a, c) == Gained(m, a, b) + Gained(m, b, c)
    ensures a <= b ==> Gained(m, a, b) >= 0.0
    ensures Gained(m, a, a) == 0.0
  {
    var k := PerUsec(m);
    assert k >= 0.0;
    hide PerUsec;
    assert (c - a) as real == (b - a) as real + (c - b) as real;
    Spread((b - a) as real, (c - b) as real, k);
    if a <= b {
      NotNegative((b - a) as real, k);
    }
  }

  lemma Spread(x: real, y: real, k: real)
    ensures (x + y) * k == x * k + y * k
  {
  }

  lemma NotNegative(x: real, k: real)
    requires x >= 0.0 && k >= 0.0
    ensures x * k >= 0.0
  {
  }

  /** Tokens are what time has earned less what has been charged, and never a quantum in debt. */
  predicate Charged(m: Settings, start: int, s: Bucket) {
    && s.tokens == Gained(m, start, s.time1) - s.totLen as real
    && s.tokens >= -(m.Quantum() as real)
  }

  /**
   * What went out uncharged is less than one quantum; and it can have happened only if
   * write_remaining is positive, after which there are no more headers.
   */
  predicate Leaky(m: Settings, s: Bucket) {
    && 0 <= s.totLen <= s.wire
    && s.wire - s.totLen < (if m.burst && s.remaining > 0 then m.Quantum() else 1)
    && s.remaining >= 0
  }

  predicate Kept(m: Settings, start: int, s: Bucket) {
    Charged(m, start, s) && Leaky(m, s)
  }

  lemma WriteRestKept(m: Settings, start: int, s: Bucket, p: Pass, len: int)
    requires m.Valid() && s.tokens >= 0.0 && 0 <= len && len + s.remaining <= m.Quantum() && s.remaining >= 0
    requires s.tokens == Gained(m, start, s.time1) - s.totLen as real
    requires 0 <= s.totLen && s.totLen + len <= s.wire
    requires s.wire - s.totLen - len < (if m.burst && s.remaining > 0 && len == 0 then m.Quantum() else 1)
    requires len > 0 ==> m.burst
    ensures Kept(m, start, WriteRest(s, p, len))
  {
    hide Gained;
  }

  lemma StepKept(m: Settings, start: int, s: Bucket, p: Pass)
    requires m.Valid() && Kept(m, start, s) && s.time1 <= p.now
    ensures Kept(m, start, Step(m, s, p))
  {
    GainedAdds(m, start, s.time1, p.now);
    GainedAdds(m, s.time1, p.now, p.now);
    hide Gained, WriteRest;
    var t := Filled(m, s, p.now);
    if t.tokens >= 0.0 {
      if m.burst && !(t.remaining > 0) {
        var q := m.Quantum();
        var len := Least(p.takes, q);
        var sent := if len < 0 then 0 else len;
        WriteRestKept(m, start, t.(remaining := q - sent, wire := t.wire + sent), p, sent);
      } else {
        WriteRestKept(m, start, t.(remaining := m.buf), p, 0);
      }
    }
  }

  lemma StepTime(m: Settings, s: Bucket, p: Pass)
    ensures Step(m, s, p).time1 == p.now
  {
    hide Gained;
  }

  lemma {:induction false} RunKept(m: Settings, start: int, s: Bucket, passes: seq<Pass>)
    requires m.Valid() && Kept(m, start, s) && Monotone(s.time1, passes)
    ensures Kept(m, start, Run(m, s, passes))
    decreases |passes|
  {
    if !s.over && passes != [] {
      hide Kept, Step;
      var t := Step(m, s, passes[0]);
      StepTime(m, s, passes[0]);
      StepKept(m, start, s, passes[0]);
      assert Monotone(t.time1, passes[1..]);
      RunKept(m, start, t, passes[1..]);
    }
  }

  lemma BegunKept(m: Settings, start: int)
    requires m.Valid()
    ensures Kept(m, start, Begun(start))
  {
    GainedAdds(m, start, start, start);
    hide Gained;
  }

  /** What time earns, without the unit: eight million bits a second are one byte a microsecond. */
  lemma GainedIs(m: Settings, from: int, to: int)
    ensures 8000000.0 * Gained(m, from, to) == m.rate as real * (to - from) as real
  {
    var k := PerUsec(m);
    assert 8000000.0 * k == m.rate as real;
    hide PerUsec;
    Commute(8000000.0, (to - from) as real, k);
  }

  lemma Commute(a: real, x: real, k: real)
    ensures a * (x * k) == (a * k) * x
  {
  }

  /**
   * The bucket, in every run: tokens = rate / 8 x elapsed - bytes charged, never below
   * one quantum; so the bytes charged are at most rate / 8 x elapsed and a quantum. Times
   * are microseconds, so everything is counted in 1 / 8000000 of a byte.
   */
  lemma TokensBalance(m: Settings, start: int, passes: seq<Pass>)
    requires m.Valid() && Monotone(start, passes)
    ensures
      var s := Run(m, Begun(start), passes);
      var quantum := if m.burst && m.buf < m.header then m.header else m.buf;
      && 8000000.0 * s.tokens == m.rate as real * (s.time1 - start) as real - 8000000.0 * s.totLen as real
      && s.tokens >= -(quantum as real)
      && 8000000.0 * s.totLen as real <= m.rate as real * (s.time1 - start) as real + 8000000.0 * quantum as real
  {
    hide Run, Gained, Monotone;
    BegunKept(m, start);
    RunKept(m, start, Begun(start), passes);
    GainedIs(m, start, Run(m, Begun(start), passes).time1);
  }

  /**
   * Without bursts every byte written is charged, so the rate bound is one of the bytes
   * on the wire, with mBufLen to spare.
   */
  lemma WireBound(m: Settings, start: int, passes: seq<Pass>)
    requires m.Valid() && Monotone(start, passes) && !m.burst
    ensures
      var s := Run(m, Begun(start), passes);
      && s.wire == s.totLen
      && 8000000.0 * s.wire as real <= m.rate as real * (s.time1 - start) as real + 8000000.0 * m.buf as real
  {
    hide Run, Gained, Monotone;
    BegunKept(m, start);
    RunKept(m, start, Begun(start), passes);
    GainedIs(m, start, Run(m, Begun(start), passes).time1);
  }

  /**
   * With bursts a header write may go uncharged, but only once: it leaves write_remaining
   * positive, and no header is written again. So two quanta are enough.
   */
  lemma BurstWireBound(m: Settings, start: int, passes: seq<Pass>)
    requires m.Valid() && Monotone(start, passes) && m.burst
    ensures
      var s := Run(m, Begun(start), passes);
      var quantum := if m.buf < m.header then m.header else m.buf;
      && (s.wire != s.totLen ==> s.remaining > 0)
      && 8000000.0 * s.wire as real <= m.rate as real * (s.time1 - start) as real + 16000000.0 * quantum as real
  {
    hide Run, Gained, Monotone;
    BegunKept(m, start);
    RunKept(m, start, Begun(start), passes);
    GainedIs(m, start, Run(m, Begun(start), passes).time1);
  }

  // ----- what a pass writes -----

  lemma {:induction false} RunLast(m: Settings, s: Bucket, passes: seq<Pass>)
    requires passes != [] && !Run(m, s, passes[..|passes| - 1]).over
    ensures Run(m, s, passes) == Step(m, Run(m, s, passes[..|passes| - 1]), passes[|passes| - 1])
    decreases |passes|
  {
    hide Step;
    if |passes| > 1 {
      assert passes[..|passes| - 1][1..] == passes[1..][..|passes| - 2];
      if !s.over {
        RunLast(m, Step(m, s, passes[0]), passes[1..]);
      }
    }
  }

  function Within(takes: int, most: int): int {
    if takes < 0 then 0 else if takes > most then most else takes
  }

  /**
   * The bucket opens exactly when it should. Without bursts the last pass of a run writes
   * what the socket takes of a buffer if time has earned what has been charged so far,
   * and nothing if it has not.
   */
  lemma WritesIff(m: Settings, start: int, passes: seq<Pass>)
    requires m.Valid() && !m.burst && Monotone(start, passes) && passes != []
    requires !Run(m, Begun(start), passes[..|passes| - 1]).over
    ensures
      var s, p := Run(m, Begun(start), passes[..|passes| - 1]), passes[|passes| - 1];
      Run(m, Begun(start), passes).wire - s.wire == (
        if m.rate as real * (p.now - start) as real >= 8000000.0 * s.totLen as real && p.writable2
        then Within(p.takes2, m.buf) else 0)
  {
    hide Run, Gained, Kept, Monotone, Step, Within;
    var before, p := passes[..|passes| - 1], passes[|passes| - 1];
    var s := Run(m, Begun(start), before);
    RunLast(m, Begun(start), passes);
    BegunKept(m, start);
    MonotonePrefix(start, passes);
    RunKept(m, start, Begun(start), before);
    KeptTokens(m, start, s);
    GainedAdds(m, start, s.time1, p.now);
    GainedIs(m, start, p.now);
    PlainWrites(m, s, p);
  }

  lemma MonotonePrefix(time: int, passes: seq<Pass>)
    requires Monotone(time, passes) && passes != []
    ensures Monotone(time, passes[..|passes| - 1])
  {
  }

  lemma KeptTokens(m: Settings, start: int, s: Bucket)
    requires Kept(m, start, s)
    ensures s.tokens == Gained(m, start, s.time1) - s.totLen as real
  {
    hide Gained;
  }

  lemma PlainWrites(m: Settings, s: Bucket, p: Pass)
    requires m.Valid() && !m.burst
    ensures Step(m, s, p).wire - s.wire == (
              if s.tokens + Gained(m, s.time1, p.now) >= 0.0 && p.writable2 then Within(p.takes2, m.buf) else 0)
  {
    hide Gained;
  }

  /** With bursts the same holds of every pass; one that begins with a header writes up to a quantum in two writes. */
  lemma BurstWrites(m: Settings, s: Bucket, p: Pass)
    requires m.Valid() && m.burst
    ensures
      var r := Step(m, s, p);
      var quantum := if m.buf < m.header then m.header else m.buf;
      var first := Within(p.takes, quantum);
      r.wire - s.wire == (
        if s.tokens + Gained(m, s.time1, p.now) < 0.0 then 0
        else if s.remaining > 0 then (if p.writable2 then Within(p.takes2, m.buf) else 0)
        else if !p.writable || (p.takes < 0 && p.fatal) then 0
        else first + if p.writable2 then Within(p.takes2, quantum - first) else 0)
  {
    hide Gained;
  }

  /** Once write_remaining is positive it stays so: it is set anew, and never lowered, by a plain write. */
  lemma {:induction false} NoMoreHeaders(m: Settings, s: Bucket, passes: seq<Pass>)
    requires m.Valid() && s.remaining > 0
    ensures Run(m, s, passes).remaining > 0
    ensures Run(m, s, passes).wire - s.wire == Run(m, s, passes).totLen - s.totLen
    decreases |passes|
  {
    if !s.over && passes != [] {
      NoHeader(m, s, passes[0]);
      hide Step;
      NoMoreHeaders(m, Step(m, s, passes[0]), passes[1..]);
    }
  }

  lemma NoHeader(m: Settings, s: Bucket, p: Pass)
    requires m.Valid() && s.remaining > 0
    ensures var t := Step(m, s, p); t.remaining > 0 && t.wire - s.wire == t.totLen - s.totLen
  {
    hide Gained;
  }

  /** The pass that loses a charge: part of the header goes out, and the second write does not. */
  predicate Loses(m: Settings, s: Bucket, p: Pass) {
    && Filled(m, s, p.now).tokens >= 0.0 && m.burst && s.remaining <= 0 && p.writable
    && 0 < Least(p.takes, m.Quantum()) < m.Quantum() && (!p.writable2 || p.takes2 < 0)
  }

  lemma ChargedIff(m: Settings, s: Bucket, p: Pass)
    requires m.Valid()
    ensures Step(m, s, p).wire - s.wire == Step(m, s, p).totLen - s.totLen <==> !Loses(m, s, p)
  {
    hide Gained;
  }

  /** Such a pass: 70 bytes of a burst of 100 go out, and none of them is charged. */
  lemma HeaderUncharged()
    ensures
      var m := Settings(8000000, 100, true, 64);
      var s := Step(m, Begun(0), Pass(1000, true, 70, false, true, -1, false));
      s.wire == 70 && s.totLen == 0 && s.remaining == 30 && !s.over
  {
    GainedAdds(Settings(8000000, 100, true, 64), 0, 1000, 1000);
    hide Gained;
  }
}
