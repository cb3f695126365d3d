/**
 * The bursts of Client::RunTCP, src/Client.cpp: a burst begins with a header that
 * announces its size and carries the running byte number, and is written in whatever
 * pieces the socket takes.
 */
module TcpBursts {
  import opened Division

  /** sizeof(struct TCP_burst_payload), and mBufLen. */
  datatype Sizes = Sizes(header: int, buf: int)
  {
    predicate Valid() {
      0 < header && 0 < buf
    }
  }

  /**
   * One pass of the loop: the size drawn for a burst if one begins, whether the pass gets
   * to its write (else AwaitSelectWrite, or the wait for the burst, has found the test
   * over), what the socket would take (0 when the peer has closed, negative on error),
   * and whether an error is fatal.
   */
  datatype Pass = Pass(size: int, writable: bool, takes: int, fatal: bool)

  /** A burst; `seqno` is what its header says, if it was sent one. */
  datatype Burst = Burst(announced: bool, seqno: int, size: int, written: int)

  /** The loop variables and the burst under way; the bursts completed and the reports made. */
  datatype Sender = Sender(remaining: int, id: int, ready: bool, over: bool, current: Burst,
                           done: seq<Burst>, reports: seq<bool>, total: int)

  function Begun(id: int): Sender {
    Sender(0, id, false, false, Burst(false, 0, 0, 0), [], [], 0)
  }

  function BurstSize(z: Sizes, size: int): int {
    if size < z.header then z.header else size
  }

  /** A successful write of `len` bytes of the burst under way. */
  function Wrote(s: Sender, len: int): Sender {
    var left := s.remaining - len;
    var burst := s.current.(written := s.current.written + len);
    s.(remaining := left, ready := left <= 0, current := burst,
       done := if left <= 0 then s.done + [burst] else s.done,
       reports := s.reports + [left <= 0], total := s.total + len)
  }

  /** A new burst. Its size is drawn before the waits that may find the test over, its header made after them. */
  function StartBurst(z: Sizes, s: Sender, p: Pass): Sender {
    var size := BurstSize(z, p.size);
    if !p.writable then
      s.(remaining := size, current := Burst(false, 0, size, 0), over := true)
    else
      var t := s.(remaining := size, id := s.id + size, current := Burst(true, s.id + size, size, 0));
      var len := Least(p.takes, Least(size, z.buf));
      if len < z.header then t.(over := true) else Wrote(t, len)
  }

  function GoOn(z: Sizes, s: Sender, p: Pass): Sender {
    if !p.writable then s.(over := true)
    else
      var len := Least(p.takes, Least(s.remaining, z.buf));
      if len > 0 then Wrote(s, len)
      else if len < 0 && p.fatal then s.(over := true)
      else s.(over := len == 0, reports := s.reports + [s.ready])
  }

  function Step(z: Sizes, s: Sender, p: Pass): Sender {
    if s.remaining > 0 then GoOn(z, s, p) else StartBurst(z, s, p)
  }

  function Run(z: Sizes, s: Sender, passes: seq<Pass>): Sender
    decreases |passes|
  {
    if s.over || passes == [] then s else Run(z, Step(z, s, passes[0]), passes[1..])
  }

  class TcpSender {
    var burstRemaining: int
    var packetID: int
    var transitReady: bool
    var totLen: int
    ghost var current: Burst
    ghost var done: seq<Burst>
    ghost var reports: seq<bool>

    ghost function View(over: bool): Sender
      reads this
    {
      Sender(burstRemaining, packetID, transitReady, over, current, done, reports, totLen)
    }

    constructor (packetID: int)
      ensures View(false) == Begun(packetID)
    {
      burstRemaining, this.packetID, transitReady, totLen := 0, packetID, false, 0;
      current, done, reports := Burst(false, 0, 0, 0), [], [];
    }

    /** The loop, for as many passes as InProgress admits; `over` when it has left by itself. */
    method RunTCP(z: Sizes, passes: seq<Pass>) returns (over: bool)
      modifies this
      ensures View(over) == Run(z, old(View(false)), passes)
    {
      hide Step;
      over := false;
      ghost var all := Run(z, View(over), passes);
      var i := 0;
      assert passes[0..] == passes;
      while !over && i < |passes|
        invariant 0 <= i <= |passes|
        invariant all == Run(z, View(over), passes[i..])
        decreases |passes| - i
      {
        assert passes[i..][0] == passes[i] && passes[i..][1..] == passes[i + 1..];
        over := OnePass(z, passes[i]);
        i := i + 1;
      }
    }

    method OnePass(z: Sizes, p: Pass) returns (over: bool)
      modifies this
      ensures View(over) == Step(z, old(View(false)), p)
    {
      hide StartBurst, GoOn;
      if !(burstRemaining > 0) {
        over := WriteHeader(z, p);
      } else {
        over := WriteOn(z, p);
      }
    }

    method WriteHeader(z: Sizes, p: Pass) returns (over: bool)
      modifies this
      ensures View(over) == StartBurst(z, old(View(false)), p)
    {
      hide Wrote;
      burstRemaining := p.size;
      if burstRemaining < z.header {
        burstRemaining := z.header;
      }
      current := Burst(false, 0, burstRemaining, 0);
      if !p.writable {
        return true;
      }
      packetID := packetID + burstRemaining;
      current := Burst(true, packetID, burstRemaining, 0);
      var writelen := if z.buf > burstRemaining then burstRemaining else z.buf;
      var packetLen := if p.takes < writelen then p.takes else writelen;
      if packetLen < z.header {
        return true;
      }
      Account(packetLen);
      over := false;
    }

    method WriteOn(z: Sizes, p: Pass) returns (over: bool)
      modifies this
      ensures View(over) == GoOn(z, old(View(false)), p)
    {
      hide Wrote;
      var writelen := if z.buf > burstRemaining then burstRemaining else z.buf;
      if !p.writable {
        return true;
      }
      var packetLen := if p.takes < writelen then p.takes else writelen;
      if packetLen > 0 {
        Account(packetLen);
        return false;
      }
      if packetLen < 0 && p.fatal {
        return true;
      }
      over := packetLen == 0;
      reports := reports + [transitReady];
    }

    method Account(packetLen: int)
      modifies this
      ensures View(false) == Wrote(old(View(false)), packetLen)
    {
      totLen := totLen + packetLen;
      burstRemaining := burstRemaining - packetLen;
      current := current.(written := current.written + packetLen);
      transitReady := !(burstRemaining > 0);
      if transitReady {
        done := done + [current];
      }
      reports := reports + [transitReady];
    }
  }

  // ----- what every run keeps -----

  function SumOfSizes(bs: seq<Burst>): int {
    if bs == [] then 0 else SumOfSizes(bs[..|bs| - 1]) + bs[|bs| - 1].size
  }

  function Written(bs: seq<Burst>): int {
    if bs == [] then 0 else Written(bs[..|bs| - 1]) + bs[|bs| - 1].written
  }

  lemma Snoc(bs: seq<Burst>, b: Burst)
    ensures SumOfSizes(bs + [b]) == SumOfSizes(bs) + b.size
    ensures Written(bs + [b]) == Written(bs) + b.written
  {
    assert (bs + [b])[..|bs|] == bs;
  }

  function Ends(reports: seq<bool>): nat {
    if reports == [] then 0
    else Ends(reports[..|reports| - 1]) + if reports[|reports| - 1] then 1 else 0
  }

  lemma EndsSnoc(reports: seq<bool>, r: bool)
    ensures Ends(reports + [r]) == Ends(reports) + if r then 1 else 0
  {
    assert (reports + [r])[..|reports|] == reports;
  }

  /** Every completed burst has its header, which continues the count, and has been written whole. */
  predicate Complete(id: int, bs: seq<Burst>) {
    forall i :: 0 <= i < |bs| ==>
      bs[i].announced && bs[i].written == bs[i].size && bs[i].seqno == id + SumOfSizes(bs[..i + 1])
  }

  lemma CompleteSnoc(id: int, bs: seq<Burst>, b: Burst)
    requires Complete(id, bs) && b.announced && b.written == b.size && b.seqno == id + SumOfSizes(bs) + b.size
    ensures Complete(id, bs + [b])
  {
    Snoc(bs, b);
    var cs := bs + [b];
    forall i | 0 <= i < |cs|
      ensures cs[i].announced && cs[i].written == cs[i].size && cs[i].seqno == id + SumOfSizes(cs[..i + 1])
    {
      if i < |bs| {
        assert cs[..i + 1] == bs[..i + 1];
      } else {
        assert cs[..i + 1] == cs;
      }
    }
  }

  /** The burst under way: it has its header and what is missing remains, or the loop ended before it began. */
  predicate Underway(s: Sender) {
    s.remaining > 0 ==>
      && s.current.size == s.remaining + s.current.written && s.current.written >= 0
      && (if s.current.announced then s.current.seqno == s.id else s.over && s.current.written == 0)
  }

  predicate Counted(id: int, s: Sender) {
    && s.id == id + SumOfSizes(s.done) + (if s.remaining > 0 && s.current.announced then s.current.size else 0)
    && s.total == Written(s.done) + (if s.remaining > 0 then s.current.written else 0)
    && Ends(s.reports) == |s.done|
  }

  predicate Accounted(id: int, s: Sender) {
    s.remaining >= 0 && Complete(id, s.done) && Underway(s) && Counted(id, s)
  }

  /** No end is reported while a burst is under way. */
  predicate Lawful(id: int, s: Sender) {
    Accounted(id, s) && (s.remaining > 0 ==> s.over || !s.ready)
  }

  lemma WroteLawful(id: int, s: Sender, len: int)
    requires Accounted(id, s) && !s.over && 0 < len <= s.remaining
    ensures Lawful(id, Wrote(s, len))
  {
    hide SumOfSizes, Written, Complete, Ends;
    var burst := s.current.(written := s.current.written + len);
    Snoc(s.done, burst);
    EndsSnoc(s.reports, len == s.remaining);
    if len == s.remaining {
      CompleteSnoc(id, s.done, burst);
    }
  }

  lemma StepLawful(z: Sizes, id: int, s: Sender, p: Pass)
    requires z.Valid() && Lawful(id, s) && !s.over
    ensures Lawful(id, Step(z, s, p))
  {
    hide SumOfSizes, Written, Complete, Wrote, Ends;
    if s.remaining > 0 {
      var len := Least(p.takes, Least(s.remaining, z.buf));
      if p.writable && len > 0 {
        WroteLawful(id, s, len);
      }
      EndsSnoc(s.reports, s.ready);
    } else {
      var size := BurstSize(z, p.size);
      var t := s.(remaining := size, id := s.id + size, current := Burst(true, s.id + size, size, 0));
      var len := Least(p.takes, Least(size, z.buf));
      assert Accounted(id, t);
      if p.writable && len >= z.header {
        WroteLawful(id, t, len);
      }
    }
  }

  lemma {:induction false} RunLawful(z: Sizes, id: int, s: Sender, passes: seq<Pass>)
    requires z.Valid() && Lawful(id, s)
    ensures Lawful(id, Run(z, s, passes))
    decreases |passes|
  {
    if !s.over && passes != [] {
      StepLawful(z, id, s, passes[0]);
      hide Lawful, Step;
      RunLawful(z, id, Step(z, s, passes[0]), passes[1..]);
    }
  }

  /**
   * In every run, under any pattern of partial writes and errors: what remains is never
   * negative; a completed burst has been written to exactly its size; its header says the
   * starting id and the sum of all burst sizes so far; transit_ready has been reported
   * once for each completed burst and not otherwise; and all bytes are accounted for.
   */
  lemma BurstAccounting(z: Sizes, id: int, passes: seq<Pass>)
    requires z.Valid()
    ensures
      var s := Run(z, Begun(id), passes);
      && s.remaining >= 0
      && (forall i :: 0 <= i < |s.done| ==>
           && s.done[i].announced && s.done[i].written == s.done[i].size
           && s.done[i].seqno == id + SumOfSizes(s.done[..i + 1]))
      && Ends(s.reports) == |s.done|
      && s.total == Written(s.done) + (if s.remaining > 0 then s.current.size - s.remaining else 0)
  {
    hide Run;
    assert Lawful(id, Begun(id));
    RunLawful(z, id, Begun(id), passes);
  }

  /**
   * The burst under way has its header too, which continues the count in the same way;
   * only the last burst of a run can be without one, and then nothing of it was written.
   */
  lemma HeaderFirst(z: Sizes, id: int, passes: seq<Pass>)
    requires z.Valid() && Run(z, Begun(id), passes).remaining > 0
    ensures
      var s := Run(z, Begun(id), passes);
      if s.current.announced then s.current.seqno == s.id == id + SumOfSizes(s.done) + s.current.size
      else s.over && s.current.written == 0
  {
    hide Run;
    assert Lawful(id, Begun(id));
    RunLawful(z, id, Begun(id), passes);
  }

  // ----- one pass -----

  /** Where a burst begins, its size is the size drawn, or that of the header if it is larger. */
  lemma BurstDrawn(z: Sizes, s: Sender, p: Pass)
    requires z.Valid() && s.remaining <= 0 && !s.over
    ensures
      var t := Step(z, s, p);
      && t.current.size == (if p.size >= z.header then p.size else z.header)
      && (p.writable ==> t.id == s.id + t.current.size && t.current.announced)
  {
  }

  /**
   * What a pass writes: as much as the socket takes, and no more than a buffer or than
   * the burst has left.
   */
  lemma PassWrites(z: Sizes, s: Sender, p: Pass)
    requires z.Valid() && s.remaining >= 0 && !s.over && p.writable
    ensures
      var t := Step(z, s, p);
      var left := if s.remaining > 0 then s.remaining else t.current.size;
      var most := if s.remaining > 0 then 0 else z.header - 1;
      t.total - s.total == (
        if p.takes <= most then 0
        else if p.takes <= left && p.takes <= z.buf then p.takes
        else if left <= z.buf then left
        else if z.buf > most then z.buf else 0)
  {
  }

  /** The loop leaves by itself when the test is over, the peer is gone, an error is fatal, or a header is cut short. */
  lemma LeavesIff(z: Sizes, s: Sender, p: Pass)
    requires z.Valid() && z.header <= z.buf && s.remaining >= 0 && !s.over
    ensures Step(z, s, p).over <==>
      || !p.writable
      || (s.remaining > 0 && (p.takes == 0 || (p.takes < 0 && p.fatal)))
      || (s.remaining <= 0 && p.takes < z.header)
  {
  }
}
