/**
 * How src/Client.cpp cuts a frame (RunUDPIsochronous) and a burst (RunUDPBurst) into
 * datagrams, outside amount mode. A UDP write takes all it is given or fails, so what
 * each write does is an input of the loops.
 */
module UdpFraming {
  import opened Division
  import opened UdpSequence

  /** One write: all of it, nothing, or an error. */
  datatype Attempt = Full | Zero | Failed(fatal: bool)

  /** udp_payload_minimum, or the header of a burst; and mBufLen. */
  datatype Sizes = Sizes(min: int, buf: int)
  {
    predicate Valid() {
      1 <= min <= buf
    }
  }

  /** The last packet of a frame is made no smaller than the minimum. */
  function Topped(b: int, z: Sizes): int {
    if 0 < b < z.min then z.min else b
  }

  /** Data on the wire: its id, its size, and the bytes that the header says remain. */
  datatype Packet = Packet(id: int, size: int, remaining: int, ready: bool)

  // ----- what a frame should be -----

  /** The sizes of a frame of b bytes, each with what remained before it. */
  function Frame(b: int, z: Sizes): seq<(int, int)>
    requires z.Valid()
    decreases b
  {
    if b <= 0 then []
    else
      var n := if b < z.buf then b else z.buf;
      [(n, b)] + Frame(Topped(b - n, z), z)
  }

  function Total(f: seq<(int, int)>): int {
    if f == [] then 0 else f[0].0 + Total(f[1..])
  }

  function CeilDiv(a: int, b: int): int
    requires b > 0
  {
    (a + b - 1) / b
  }

  lemma CeilStep(b: int, buf: int)
    requires b > buf > 0
    ensures CeilDiv(b, buf) == 1 + CeilDiv(b - buf, buf)
  {
    var q, r := (b - 1) / buf, (b - 1) % buf;
    assert b - 1 == q * buf + r;
    Divided(b - 1 + buf, q + 1, r, buf);
    Divided(b - 1, q, r, buf);
  }

  lemma CeilOne(b: int, buf: int)
    requires 0 < b <= buf
    ensures CeilDiv(b, buf) == 1
  {
    Divided(b + buf - 1, 1, b - 1, buf);
  }

  /** It is the least number of buffers that hold b bytes. */
  lemma CeilIs(b: int, buf: int)
    requires b > 0 && buf > 0
    ensures (CeilDiv(b, buf) - 1) * buf < b <= CeilDiv(b, buf) * buf
  {
    var q, r := (b + buf - 1) / buf, (b + buf - 1) % buf;
    assert b + buf - 1 == q * buf + r;
    assert (q - 1) * buf == q * buf - buf;
  }

  /**
   * A frame of at least the minimum is exactly ceil(b / buf) packets, each between the
   * minimum and the buffer, b bytes in all and less than a minimum more; and exactly the
   * last is as large as what its header says remains.
   */
  lemma {:induction false} FrameLaw(b: int, z: Sizes)
    requires z.Valid() && b >= z.min
    ensures |Frame(b, z)| == CeilDiv(b, z.buf) && b <= Total(Frame(b, z)) < b + z.min
    ensures forall i :: 0 <= i < |Frame(b, z)| ==>
              && z.min <= Frame(b, z)[i].0 <= z.buf
              && (Frame(b, z)[i].0 == Frame(b, z)[i].1 <==> i == |Frame(b, z)| - 1)
    decreases b
  {
    hide CeilDiv;
    var f := Frame(b, z);
    if b <= z.buf {
      CeilOne(b, z.buf);
      assert Frame(0, z) == [];
      assert f == [(b, b)];
    } else {
      var rest := Topped(b - z.buf, z);
      FrameLaw(rest, z);
      CeilStep(b, z.buf);
      if rest != b - z.buf {
        CeilOne(b - z.buf, z.buf);
        CeilOne(rest, z.buf);
      }
      var g := Frame(rest, z);
      assert f == [(z.buf, b)] + g;
      assert f[1..] == g;
      forall i | 0 <= i < |f|
        ensures z.min <= f[i].0 <= z.buf && (f[i].0 == f[i].1 <==> i == |f| - 1)
      {
        assert i > 0 ==> f[i] == g[i - 1];
      }
    }
  }

  // ----- RunUDPIsochronous, one frame -----

  /** The variables of the inner loop, the packets sent, and the transit_ready of each report. */
  datatype Framing = Framing(left: int, id: int, ready: bool, fatal: bool, packets: seq<Packet>, reports: seq<bool>)

  function FramePass(s: Framing, z: Sizes, a: Attempt): Framing {
    match a
    case Full =>
      var n := if s.left < z.buf then s.left else z.buf;
      var ready := s.left - n == 0;
      s.(left := Topped(s.left - n, z), id := s.id + 1, ready := ready,
         packets := s.packets + [Packet(s.id, n, s.left, ready)], reports := s.reports + [ready])
    case Zero => s.(id := s.id + 1, ready := false, reports := s.reports + [false])
    case Failed(fatal) => s.(fatal := s.fatal || fatal, reports := s.reports + [s.ready])
  }

  function FrameRun(s: Framing, z: Sizes, attempts: seq<Attempt>): Framing
    decreases |attempts|
  {
    if s.left <= 0 || attempts == [] then s else FrameRun(FramePass(s, z, attempts[0]), z, attempts[1..])
  }

  class IsochSender {
    var packetID: int
    var transitReady: bool
    var fatalwriteErr: bool
    var sent: seq<Packet>
    var reports: seq<bool>

    ghost function View(bytecnt: int): Framing
      reads this
    {
      Framing(bytecnt, packetID, transitReady, fatalwriteErr, sent, reports)
    }

    constructor (packetID: int)
      ensures View(0) == Framing(0, packetID, false, false, [], [])
    {
      this.packetID, transitReady, fatalwriteErr, sent, reports := packetID, false, false, [], [];
    }

    /** The inner loop for a frame of `bytes`, for as many passes as InProgress admits. */
    method SendFrame(bytes: int, z: Sizes, attempts: seq<Attempt>) returns (bytecnt: int)
      modifies this
      ensures View(bytecnt) == FrameRun(old(View(if bytes < z.min then z.min else bytes)), z, attempts)
    {
      hide FramePass;
      bytecnt := bytes;
      if bytecnt < z.min {
        bytecnt := z.min;
      }
      ghost var all := FrameRun(View(bytecnt), z, attempts);
      var i := 0;
      assert attempts[0..] == attempts;
      while bytecnt > 0 && i < |attempts|
        invariant 0 <= i <= |attempts|
        invariant all == FrameRun(View(bytecnt), z, attempts[i..])
        decreases |attempts| - i
      {
        assert attempts[i..][0] == attempts[i] && attempts[i..][1..] == attempts[i + 1..];
        bytecnt := OnePass(bytecnt, z, attempts[i]);
        i := i + 1;
      }
    }

    method OnePass(bytes: int, z: Sizes, a: Attempt) returns (bytecnt: int)
      modifies this
      ensures View(bytecnt) == FramePass(old(View(bytes)), z, a)
    {
      bytecnt := bytes;
      match a {
      case Full =>
        var currLen := if bytecnt < z.buf then bytecnt else z.buf;
        bytecnt := bytecnt - currLen;
        transitReady := bytecnt == 0;
        sent := sent + [Packet(packetID, currLen, bytes, transitReady)];
        if bytecnt > 0 && bytecnt < z.min {
          bytecnt := z.min;
        }
      case Zero =>
        transitReady := false;
      case Failed(fatal) =>
        packetID := packetID - 1;
        if fatal {
          fatalwriteErr := true;
        }
      }
      reports := reports + [transitReady];
      packetID := packetID + 1;
    }
  }

  function Pieces(ps: seq<Packet>): seq<(int, int)> {
    seq(|ps|, i requires 0 <= i < |ps| => (ps[i].size, ps[i].remaining))
  }

  lemma PiecesSnoc(ps: seq<Packet>, p: Packet)
    ensures Pieces(ps + [p]) == Pieces(ps) + [(p.size, p.remaining)]
  {
  }

  /** Each pass moves a packet from what is to be sent to what has been sent, or nothing. */
  lemma PassConserves(s: Framing, z: Sizes, a: Attempt)
    requires z.Valid() && s.left > 0
    ensures
      var r := FramePass(s, z, a);
      Pieces(r.packets) + Frame(r.left, z) == Pieces(s.packets) + Frame(s.left, z) && r.left >= 0
  {
    if a.Full? {
      var n := if s.left < z.buf then s.left else z.buf;
      PiecesSnoc(s.packets, Packet(s.id, n, s.left, s.left - n == 0));
    }
  }

  /** Whatever the writes do, the packets sent and the frame of what is left make up the frame. */
  lemma {:induction false} SendsTheFrame(s: Framing, z: Sizes, attempts: seq<Attempt>)
    requires z.Valid() && s.left >= 0
    ensures
      var r := FrameRun(s, z, attempts);
      Pieces(r.packets) + Frame(r.left, z) == Pieces(s.packets) + Frame(s.left, z) && r.left >= 0
    decreases |attempts|
  {
    if s.left > 0 && attempts != [] {
      PassConserves(s, z, attempts[0]);
      hide Frame, Pieces, FramePass;
      SendsTheFrame(FramePass(s, z, attempts[0]), z, attempts[1..]);
    }
  }

  function Fulls(attempts: seq<Attempt>): (n: nat)
    ensures n <= |attempts|
  {
    if attempts == [] then 0 else (if attempts[0].Full? then 1 else 0) + Fulls(attempts[1..])
  }

  /** It takes exactly as many full writes as the frame has packets; errors only take time. */
  lemma {:induction false} EndsAfter(s: Framing, z: Sizes, attempts: seq<Attempt>)
    requires z.Valid() && s.left >= 0
    ensures FrameRun(s, z, attempts).left == 0 <==> Fulls(attempts) >= |Frame(s.left, z)|
    decreases |attempts|
  {
    if s.left > 0 && attempts != [] {
      EndsAfter(FramePass(s, z, attempts[0]), z, attempts[1..]);
    }
  }

  /**
   * The frame of RunUDPIsochronous: after ceil(b / mBufLen) full writes, however many
   * failed in between, it has been sent whole: every packet between the minimum and
   * mBufLen, b bytes and less than a minimum more, and the server, which goes by size,
   * takes exactly the last packet for the last.
   */
  lemma FrameSent(b: int, id: int, ready: bool, z: Sizes, attempts: seq<Attempt>)
    requires z.Valid() && b >= z.min && Fulls(attempts) >= CeilDiv(b, z.buf)
    ensures
      var r := FrameRun(Framing(b, id, ready, false, [], []), z, attempts);
      && r.left == 0 && |r.packets| == CeilDiv(b, z.buf) && b <= Total(Pieces(r.packets)) < b + z.min
      && forall i :: 0 <= i < |r.packets| ==>
           && z.min <= r.packets[i].size <= z.buf
           && (r.packets[i].size == r.packets[i].remaining <==> i == |r.packets| - 1)
  {
    hide CeilDiv, FrameRun;
    var s := Framing(b, id, ready, false, [], []);
    FrameLaw(b, z);
    EndsAfter(s, z, attempts);
    SendsTheFrame(s, z, attempts);
    var r := FrameRun(s, z, attempts);
    assert Pieces(s.packets) + Frame(b, z) == Frame(b, z);
    assert Pieces(r.packets) + Frame(r.left, z) == Pieces(r.packets);
    hide Frame;
    forall i | 0 <= i < |r.packets|
      ensures Frame(b, z)[i] == (r.packets[i].size, r.packets[i].remaining)
    {
      assert Pieces(r.packets)[i] == Frame(b, z)[i];
    }
  }

  /**
   * A minimum above mBufLen is another matter: what is left is raised to the minimum
   * again and again, and the frame never ends.
   */
  lemma {:induction false} NeverEnds(s: Framing, z: Sizes, attempts: seq<Attempt>)
    requires 0 < z.buf < z.min <= s.left
    ensures FrameRun(s, z, attempts).left >= z.min
    decreases |attempts|
  {
    if attempts != [] {
      NeverEnds(FramePass(s, z, attempts[0]), z, attempts[1..]);
    }
  }

  predicate AllFailed(attempts: seq<Attempt>, n: nat)
    requires n <= |attempts|
  {
    forall j :: 0 <= j < n ==> attempts[j].Failed?
  }

  /**
   * When transit_ready is reported: with the packet that ends the frame, and, left over
   * from the frame before, with every error before the first write of this frame that
   * is none.
   */
  lemma {:induction false} ReadyIff(s: Framing, z: Sizes, attempts: seq<Attempt>, i: nat)
    requires z.Valid() && s.left > 0
    requires |s.reports| + i < |FrameRun(s, z, attempts).reports|
    ensures |FrameRun(s, z, attempts).reports| <= |s.reports| + |attempts|
    ensures
      var r := FrameRun(s, z, attempts);
      r.reports[|s.reports| + i] <==>
        || (r.left == 0 && |s.reports| + i == |r.reports| - 1)
        || (s.ready && i < |attempts| && AllFailed(attempts, i + 1))
    decreases |attempts|
  {
    var a, rest := attempts[0], attempts[1..];
    var t := FramePass(s, z, a);
    var r := FrameRun(s, z, attempts);
    ReportsGrow(t, z, rest);
    ReadyPass(s, z, a);
    FailedRest(attempts, i);
    if i > 0 {
      ReadyIff(t, z, rest, i - 1);
    }
  }

  lemma ReadyPass(s: Framing, z: Sizes, a: Attempt)
    requires z.Valid() && s.left > 0
    ensures
      var t := FramePass(s, z, a);
      && t.left >= 0 && |t.reports| == |s.reports| + 1 && t.reports[|s.reports|] == t.ready
      && (t.ready <==> t.left == 0 || (a.Failed? && s.ready))
  {
  }

  lemma FailedRest(attempts: seq<Attempt>, i: nat)
    requires attempts != []
    ensures 0 < i < |attempts| ==>
              (AllFailed(attempts, i + 1) <==> attempts[0].Failed? && AllFailed(attempts[1..], i))
  {
    if 0 < i < |attempts| && attempts[0].Failed? && AllFailed(attempts[1..], i) {
      forall j | 0 <= j < i + 1 ensures attempts[j].Failed? {
        assert j > 0 ==> attempts[j] == attempts[1..][j - 1];
      }
    }
  }

  /** A frame that fails at first, after one that was sent whole: reported ready, nothing sent. */
  lemma StaleReady()
    ensures
      var r := FrameRun(Framing(100, 5, true, false, [], []), Sizes(10, 50), [Failed(false)]);
      r.reports == [true] && r.packets == [] && r.left == 100
  {
    assert [Failed(false)][1..] == [];
  }

  /** The flag that ends the outer loop is raised by a fatal error among the passes made, and only then. */
  lemma {:induction false} FatalIff(s: Framing, z: Sizes, attempts: seq<Attempt>)
    requires z.Valid() && s.left >= 0
    ensures
      var r := FrameRun(s, z, attempts);
      && |r.reports| - |s.reports| <= |attempts|
      && (r.fatal <==> s.fatal || exists i :: 0 <= i < |r.reports| - |s.reports| && attempts[i] == Failed(true))
    decreases |attempts|
  {
    ReportsGrow(s, z, attempts);
    if s.left > 0 && attempts != [] {
      var t, rest := FramePass(s, z, attempts[0]), attempts[1..];
      PassConserves(s, z, attempts[0]);
      FatalIff(t, z, rest);
      ReportsGrow(t, z, rest);
      var r := FrameRun(s, z, attempts);
      assert forall i :: 0 < i < |attempts| ==> attempts[i] == rest[i - 1];
      if exists i :: 0 <= i < |r.reports| - |t.reports| && rest[i] == Failed(true) {
        var i :| 0 <= i < |r.reports| - |t.reports| && rest[i] == Failed(true);
        assert attempts[i + 1] == Failed(true);
      }
    }
  }

  lemma {:induction false} ReportsGrow(s: Framing, z: Sizes, attempts: seq<Attempt>)
    ensures s.reports <= FrameRun(s, z, attempts).reports
    ensures |FrameRun(s, z, attempts).reports| <= |s.reports| + |attempts|
    ensures |FrameRun(s, z, attempts).reports| == |s.reports| ==> FrameRun(s, z, attempts) == s
    decreases |attempts|
  {
    if s.left > 0 && attempts != [] {
      ReportsGrow(FramePass(s, z, attempts[0]), z, attempts[1..]);
    }
  }

  // ----- the ids of a frame -----

  /** The writes of nothing before the full one that n full ones precede. */
  function ZerosBefore(attempts: seq<Attempt>, n: nat): nat {
    if attempts == [] then 0
    else match attempts[0]
      case Full => if n == 0 then 0 else ZerosBefore(attempts[1..], n - 1)
      case Zero => 1 + ZerosBefore(attempts[1..], n)
      case Failed(_) => ZerosBefore(attempts[1..], n)
  }

  /**
   * The ids of a frame go up by one, and by one more for each write of nothing: an error
   * gives its id back, a write that sends nothing does not.
   */
  lemma {:induction false} FrameIds(s: Framing, z: Sizes, attempts: seq<Attempt>, i: nat)
    requires |s.packets| + i < |FrameRun(s, z, attempts).packets|
    ensures FrameRun(s, z, attempts).packets[|s.packets| + i].id == s.id + i + ZerosBefore(attempts, i)
    decreases |attempts|
  {
    var t, rest := FramePass(s, z, attempts[0]), attempts[1..];
    PacketsGrow(t, z, rest);
    if attempts[0].Full? {
      if i > 0 {
        FrameIds(t, z, rest, i - 1);
      }
    } else {
      FrameIds(t, z, rest, i);
    }
  }

  lemma {:induction false} PacketsGrow(s: Framing, z: Sizes, attempts: seq<Attempt>)
    ensures s.packets <= FrameRun(s, z, attempts).packets
    decreases |attempts|
  {
    if s.left > 0 && attempts != [] {
      PacketsGrow(FramePass(s, z, attempts[0]), z, attempts[1..]);
    }
  }

  // ----- RunUDPBurst, one burst -----

  datatype Burst = Burst(left: int, id: int, over: bool, packets: seq<Packet>)

  /** An error that is not fatal is tried again, a fatal one leaves the do loop. */
  function BurstPass(s: Burst, z: Sizes, a: Attempt): Burst {
    match a
    case Full =>
      var n := if s.left > z.buf then z.buf else if s.left < z.min then z.min else s.left;
      Burst(s.left - n, s.id + 1, s.left - n <= 0, s.packets + [Packet(s.id, n, s.left, false)])
    case Zero => s.(over := s.left <= 0)
    case Failed(fatal) => s.(over := s.left <= 0 || fatal)
  }

  function BurstRun(s: Burst, z: Sizes, attempts: seq<Attempt>): Burst
    decreases |attempts|
  {
    if s.over || attempts == [] then s else BurstRun(BurstPass(s, z, attempts[0]), z, attempts[1..])
  }

  /** The bursts of a run, one after the other; a fatal error ends its burst and not the run. */
  function BurstsRun(s: Burst, burstSize: int, z: Sizes, bursts: seq<seq<Attempt>>): Burst
    decreases |bursts|
  {
    if bursts == [] then s
    else BurstsRun(BurstRun(s.(left := burstSize, over := false), z, bursts[0]), burstSize, z, bursts[1..])
  }

  class BurstSender {
    var packetID: int
    var sent: seq<Packet>

    ghost function View(remaining: int, over: bool): Burst
      reads this
    {
      Burst(remaining, packetID, over, sent)
    }

    constructor (packetID: int)
      ensures this.packetID == packetID && sent == []
    {
      this.packetID, sent := packetID, [];
    }

    /** RunUDPBurst: the outer loop; an entry of `bursts` is what the writes of one burst do. */
    method RunUDPBurst(burstSize: int, z: Sizes, bursts: seq<seq<Attempt>>) returns (remaining: int, over: bool)
      modifies this
      ensures View(remaining, over) == BurstsRun(old(View(0, true)), burstSize, z, bursts)
    {
      remaining, over := 0, true;
      ghost var all := BurstsRun(View(remaining, over), burstSize, z, bursts);
      var i := 0;
      assert bursts[0..] == bursts;
      while i < |bursts|
        invariant 0 <= i <= |bursts|
        invariant all == BurstsRun(View(remaining, over), burstSize, z, bursts[i..])
      {
        assert bursts[i..][0] == bursts[i] && bursts[i..][1..] == bursts[i + 1..];
        remaining, over := SendBurst(burstSize, z, bursts[i]);
        i := i + 1;
      }
    }

    method SendBurst(burstSize: int, z: Sizes, attempts: seq<Attempt>) returns (remaining: int, over: bool)
      modifies this
      ensures View(remaining, over) == BurstRun(old(View(burstSize, false)), z, attempts)
    {
      remaining, over := burstSize, false;
      ghost var all := BurstRun(View(remaining, over), z, attempts);
      var i := 0;
      assert attempts[0..] == attempts;
      while !over && i < |attempts|
        invariant 0 <= i <= |attempts|
        invariant all == BurstRun(View(remaining, over), z, attempts[i..])
        decreases |attempts| - i
      {
        assert attempts[i..][0] == attempts[i] && attempts[i..][1..] == attempts[i + 1..];
        var broke := false;
        match attempts[i] {
        case Full =>
          var currLen :=
            if remaining > z.buf then z.buf else if remaining < z.min then z.min else remaining;
          sent := sent + [Packet(packetID, currLen, remaining, false)];
          remaining := remaining - currLen;
          packetID := packetID + 1;
        case Zero =>
        case Failed(fatal) =>
          broke := fatal;
        }
        over := remaining <= 0 || broke;
        i := i + 1;
      }
    }
  }

  function PacketSizes(f: seq<(int, int)>): seq<int> {
    seq(|f|, i requires 0 <= i < |f| => f[i].0)
  }

  lemma PacketSizesJoin(f: seq<(int, int)>, g: seq<(int, int)>)
    ensures PacketSizes(f + g) == PacketSizes(f) + PacketSizes(g)
  {
  }

  /** The sizes sent, and those of what is left. */
  function Whole(s: Burst, z: Sizes): seq<int>
    requires z.Valid()
  {
    PacketSizes(Pieces(s.packets)) + PacketSizes(Frame(Topped(s.left, z), z))
  }

  lemma BurstPassConserves(s: Burst, z: Sizes, a: Attempt)
    requires z.Valid() && s.left > 0
    ensures Whole(BurstPass(s, z, a), z) == Whole(s, z)
  {
    if a.Full? {
      var n := if s.left > z.buf then z.buf else if s.left < z.min then z.min else s.left;
      var p := Packet(s.id, n, s.left, false);
      PiecesSnoc(s.packets, p);
      PacketSizesJoin(Pieces(s.packets), [(n, s.left)]);
      var b := Topped(s.left, z);
      var g := Frame(Topped(s.left - n, z), z);
      assert Frame(b, z) == [(n, b)] + g;
      PacketSizesJoin([(n, b)], g);
      hide Frame, Pieces;
      assert PacketSizes([(n, s.left)]) == [n] == PacketSizes([(n, b)]);
    }
  }

  /**
   * A burst is cut as a frame is, whatever the writes do; it is over when all of it has
   * been sent or a fatal error has come.
   */
  lemma {:induction false} BurstLaw(s: Burst, z: Sizes, attempts: seq<Attempt>)
    requires z.Valid() && s.left > 0 && !s.over
    ensures
      var r := BurstRun(s, z, attempts);
      && Whole(r, z) == Whole(s, z)
      && (r.over <==> r.left <= 0 || exists i :: 0 <= i < |attempts| && attempts[i] == Failed(true))
    decreases |attempts|
  {
    if attempts != [] {
      var t := BurstPass(s, z, attempts[0]);
      BurstPassConserves(s, z, attempts[0]);
      hide Whole;
      if !t.over {
        BurstLaw(t, z, attempts[1..]);
      }
    }
  }

  function Ids(ps: seq<Packet>): seq<int> {
    seq(|ps|, i requires 0 <= i < |ps| => ps[i].id)
  }

  /** The ids of a run of bursts have no gap and no repeat, whatever the writes do. */
  lemma {:induction false} BurstIds(first: int, s: Burst, z: Sizes, attempts: seq<Attempt>)
    requires Ids(s.packets) == From(first, |s.packets|) && s.id == first + |s.packets|
    ensures
      var r := BurstRun(s, z, attempts);
      Ids(r.packets) == From(first, |r.packets|) && r.id == first + |r.packets|
    decreases |attempts|
  {
    if !s.over && attempts != [] {
      if attempts[0].Full? {
        FromSnoc(first, |s.packets|);
      }
      BurstIds(first, BurstPass(s, z, attempts[0]), z, attempts[1..]);
    }
  }

  /** The passes that end a burst: as many full writes as it has packets, and no fatal error. */
  predicate Completes(burstSize: int, z: Sizes, attempts: seq<Attempt>)
    requires z.Valid()
  {
    && Fulls(attempts) >= |Frame(Topped(burstSize, z), z)|
    && forall i :: 0 <= i < |attempts| ==> attempts[i] != Failed(true)
  }

  lemma {:induction false} BurstEnds(s: Burst, z: Sizes, attempts: seq<Attempt>)
    requires z.Valid() && s.left > 0 && !s.over && Completes(s.left, z, attempts)
    ensures BurstRun(s, z, attempts).over && BurstRun(s, z, attempts).left <= 0
    decreases |attempts|
  {
    var t := BurstPass(s, z, attempts[0]);
    assert attempts[0] != Failed(true);
    if !t.over {
      assert forall i :: 0 <= i < |attempts[1..]| ==> attempts[1..][i] == attempts[i + 1];
      BurstEnds(t, z, attempts[1..]);
    }
  }

  function Repeated(sizes: seq<int>, n: nat): seq<int> {
    if n == 0 then [] else Repeated(sizes, n - 1) + sizes
  }

  /**
   * Every burst of a run is a whole burst: when none is cut short, n bursts are n times
   * the packets of a frame of the burst size.
   */
  lemma {:induction false} BurstsWhole(s: Burst, burstSize: int, z: Sizes, bursts: seq<seq<Attempt>>)
    requires z.Valid() && burstSize > 0
    requires forall k :: 0 <= k < |bursts| ==> Completes(burstSize, z, bursts[k])
    ensures PacketSizes(Pieces(BurstsRun(s, burstSize, z, bursts).packets))
         == PacketSizes(Pieces(s.packets)) + Repeated(PacketSizes(Frame(Topped(burstSize, z), z)), |bursts|)
    decreases |bursts|
  {
    var whole := PacketSizes(Frame(Topped(burstSize, z), z));
    if bursts != [] {
      var t := s.(left := burstSize, over := false);
      var r := BurstRun(t, z, bursts[0]);
      assert Completes(burstSize, z, bursts[0]);
      BurstEnds(t, z, bursts[0]);
      BurstLaw(t, z, bursts[0]);
      NothingLeft(r, z);
      assert Whole(t, z) == PacketSizes(Pieces(s.packets)) + whole;
      assert forall k :: 0 <= k < |bursts[1..]| ==> bursts[1..][k] == bursts[k + 1];
      hide BurstRun, Frame, Pieces, PacketSizes, Completes, Whole;
      BurstsWhole(r, burstSize, z, bursts[1..]);
      RepeatedFirst(whole, |bursts| - 1);
      Assoc(PacketSizes(Pieces(s.packets)), whole, Repeated(whole, |bursts| - 1));
    }
  }

  lemma NothingLeft(r: Burst, z: Sizes)
    requires z.Valid() && r.left <= 0
    ensures Whole(r, z) == PacketSizes(Pieces(r.packets))
  {
    assert Frame(Topped(r.left, z), z) == [];
  }

  lemma {:induction false} RepeatedFirst(sizes: seq<int>, n: nat)
    ensures Repeated(sizes, n + 1) == sizes + Repeated(sizes, n)
    decreases n
  {
    if n == 0 {
      assert Repeated(sizes, 1) == [] + sizes == sizes + [];
    } else {
      RepeatedFirst(sizes, n - 1);
      Assoc(sizes, Repeated(sizes, n - 1), sizes);
    }
  }

  lemma Assoc(a: seq<int>, b: seq<int>, c: seq<int>)
    ensures a + (b + c) == (a + b) + c
  {
  }

  lemma {:induction false} BurstsIds(first: int, s: Burst, burstSize: int, z: Sizes, bursts: seq<seq<Attempt>>)
    requires Ids(s.packets) == From(first, |s.packets|) && s.id == first + |s.packets|
    ensures
      var r := BurstsRun(s, burstSize, z, bursts);
      Ids(r.packets) == From(first, |r.packets|) && r.id == first + |r.packets|
    decreases |bursts|
  {
    if bursts != [] {
      var t := s.(left := burstSize, over := false);
      BurstIds(first, t, z, bursts[0]);
      hide Ids, From, BurstRun;
      BurstsIds(first, BurstRun(t, z, bursts[0]), burstSize, z, bursts[1..]);
    }
  }

  /** RunUDPBurst and FinishTrafficActions: all the ids that one stream of bursts puts on the wire. */
  method SendBurstStream(id: int, burstSize: int, z: Sizes, bursts: seq<seq<Attempt>>,
                         handshake: bool, replies: seq<Reply>)
    returns (data: nat, fins: nat, ids: seq<int>)
    requires |replies| >= RETRYCOUNT
    ensures data == |BurstsRun(Burst(0, id, true, []), burstSize, z, bursts).packets|
    ensures fins == 1 + (if handshake then Retries(replies[..RETRYCOUNT]) else 0) <= 1 + RETRYCOUNT
    ensures ids == StreamIds(id, data, fins)
  {
    var sender := new BurstSender(id);
    BurstsIds(id, Burst(0, id, true, []), burstSize, z, bursts);
    var remaining, over := sender.RunUDPBurst(burstSize, z, bursts);
    var fin := new FinSender(sender.packetID);
    var acked := fin.Finish(handshake, replies);
    data, fins := |sender.sent|, |fin.attempts|;
    ids := Ids(sender.sent) + fin.attempts;
  }
}
