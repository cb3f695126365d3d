/**
 * The UDP sequence numbers: how src/Client.cpp writes a signed 64-bit id into a datagram
 * and ends a stream with negative ids, and how src/Server.cpp and src/Listener.cpp read them.
 */
module UdpSequence {
  import opened Division

  // ----- on the wire -----

  const TWO31 := 0x8000_0000
  const TWO32 := 0x1_0000_0000
  const TWO63 := 0x8000_0000_0000_0000
  const TWO64 := 0x1_0000_0000_0000_0000

  type uint32 = w: int | 0 <= w < TWO32

  predicate Int64(id: int) {
    -TWO63 <= id < TWO63
  }

  /** The four bytes of htonl. */
  datatype Net = Net(b0: int, b1: int, b2: int, b3: int)

  function Htonl(w: uint32): Net {
    Net(w / 0x100_0000, w / 0x1_0000 % 0x100, w / 0x100 % 0x100, w % 0x100)
  }

  function Ntohl(n: Net): int {
    n.b0 * 0x100_0000 + n.b1 * 0x1_0000 + n.b2 * 0x100 + n.b3
  }

  lemma NetworkOrder(w: uint32)
    ensures Ntohl(Htonl(w)) == w
    ensures var n := Htonl(w); 0 <= n.b0 < 256 && 0 <= n.b1 < 256 && 0 <= n.b2 < 256 && 0 <= n.b3 < 256
  {
    assert w / 0x1_0000 == w / 0x100 / 0x100 && w / 0x100_0000 == w / 0x1_0000 / 0x100;
  }

  /** The order is that of the network: the first byte on the wire is the most significant. */
  lemma BigEndian(a: int, b: int, c: int, d: int)
    requires 0 <= a < 256 && 0 <= b < 256 && 0 <= c < 256 && 0 <= d < 256
    ensures Htonl(a * 0x100_0000 + b * 0x1_0000 + c * 0x100 + d) == Net(a, b, c, d)
  {
    var y := a * 0x100 + b;
    var x := y * 0x100 + c;
    var w := x * 0x100 + d;
    Divided(w, x, d, 0x100);
    Divided(w, y, c * 0x100 + d, 0x1_0000);
    Divided(w, a, b * 0x1_0000 + c * 0x100 + d, 0x100_0000);
    Divided(x, y, c, 0x100);
    Divided(y, a, b, 0x100);
  }

  /** id and id2 of struct UDP_datagram. */
  datatype Header = Header(id: Net, id2: Net)

  /** The id is cut into its low and its high word, both unsigned. */
  function WritePacketID(packetID: int): Header {
    Header(Htonl(packetID % TWO32), Htonl(packetID / TWO32 % TWO32))
  }

  /** The words of a two's complement number, joined and read as signed. */
  function Read64(h: Header): int {
    var u := Ntohl(h.id) + Ntohl(h.id2) * TWO32;
    if u < TWO63 then u else u - TWO64
  }

  /** What a server reads that knows only the first word. */
  function Read32(h: Header): int {
    var u := Ntohl(h.id);
    if u < TWO31 then u else u - TWO32
  }

  function ReadPacketID(h: Header, long: bool): int {
    if long then Read64(h) else Read32(h)
  }

  /** Every 64-bit id comes back, whatever its sign. */
  lemma LongIdsExact(id: int)
    requires Int64(id)
    ensures Read64(WritePacketID(id)) == id
  {
    hide Htonl, Ntohl;
    var low, q := id % TWO32, id / TWO32;
    NetworkOrder(low);
    NetworkOrder(q % TWO32);
    assert id == q * TWO32 + low && -TWO31 <= q < TWO31;
    assert q % TWO32 == if q < 0 then q + TWO32 else q;
  }

  /** A legacy server recovers exactly the signed 32-bit ids. */
  lemma ShortIdsExactIff(id: int)
    ensures Read32(WritePacketID(id)) == id <==> -TWO31 <= id < TWO31
  {
    NetworkOrder(id % TWO32);
  }

  predicate InRange(id: int, long: bool) {
    if long then Int64(id) else -TWO31 <= id < TWO31
  }

  lemma IdsExact(id: int, long: bool)
    requires InRange(id, long)
    ensures ReadPacketID(WritePacketID(id), long) == id
  {
    hide Read32, Read64, WritePacketID;
    if long {
      LongIdsExact(id);
    } else {
      ShortIdsExactIff(id);
    }
  }

  // ----- the end of a stream -----

  /** id, id + 1, ... */
  function From(id: int, n: nat): seq<int> {
    seq(n, i => id + i)
  }

  function Negated(s: seq<int>): seq<int> {
    seq(|s|, i requires 0 <= i < |s| => -s[i])
  }

  /** Microseconds of one wait, and the waits in two seconds. */
  const RETRYTIMER := 10000
  const RETRYCOUNT := 2 * 1000000 / RETRYTIMER

  /** What each wait of AwaitServerFinPacket brings. */
  datatype Reply = Silence | StaleAck | ReadFailed | ServerReport

  /** The silences before the server's report. */
  function Retries(replies: seq<Reply>): (n: nat)
    ensures n <= |replies|
  {
    if replies == [] || replies[0].ServerReport? then 0
    else (if replies[0].Silence? then 1 else 0) + Retries(replies[1..])
  }

  /** Exactly the silences retransmit, and only until the server's report. */
  lemma {:induction false} RetriesAre(before: seq<Reply>, after: seq<Reply>)
    requires ServerReport !in before && (after == [] || after[0] == ServerReport)
    ensures Retries(before + after) == multiset(before)[Silence]
    decreases |before|
  {
    if before == [] {
      assert before + after == after;
    } else {
      assert (before + after)[1..] == before[1..] + after;
      assert before == [before[0]] + before[1..];
      assert multiset(before) == multiset([before[0]]) + multiset(before[1..]);
      assert ServerReport !in before[1..];
      RetriesAre(before[1..], after);
    }
  }

  /** Never more than 200, and 200 when nothing is heard. */
  lemma {:induction false} TwoHundred(replies: seq<Reply>)
    requires |replies| >= 200
    ensures Retries(replies[..RETRYCOUNT]) <= 200
    ensures (forall i :: 0 <= i < 200 ==> replies[i] == Silence) ==> Retries(replies[..RETRYCOUNT]) == 200
  {
    if forall i :: 0 <= i < 200 ==> replies[i] == Silence {
      AllSilent(replies[..RETRYCOUNT]);
    }
  }

  lemma {:induction false} AllSilent(replies: seq<Reply>)
    requires forall i :: 0 <= i < |replies| ==> replies[i] == Silence
    ensures Retries(replies) == |replies|
    decreases |replies|
  {
    if replies != [] {
      AllSilent(replies[1..]);
    }
  }

  class FinSender {
    var packetID: int
    var attempts: seq<int>

    constructor (packetID: int)
      ensures this.packetID == packetID && attempts == []
    {
      this.packetID, attempts := packetID, [];
    }

    /**
     * FinishTrafficActions: one terminating datagram, then the handshake with its
     * retransmissions. `replies` is what the waits would bring, as many as are made.
     */
    method Finish(handshake: bool, replies: seq<Reply>) returns (acked: bool)
      requires |replies| >= RETRYCOUNT
      modifies this
      ensures
        var n := if handshake then Retries(replies[..RETRYCOUNT]) else 0;
        && attempts == old(attempts) + Negated(From(old(packetID), 1 + n))
        && packetID == old(packetID) + n
      ensures acked <==> handshake && ServerReport in replies[..RETRYCOUNT]
    {
      attempts := attempts + [-packetID];
      acked := false;
      if handshake {
        acked := AwaitServerFinPacket(replies);
      }
    }

    method AwaitServerFinPacket(replies: seq<Reply>) returns (ackSuccess: bool)
      requires |replies| >= RETRYCOUNT
      modifies this
      ensures
        var n := Retries(replies[..RETRYCOUNT]);
        && attempts == old(attempts) + Negated(From(old(packetID) + 1, n))
        && packetID == old(packetID) + n
      ensures ackSuccess <==> ServerReport in replies[..RETRYCOUNT]
    {
      ghost var rs := replies[..RETRYCOUNT];
      ghost var sent := 0;
      ackSuccess := false;
      var count := RETRYCOUNT - 1;
      assert rs[0..] == rs;
      while count >= 0 && !ackSuccess
        invariant -1 <= count < RETRYCOUNT
        invariant packetID == old(packetID) + sent
        invariant attempts == old(attempts) + Negated(From(old(packetID) + 1, sent))
        invariant Retries(rs) == sent + if ackSuccess then 0 else Retries(rs[RETRYCOUNT - 1 - count..])
        invariant if ackSuccess then ServerReport in rs else ServerReport !in rs[..RETRYCOUNT - 1 - count]
        decreases count
      {
        ghost var i := RETRYCOUNT - 1 - count;
        assert rs[i..][0] == rs[i] && rs[i..][1..] == rs[i + 1..];
        assert rs[..i + 1] == rs[..i] + [rs[i]];
        match replies[RETRYCOUNT - 1 - count] {
        case Silence =>
          FromSnoc(old(packetID) + 1, sent);
          packetID := packetID + 1;
          attempts := attempts + [-packetID];
          sent := sent + 1;
        case StaleAck =>
        case ReadFailed =>
        case ServerReport =>
          ackSuccess := true;
        }
        count := count - 1;
      }
      assert count < 0 && !ackSuccess ==> rs[..RETRYCOUNT - 1 - count] == rs;
    }
  }

  lemma FromSnoc(id: int, n: nat)
    ensures From(id, n + 1) == From(id, n) + [id + n]
    ensures Negated(From(id, n + 1)) == Negated(From(id, n)) + [-(id + n)]
  {
  }

  // ----- what the server makes of a stream -----

  /** ReadPacketID of the server: the sign is the end mark, the size the number. */
  function Numbered(id: int): (int, bool) {
    if id < 0 then (-id, true) else (id, false)
  }

  /** The headers of a stream: n data ids from `id`, then k FIN ids. */
  function StreamIds(id: int, n: nat, k: nat): seq<int> {
    From(id, n) + Negated(From(id + n, k))
  }

  /**
   * The server sees one unbroken count over data and FINs, and reads the end mark off the
   * FINs and nothing else: over all of int64, or over int32 for a legacy server.
   */
  lemma ServerCounts(id: int, n: nat, k: nat, long: bool, i: nat)
    requires id > 0 && InRange(id + n + k, long) && i < n + k
    ensures Numbered(ReadPacketID(WritePacketID(StreamIds(id, n, k)[i]), long)) == (id + i, i >= n)
  {
    IdsExact(StreamIds(id, n, k)[i], long);
  }

  /** No two datagrams of a stream, FIN attempts included, carry the same id. */
  lemma NeverRepeats(id: int, n: nat, k: nat, i: nat, j: nat)
    requires id > 0 && i < j < n + k
    ensures var s := StreamIds(id, n, k); s[i] != s[j] && s[i] != -s[j]
    ensures j < n ==> StreamIds(id, n, k)[j] > StreamIds(id, n, k)[i]
    ensures i >= n ==> StreamIds(id, n, k)[j] < StreamIds(id, n, k)[i]
  {
  }

  // ----- udp_accept -----

  /** A datagram in the listener's queue; `known` when its sender is an active host already. */
  datatype Datagram = Datagram(header: Header, long: bool, known: bool)
  {
    function Id(): int {
      ReadPacketID(header, long)
    }
  }

  /** The first datagram with a positive id. */
  function FirstData(queue: seq<Datagram>): (i: nat)
    ensures i <= |queue| && (i < |queue| ==> queue[i].Id() > 0)
    ensures forall j :: 0 <= j < i ==> queue[j].Id() <= 0
  {
    if queue == [] || queue[0].Id() > 0 then 0 else 1 + FirstData(queue[1..])
  }

  /** The first datagram, from the given place on, of a sender that is not known. */
  function FirstNew(queue: seq<Datagram>, from: nat): (i: nat)
    requires from <= |queue|
    ensures from <= i <= |queue| && (i < |queue| ==> !queue[i].known)
    ensures forall j :: from <= j < i ==> queue[j].known
    decreases |queue| - from
  {
    if from == |queue| || !queue[from].known then from else FirstNew(queue, from + 1)
  }

  /** The drain loop and its retry; it blocks, here ends, when the queue is empty. */
  method UdpAccept(queue: seq<Datagram>) returns (at: nat, drained: nat, duplicates: nat)
    ensures drained == FirstData(queue)
    ensures at == FirstNew(queue, drained) && duplicates == at - drained
  {
    at, drained, duplicates := 0, 0, 0;
    var drainStale := true;
    while at < |queue|
      invariant at <= |queue| && at == drained + duplicates
      invariant if drainStale then duplicates == 0 && at <= FirstData(queue)
                else drained == FirstData(queue) <= at <= FirstNew(queue, drained)
      decreases |queue| - at
    {
      if queue[at].Id() > 0 {
        drainStale := false;
      }
      if drainStale {
        drained := drained + 1;
      } else {
        if !queue[at].known {
          return;
        }
        duplicates := duplicates + 1;
      }
      at := at + 1;
    }
  }

  /** Left-over FINs are passed over until the first data; so a new sender is accepted on its data. */
  lemma AcceptsData(queue: seq<Datagram>)
    requires FirstData(queue) < |queue| && !queue[FirstData(queue)].known
    ensures FirstNew(queue, FirstData(queue)) == FirstData(queue)
    ensures queue[FirstNew(queue, FirstData(queue))].Id() > 0
  {
  }

  /**
   * A left-over FIN is accepted exactly if, among the datagrams from the first data on,
   * the first of an unknown sender is one: the drain is not resumed after a duplicate.
   */
  lemma AcceptsFinIff(queue: seq<Datagram>, i: nat)
    requires i < |queue|
    ensures FirstNew(queue, FirstData(queue)) == i && queue[i].Id() <= 0
        <==> && FirstData(queue) < i && queue[i].Id() <= 0 && !queue[i].known
             && forall j :: FirstData(queue) <= j < i ==> queue[j].known
  {
  }

  /** Such a queue: data of a sender already served, then the FIN of one that is gone. */
  lemma StaleAfterDuplicate()
    ensures
      var queue := [Datagram(WritePacketID(7), true, true), Datagram(WritePacketID(-9), true, false)];
      FirstData(queue) == 0 && FirstNew(queue, 0) == 1 && queue[1].Id() == -9
  {
    LongIdsExact(7);
    LongIdsExact(-9);
  }

  /** A legacy listener drains the FIN -n exactly if the low word of n is at most 2^31. */
  lemma LegacyDrainsIff(n: int)
    requires n > 0
    ensures Read32(WritePacketID(-n)) <= 0 <==> n % TWO32 <= TWO31
  {
    hide Htonl, Ntohl;
    var r, s := n % TWO32, -n % TWO32;
    Complement(n, r, s);
    NetworkOrder(s);
  }

  lemma Complement(n: int, r: int, s: int)
    requires r == n % TWO32 && s == -n % TWO32
    ensures s == if r == 0 then 0 else TWO32 - r
  {
    var q, p := n / TWO32, -n / TWO32;
    assert n == q * TWO32 + r && -n == p * TWO32 + s;
    assert (p + q) * TWO32 + r + s == 0;
  }
}
