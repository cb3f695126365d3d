/**
 * The single-client option of Listener::Run, src/Listener.cpp: the listener waits until
 * no traffic thread is counted before it accepts again. The listener's loop is
 * interleaved with the critical sections of every other thread, among them the listeners
 * of the other ports of a range, which share the counter.
 */
module ListenerGate {
  import opened ThreadCounts

  /** A settings object of the runNow chain, with the mode of its thread. */
  datatype Job = Job(t: Tid, mode: Mode)

  datatype Pc = AtGate | AtAccept | Starting

  /**
   * `batch` is the part of the accepted runNow chain still to be started, `last` the
   * whole of it, `counted` the threads of `last` that have been counted, and `chained`
   * the runNext threads whose predecessor has ended and which are not started yet.
   */
  datatype Gate = Gate(counters: State, pc: Pc, batch: seq<Job>, last: seq<Job>, counted: set<Tid>,
                       chained: set<Tid>)

  const OPEN := Gate(INITIAL, AtGate, [], [], {}, {})

  datatype Move =
    | Check                       // the top of the loop
    | Accept(chain: seq<Job>)     // my_accept succeeded; the server and its runNow chain
    | AcceptFailed
    | StartOne                    // one round of thread_start_all
    | StartDone
    | Other(a: Action)            // a critical section of some other thread, another listener's included
    | EndWithNext(t: Tid, mode: Mode, next: Tid)  // a thread ends and has a runNext
    | StartNext(t: Tid)           // thread_start of that runNext, a client

  function Tids(jobs: seq<Job>): set<Tid> {
    set i | 0 <= i < |jobs| :: jobs[i].t
  }

  predicate Startable(s: State, chain: seq<Job>) {
    forall i :: 0 <= i < |chain| ==>
      && IsTraffic(chain[i].mode) && Enabled(s, Start(chain[i].t, chain[i].mode))
      && forall j :: 0 <= j < i ==> chain[j].t != chain[i].t
  }

  /** A thread is named once: what others start is none of this listener's last batch. */
  predicate OtherMay(g: Gate, a: Action) {
    && Enabled(g.counters, a)
    && (a.Start? ==> a.t !in Tids(g.last))
    && (a.SetIgnore? ==> a.t !in Tids(g.batch))
  }

  predicate May(g: Gate, m: Move) {
    match m
    case Check => g.pc == AtGate
    case Accept(chain) => g.pc == AtAccept && Startable(g.counters, chain) && Tids(chain) !! g.chained
    case AcceptFailed => g.pc == AtAccept
    case StartOne => g.pc == Starting && g.batch != []
    case StartDone => g.pc == Starting && g.batch == []
    case Other(a) => OtherMay(g, a)
    case EndWithNext(t, mode, next) => OtherMay(g, Exit(t, mode)) && next !in Tids(g.last)
    case StartNext(t) => t in g.chained && Enabled(g.counters, Start(t, Client))
  }

  function Moved(g: Gate, m: Move): Gate
    requires May(g, m)
  {
    match m
    case Check => g.(pc := if g.counters.trfcNum > 0 then AtGate else AtAccept)
    case Accept(chain) => g.(pc := Starting, batch := chain, last := chain, counted := {})
    case AcceptFailed => g.(pc := AtGate)
    case StartOne =>
      g.(counters := Apply(g.counters, Start(g.batch[0].t, g.batch[0].mode)),
         batch := g.batch[1..], counted := g.counted + {g.batch[0].t})
    case StartDone => g.(pc := AtGate)
    case Other(a) => g.(counters := Apply(g.counters, a))
    case EndWithNext(t, mode, next) =>
      g.(counters := Apply(g.counters, Exit(t, mode)), chained := g.chained + {next})
    case StartNext(t) =>
      g.(counters := Apply(g.counters, Start(t, Client)), chained := g.chained - {t})
  }

  ghost predicate GateRun(ms: seq<Move>, g: Gate) {
    if ms == [] then g == OPEN
    else
      var last := |ms| - 1;
      exists h :: GateRun(ms[..last], h) && May(h, ms[last]) && g == Moved(h, ms[last])
  }

  // ----- what every move keeps -----

  predicate Placed(g: Gate) {
    && Tids(g.batch) <= Tids(g.last) && g.chained !! Tids(g.last)
    && Tids(g.last) <= g.counted + Tids(g.batch)
    && (g.pc != Starting ==> g.batch == [])
    && (g.pc == AtAccept ==> g.counters.ledger.traffic !! Tids(g.last))
  }

  predicate Exclusive(g: Gate) {
    && Conserved(g.counters) && Placed(g)
    && (g.pc == Starting ==> Startable(g.counters, g.batch))
  }

  lemma StartableAfter(s: State, a: Action, chain: seq<Job>)
    requires Startable(s, chain) && Enabled(s, a)
    requires a.Start? || a.SetIgnore? ==> a.t !in Tids(chain)
    ensures Startable(Apply(s, a), chain)
  {
    hide IsTraffic, Slip;
    forall i | 0 <= i < |chain| ensures Enabled(Apply(s, a), Start(chain[i].t, chain[i].mode)) {
      assert Enabled(s, Start(chain[i].t, chain[i].mode));
      assert chain[i].t in Tids(chain);
      assert a.Register? ==> a.t != chain[i].t;
    }
  }

  /** Only the start of a traffic thread adds to the live traffic, and it adds that thread. */
  lemma TrafficAfter(s: State, a: Action)
    requires Enabled(s, a)
    ensures
      var before, after := s.ledger.traffic, Apply(s, a).ledger.traffic;
      if a.Start? && IsTraffic(a.mode) then after == before + {a.t} else after <= before
  {
  }

  lemma MoveExclusive(g: Gate, m: Move)
    requires Exclusive(g) && May(g, m)
    ensures Exclusive(Moved(g, m))
  {
    match m
    case Check => CheckExclusive(g);
    case Accept(chain) => AcceptExclusive(g, chain);
    case AcceptFailed =>
    case StartOne => StartExclusive(g);
    case StartDone =>
    case Other(a) => OthersExclusive(g, a, g.chained);
    case EndWithNext(t, mode, next) => OthersExclusive(g, Exit(t, mode), g.chained + {next});
    case StartNext(t) => OthersExclusive(g, Start(t, Client), g.chained - {t});
  }

  lemma CheckExclusive(g: Gate)
    requires Exclusive(g) && g.pc == AtGate
    ensures Exclusive(Moved(g, Check))
  {
    assert g.counters.trfcNum == |g.counters.ledger.traffic|;
    hide Startable, Conserved, Tids;
  }

  lemma AcceptExclusive(g: Gate, chain: seq<Job>)
    requires Exclusive(g) && May(g, Accept(chain))
    ensures Exclusive(Moved(g, Accept(chain)))
  {
    hide Startable, Conserved, Tids;
  }

  lemma StartExclusive(g: Gate)
    requires Exclusive(g) && May(g, StartOne)
    ensures Exclusive(Moved(g, StartOne))
  {
    hide Conserved, Startable, Tids, Enabled, Apply;
    var job, rest := g.batch[0], g.batch[1..];
    var a := Start(job.t, job.mode);
    StartableRest(g.counters, g.batch);
    StepConserves(g.counters, a);
    StartableAfter(g.counters, a, rest);
    TidsRest(g.batch);
  }

  lemma StartableRest(s: State, batch: seq<Job>)
    requires batch != [] && Startable(s, batch)
    ensures Enabled(s, Start(batch[0].t, batch[0].mode))
    ensures Startable(s, batch[1..]) && batch[0].t !in Tids(batch[1..])
  {
    hide Enabled, IsTraffic;
    var rest := batch[1..];
    forall i | 0 <= i < |rest|
      ensures IsTraffic(rest[i].mode) && Enabled(s, Start(rest[i].t, rest[i].mode)) && rest[i].t != batch[0].t
      ensures forall j :: 0 <= j < i ==> rest[j].t != rest[i].t
    {
      assert rest[i] == batch[i + 1];
      forall j | 0 <= j < i ensures rest[j].t != rest[i].t {
        assert rest[j] == batch[j + 1];
      }
    }
  }

  lemma TidsRest(batch: seq<Job>)
    requires batch != []
    ensures Tids(batch) == {batch[0].t} + Tids(batch[1..])
  {
    forall t | t in Tids(batch) ensures t in {batch[0].t} + Tids(batch[1..]) {
      var i :| 0 <= i < |batch| && batch[i].t == t;
      if i > 0 {
        assert batch[1..][i - 1].t == t;
      }
    }
    forall t | t in Tids(batch[1..]) ensures t in Tids(batch) {
      var i :| 0 <= i < |batch[1..]| && batch[1..][i].t == t;
      assert batch[i + 1].t == t;
    }
  }

  /** The moves that are not this listener's own. */
  lemma OthersExclusive(g: Gate, a: Action, chained: set<Tid>)
    requires Exclusive(g) && Enabled(g.counters, a) && chained !! Tids(g.last)
    requires a.Start? ==> a.t !in Tids(g.last)
    requires a.SetIgnore? ==> a.t !in Tids(g.batch)
    ensures Exclusive(g.(counters := Apply(g.counters, a), chained := chained))
  {
    hide Tids, Conserved, Startable, Enabled, Apply;
    StepConserves(g.counters, a);
    TrafficAfter(g.counters, a);
    if g.pc == Starting {
      StartableAfter(g.counters, a, g.batch);
    }
  }

  lemma {:induction false} RunExclusive(ms: seq<Move>, g: Gate)
    requires GateRun(ms, g)
    ensures Exclusive(g)
    decreases |ms|
  {
    hide Exclusive, May, Moved;
    if ms == [] {
      OpenExclusive();
    } else {
      var last := |ms| - 1;
      var h :| GateRun(ms[..last], h) && May(h, ms[last]) && g == Moved(h, ms[last]);
      RunExclusive(ms[..last], h);
      MoveExclusive(h, ms[last]);
    }
  }

  lemma OpenExclusive()
    ensures Exclusive(OPEN)
  {
    InitialConserved();
    hide Conserved, Startable;
    assert Tids([]) == {};
  }

  /**
   * Single-client exclusion, in every interleaving, whatever runNext chains there are and
   * whatever other listeners start: at accept, every thread of the previous batch has
   * been counted and none of them is running.
   */
  lemma SingleClient(ms: seq<Move>, g: Gate)
    requires GateRun(ms, g) && g.pc == AtAccept
    ensures g.counters.ledger.traffic * Tids(g.last) == {}
    ensures Tids(g.last) <= g.counted
  {
    RunExclusive(ms, g);
    hide GateRun, Conserved, Startable;
    assert Tids([]) == {};
  }

  /**
   * The gate opens exactly when it should: at the top of the loop the listener goes on to
   * accept if and only if no client or server is live, whatever other threads are.
   */
  lemma GateOpensIff(ms: seq<Move>, g: Gate)
    requires GateRun(ms, g) && ms != [] && ms[|ms| - 1].Check?
    ensures g.pc == AtAccept <==> g.counters.ledger.traffic == {}
    ensures g.pc != AtAccept ==> g.pc == AtGate
  {
    hide Placed, Startable, Enabled, Apply;
    var last := |ms| - 1;
    var h :| GateRun(ms[..last], h) && May(h, ms[last]) && g == Moved(h, ms[last]);
    RunExclusive(ms[..last], h);
    assert h.counters.trfcNum == |h.counters.ledger.traffic|;
  }

  /** The moves of the listener's own loop. */
  function OwnMoves(ms: seq<Move>): seq<Move> {
    if ms == [] then []
    else
      var m := ms[|ms| - 1];
      OwnMoves(ms[..|ms| - 1]) + if m.Other? || m.EndWithNext? || m.StartNext? then [] else [m]
  }

  /** In every run the listener stands at accept exactly when its own last move was to pass the gate. */
  lemma {:induction false} AcceptsOnlyThroughTheGate(ms: seq<Move>, g: Gate)
    requires GateRun(ms, g)
    ensures g.pc == AtAccept ==> var own := OwnMoves(ms); own != [] && own[|own| - 1] == Check
    ensures g.pc == Starting ==>
              var own := OwnMoves(ms); own != [] && (own[|own| - 1].Accept? || own[|own| - 1].StartOne?)
    decreases |ms|
  {
    hide Conserved, Startable, Enabled, Apply, OtherMay;
    if ms != [] {
      var last := |ms| - 1;
      var h :| GateRun(ms[..last], h) && May(h, ms[last]) && g == Moved(h, ms[last]);
      AcceptsOnlyThroughTheGate(ms[..last], h);
    }
  }

  // ----- no other client at all -----

  /** The start of a traffic thread by anybody else. */
  predicate Intrudes(m: Move) {
    m.StartNext? || (m.Other? && m.a.Start? && IsTraffic(m.a.mode))
  }

  /**
   * That no client or server runs beside the listener at accept is lost by the start of a
   * runNext thread, by a traffic start of another listener, and by nothing else.
   */
  lemma ExclusionLostIff(g: Gate, m: Move)
    requires Conserved(g.counters) && May(g, m) && Moved(g, m).pc == AtAccept
    requires g.pc == AtAccept ==> g.counters.ledger.traffic == {}
    ensures Moved(g, m).counters.ledger.traffic == {} <==> !Intrudes(m)
  {
    match m
    case Check => assert g.counters.trfcNum == |g.counters.ledger.traffic|;
    case Other(a) => TrafficAfter(g.counters, a);
    case EndWithNext(t, mode, next) => TrafficAfter(g.counters, Exit(t, mode));
    case StartNext(t) => TrafficAfter(g.counters, Start(t, Client));
    case _ =>
  }

  /** No such start since the listener last came to the top of its loop. */
  predicate Undisturbed(ms: seq<Move>) {
    ms != [] && (ms[|ms| - 1].Check? || (!Intrudes(ms[|ms| - 1]) && Undisturbed(ms[..|ms| - 1])))
  }

  /** Then, in every run, no client or server thread at all is running at accept. */
  lemma {:induction false} AloneAtAccept(ms: seq<Move>, g: Gate)
    requires GateRun(ms, g) && g.pc == AtAccept && Undisturbed(ms)
    ensures g.counters.ledger.traffic == {}
    decreases |ms|
  {
    hide Conserved, Intrudes;
    var last := |ms| - 1;
    var h :| GateRun(ms[..last], h) && May(h, ms[last]) && g == Moved(h, ms[last]);
    assert Conserved(h.counters) by { RunExclusive(ms[..last], h); }
    if ms[last].Check? {
      ExclusionLostIff(h, ms[last]);
      assert !Intrudes(ms[last]) by { CheckIsOwn(ms[last]); }
    } else {
      assert h.pc == AtAccept;
      AloneAtAccept(ms[..last], h);
      ExclusionLostIff(h, ms[last]);
    }
  }

  lemma CheckIsOwn(m: Move)
    requires m.Check?
    ensures !Intrudes(m)
  {
  }

  // ----- runs in which it is lost -----

  lemma Next(ms: seq<Move>, g: Gate, m: Move) returns (more: seq<Move>, h: Gate)
    requires GateRun(ms, g) && May(g, m)
    ensures more == ms + [m] && h == Moved(g, m) && GateRun(more, h)
  {
    hide May, Moved;
    more, h := ms + [m], Moved(g, m);
    assert more[..|ms|] == ms;
  }

  lemma FromOpen()
    ensures GateRun([], OPEN)
  {
  }

  /**
   * A runNext thread is counted only after its predecessor is not: the listener can pass
   * the gate between the two, and stand at accept beside a running client.
   */
  lemma ChainsBreakExclusion() returns (ms: seq<Move>, g: Gate)
    ensures GateRun(ms, g) && g.pc == AtAccept && g.counters.ledger.traffic == {2}
  {
    hide GateRun;
    ms, g := OneServed();
    ms, g := Next(ms, g, EndWithNext(1, Server, 2));
    ms, g := Next(ms, g, Check);
    ms, g := Next(ms, g, StartNext(2));
  }

  /** One server accepted and started. */
  lemma OneServed() returns (ms: seq<Move>, g: Gate)
    ensures GateRun(ms, g)
    ensures g == Gate(State(1, 1, 0, 0, 0, false, Ledger({1}, {1}, {}, {}, {}, 0, 0, 0, 0)),
                      AtGate, [], [Job(1, Server)], {1}, {})
  {
    hide GateRun;
    ms, g := [], OPEN;
    FromOpen();
    ms, g := Next(ms, g, Check);
    ms, g := Next(ms, g, Accept([Job(1, Server)]));
    ms, g := Next(ms, g, StartOne);
    ms, g := Next(ms, g, StartDone);
  }

  /**
   * Two listeners of a port range pass the gate one after the other; the second accepts
   * first and starts its server while the first stands at accept.
   */
  lemma SecondListenerBreaksExclusion() returns (ms: seq<Move>, g: Gate)
    ensures GateRun(ms, g) && g.pc == AtAccept && g.counters.ledger.traffic == {2}
  {
    hide GateRun;
    ms, g := [], OPEN;
    FromOpen();
    ms, g := Next(ms, g, Check);
    ms, g := Next(ms, g, Other(Start(2, Server)));
  }
}
