/**
 * The thread counters of compat/Thread.c. Every function that touches them holds one
 * mutex, so a run of the program is a sequence of the critical sections below, in any
 * order; the counters are compared with a ledger of which threads really are running.
 */
module ThreadCounts {
  type Tid = nat

  datatype Mode = Client | Server | Reporter | ReporterClient | Listener

  predicate IsTraffic(m: Mode) {
    m.Client? || m.Server?
  }

  /** What is true of the threads, whatever the counters say. */
  datatype Ledger = Ledger(
    live: set<Tid>,       // counted by thread_start and neither exited nor failed to start
    traffic: set<Tid>,    // the client and server threads among them
    listening: set<Tid>,  // listeners between register_nonterm and unregister_nonterm
    released: set<Tid>,   // listeners registered when release_nonterm was last called
    ignorers: set<Tid>,   // threads that called setignore and not yet unsetignore
    ignores: int,         // calls of setignore less calls of unsetignore
    slips: int,           // see Slip
    failedClients: nat,   // client threads that could not be created
    failedServers: nat    // server threads that could not be created
  )

  /** The counters, and whether thread_joinall sleeps on the condition. */
  datatype State = State(
    sNum: int, trfcNum: int, trfctxNum: int, trfcrxNum: int, nonterm: int,
    asleep: bool, ledger: Ledger)

  /** The critical sections. */
  datatype Action =
    | Start(t: Tid, mode: Mode)         // thread_start, before the thread is created
    | CreateFailed(t: Tid, mode: Mode)  // thread_start, when it cannot be created
    | Exit(t: Tid, mode: Mode)          // thread_run_wrapper, at its end
    | Stop(t: Tid, mode: Mode)          // thread_stop
    | SetIgnore(t: Tid)
    | UnsetIgnore(t: Tid)
    | Register(t: Tid)
    | Unregister(t: Tid)
    | Release
    | JoinCheck                         // thread_joinall, once around its loop

  const NO_THREADS := Ledger({}, {}, {}, {}, {}, 0, 0, 0, 0)
  const INITIAL := State(0, 0, 0, 0, 0, false, NO_THREADS)

  /** What the program does at all; nothing about good manners. */
  predicate Enabled(s: State, a: Action) {
    var g := s.ledger;
    match a
    case Start(t, m) => t !in g.live && t !in g.listening && t !in g.ignorers
    case CreateFailed(t, m) => t in g.live && t !in g.listening && (t in g.traffic <==> IsTraffic(m))
    case Exit(t, m) => t in g.live && t !in g.listening && (t in g.traffic <==> IsTraffic(m))
    case Stop(t, m) => t in g.live && (t in g.traffic <==> IsTraffic(m))
    case SetIgnore(t) => true
    case UnsetIgnore(t) => true
    case Register(t) => t in g.live && t !in g.listening && t !in g.traffic
    case Unregister(t) => t in g.listening
    case Release => true
    case JoinCheck => true
  }

  function Joined(g: Ledger, t: Tid, m: Mode): Ledger {
    g.(live := g.live + {t}, traffic := if IsTraffic(m) then g.traffic + {t} else g.traffic)
  }

  function Gone(g: Ledger, t: Tid): Ledger {
    g.(live := g.live - {t}, traffic := g.traffic - {t})
  }

  /**
   * unregister_nonterm decides by the counter, not by the caller. It slips when a
   * released listener takes back the place of an unreleased one (+1), and the slip is
   * repaired when an unreleased one then finds no place left to take back (-1).
   */
  function Slip(s: State, t: Tid): int {
    if t in s.ledger.released && s.nonterm != 0 then 1
    else if t !in s.ledger.released && s.nonterm == 0 then -1
    else 0
  }

  function Apply(s: State, a: Action): State {
    var g := s.ledger;
    match a
    case Start(t, m) =>
      s.(sNum := s.sNum + 1,
         trfcNum := if IsTraffic(m) then s.trfcNum + 1 else s.trfcNum,
         ledger := Joined(g, t, m))
    case CreateFailed(t, m) =>
      s.(sNum := s.sNum - 1,
         trfcNum := if IsTraffic(m) then s.trfcNum - 1 else s.trfcNum,
         trfctxNum := if m.Client? then s.trfctxNum - 1 else s.trfctxNum,
         trfcrxNum := if m.Server? then s.trfcrxNum - 1 else s.trfcrxNum,
         ledger := Gone(g, t).(
           failedClients := g.failedClients + if m.Client? then 1 else 0,
           failedServers := g.failedServers + if m.Server? then 1 else 0))
    case Exit(t, m) =>
      s.(sNum := s.sNum - 1,
         trfcNum := if IsTraffic(m) then s.trfcNum - 1 else s.trfcNum,
         asleep := false,
         ledger := Gone(g, t))
    case Stop(t, m) =>
      s.(sNum := s.sNum - 1,
         trfcNum := if IsTraffic(m) then s.trfcNum - 1 else s.trfcNum,
         asleep := false,
         ledger := Gone(g, t))
    case SetIgnore(t) =>
      s.(sNum := s.sNum - 1, asleep := false,
         ledger := g.(ignores := g.ignores + 1, ignorers := g.ignorers + {t}))
    case UnsetIgnore(t) =>
      s.(sNum := s.sNum + 1, asleep := false,
         ledger := g.(ignores := g.ignores - 1, ignorers := g.ignorers - {t}))
    case Register(t) =>
      s.(nonterm := s.nonterm + 1, ledger := g.(listening := g.listening + {t}))
    case Unregister(t) =>
      s.(sNum := if s.nonterm == 0 then s.sNum + 1 else s.sNum,
         nonterm := if s.nonterm == 0 then 0 else s.nonterm - 1,
         ledger := g.(listening := g.listening - {t}, released := g.released - {t},
                      slips := g.slips + Slip(s, t)))
    case Release =>
      s.(sNum := s.sNum - s.nonterm, nonterm := 0, asleep := false,
         ledger := g.(released := g.listening, slips := 0))
    case JoinCheck =>
      s.(asleep := s.sNum > 0)
  }

  // ----- the code -----

  /** The globals of Thread.c with the ledger beside them. */
  class Counters {
    var thread_sNum: int
    var thread_trfc_sNum: int
    var thread_trfctx_sNum: int
    var thread_trfcrx_sNum: int
    var nonterminating_num: int
    ghost var asleep: bool
    ghost var ledger: Ledger

    ghost function View(): State
      reads this
    {
      State(thread_sNum, thread_trfc_sNum, thread_trfctx_sNum, thread_trfcrx_sNum, nonterminating_num,
            asleep, ledger)
    }

    constructor ()
      ensures View() == INITIAL
    {
      thread_sNum, thread_trfc_sNum, thread_trfctx_sNum, thread_trfcrx_sNum := 0, 0, 0, 0;
      nonterminating_num := 0;
      asleep, ledger := false, NO_THREADS;
    }

    /** thread_start; `started` says whether mTID is set, `created` what pthread_create reports. */
    method ThreadStart(t: Tid, mode: Mode, started: bool, created: bool)
      modifies this
      ensures View() ==
        var s := Apply(old(View()), Start(t, mode));
        if started then old(View()) else if created then s else Apply(s, CreateFailed(t, mode))
    {
      if started {
        return;
      }
      thread_sNum := thread_sNum + 1;
      if mode == Client || mode == Server {
        thread_trfc_sNum := thread_trfc_sNum + 1;
      }
      ledger := Joined(ledger, t, mode);
      if !created {
        thread_sNum := thread_sNum - 1;
        if mode == Client {
          thread_trfc_sNum := thread_trfc_sNum - 1;
          thread_trfctx_sNum := thread_trfctx_sNum - 1;
        }
        if mode == Server {
          thread_trfc_sNum := thread_trfc_sNum - 1;
          thread_trfcrx_sNum := thread_trfcrx_sNum - 1;
        }
        ledger := Gone(ledger, t).(
          failedClients := ledger.failedClients + if mode == Client then 1 else 0,
          failedServers := ledger.failedServers + if mode == Server then 1 else 0);
      }
    }

    /** The last critical section of thread_run_wrapper, and the only one of thread_stop. */
    method ThreadGone(t: Tid, mode: Mode)
      modifies this
      ensures View() == Apply(old(View()), Exit(t, mode)) == Apply(old(View()), Stop(t, mode))
    {
      thread_sNum := thread_sNum - 1;
      if mode == Client || mode == Server {
        thread_trfc_sNum := thread_trfc_sNum - 1;
      }
      asleep, ledger := false, Gone(ledger, t);
    }

    method ThreadSetIgnore(ghost t: Tid)
      modifies this
      ensures View() == Apply(old(View()), SetIgnore(t))
    {
      thread_sNum := thread_sNum - 1;
      asleep := false;
      ledger := ledger.(ignores := ledger.ignores + 1, ignorers := ledger.ignorers + {t});
    }

    method ThreadUnsetIgnore(ghost t: Tid)
      modifies this
      ensures View() == Apply(old(View()), UnsetIgnore(t))
    {
      thread_sNum := thread_sNum + 1;
      asleep := false;
      ledger := ledger.(ignores := ledger.ignores - 1, ignorers := ledger.ignorers - {t});
    }

    method ThreadRegisterNonterm(ghost t: Tid)
      modifies this
      ensures View() == Apply(old(View()), Register(t))
    {
      nonterminating_num := nonterminating_num + 1;
      ledger := ledger.(listening := ledger.listening + {t});
    }

    method ThreadUnregisterNonterm(ghost t: Tid)
      modifies this
      ensures View() == Apply(old(View()), Unregister(t))
    {
      ledger := ledger.(listening := ledger.listening - {t}, released := ledger.released - {t},
                        slips := ledger.slips + Slip(View(), t));
      if nonterminating_num == 0 {
        thread_sNum := thread_sNum + 1;
      } else {
        nonterminating_num := nonterminating_num - 1;
      }
    }

    method ThreadReleaseNonterm() returns (n: int)
      modifies this
      ensures View() == Apply(old(View()), Release) && n == thread_sNum
    {
      thread_sNum := thread_sNum - nonterminating_num;
      nonterminating_num := 0;
      asleep := false;
      ledger := ledger.(released := ledger.listening, slips := 0);
      n := thread_sNum;
    }

    /** The test of thread_joinall's loop: it waits, or it returns. */
    method JoinTest() returns (done: bool)
      modifies this
      ensures View() == Apply(old(View()), JoinCheck) && (done <==> old(thread_sNum) <= 0)
    {
      done := !(thread_sNum > 0);
      asleep := !done;
    }
  }

  // ----- every run -----

  /** The state after a run; each action must be one the program can take then. */
  ghost predicate RunOf(actions: seq<Action>, s: State) {
    if actions == [] then s == INITIAL
    else
      var last := |actions| - 1;
      exists r :: RunOf(actions[..last], r) && Enabled(r, actions[last]) && s == Apply(r, actions[last])
  }

  /** What the counters mean. */
  predicate Conserved(s: State) {
    var g := s.ledger;
    && s.sNum == |g.live| - (|g.listening| - s.nonterm) - g.ignores
    && 0 <= s.nonterm <= |g.listening|
    && g.traffic <= g.live && s.trfcNum == |g.traffic|
    && g.released <= g.listening
    && |g.listening - g.released| == s.nonterm + g.slips && 0 <= g.slips
    && s.trfctxNum + g.failedClients == 0 && s.trfcrxNum + g.failedServers == 0
  }

  lemma Adds(a: set<Tid>, t: Tid)
    ensures t !in a ==> |a + {t}| == |a| + 1
    ensures t in a ==> |a - {t}| == |a| - 1
    ensures t !in a ==> a - {t} == a
  {
    if t in a {
      assert a == (a - {t}) + {t};
    }
  }

  lemma StepConserves(s: State, a: Action)
    requires Conserved(s) && Enabled(s, a)
    ensures Conserved(Apply(s, a))
  {
    match a
    case Start(t, m) => StartConserves(s, t, m);
    case CreateFailed(t, m) => GoneConserves(s, a, t);
    case Exit(t, m) => GoneConserves(s, a, t);
    case Stop(t, m) => GoneConserves(s, a, t);
    case SetIgnore(t) =>
    case UnsetIgnore(t) =>
    case Register(t) => RegisterConserves(s, t);
    case Unregister(t) => UnregisterConserves(s, t);
    case Release => assert s.ledger.listening - s.ledger.listening == {};
    case JoinCheck =>
  }

  lemma StartConserves(s: State, t: Tid, m: Mode)
    requires Conserved(s) && Enabled(s, Start(t, m))
    ensures Conserved(Apply(s, Start(t, m)))
  {
    Adds(s.ledger.live, t);
    Adds(s.ledger.traffic, t);
  }

  lemma GoneConserves(s: State, a: Action, t: Tid)
    requires Conserved(s) && Enabled(s, a) && (a.CreateFailed? || a.Exit? || a.Stop?) && t == a.t
    ensures Conserved(Apply(s, a))
  {
    Adds(s.ledger.live, t);
    Adds(s.ledger.traffic, t);
  }

  lemma RegisterConserves(s: State, t: Tid)
    requires Conserved(s) && Enabled(s, Register(t))
    ensures Conserved(Apply(s, Register(t)))
  {
    var g := s.ledger;
    Adds(g.listening, t);
    Adds(g.listening - g.released, t);
    assert (g.listening + {t}) - g.released == (g.listening - g.released) + {t};
  }

  lemma UnregisterConserves(s: State, t: Tid)
    requires Conserved(s) && t in s.ledger.listening
    ensures Conserved(Apply(s, Unregister(t)))
  {
    var g := s.ledger;
    var u := g.listening - g.released;
    Adds(g.listening, t);
    Adds(u, t);
    assert (g.listening - {t}) - (g.released - {t}) == u - {t};
  }

  lemma InitialConserved()
    ensures Conserved(INITIAL)
  {
  }

  /** Conservation in every interleaving. */
  lemma {:induction false} RunConserves(actions: seq<Action>, s: State)
    requires RunOf(actions, s)
    ensures Conserved(s)
    decreases |actions|
  {
    if actions != [] {
      var last := |actions| - 1;
      var r :| RunOf(actions[..last], r) && Enabled(r, actions[last]) && s == Apply(r, actions[last]);
      RunConserves(actions[..last], r);
      StepConserves(r, actions[last]);
    }
  }

  // ----- the ledger is what has happened -----

  /** What the critical sections so far say of a thread. */
  datatype Fate = Absent | Running(mode: Mode)

  function FateOf(actions: seq<Action>, t: Tid): Fate {
    if actions == [] then Absent
    else
      var last, before := actions[|actions| - 1], actions[..|actions| - 1];
      match last
      case Start(u, m) => if u == t then Running(m) else FateOf(before, t)
      case CreateFailed(u, _) => if u == t then Absent else FateOf(before, t)
      case Exit(u, _) => if u == t then Absent else FateOf(before, t)
      case Stop(u, _) => if u == t then Absent else FateOf(before, t)
      case _ => FateOf(before, t)
  }

  /** Whether the last registration or unregistration of a thread is a registration. */
  function Registered(actions: seq<Action>, t: Tid): bool {
    if actions == [] then false
    else
      var last, before := actions[|actions| - 1], actions[..|actions| - 1];
      if last == Register(t) then true
      else if last == Unregister(t) then false
      else Registered(before, t)
  }

  /** Whether a release has come since then. */
  function ReleasedSince(actions: seq<Action>, t: Tid): bool {
    if actions == [] then false
    else
      var last, before := actions[|actions| - 1], actions[..|actions| - 1];
      if last == Register(t) || last == Unregister(t) then false
      else (last == Release && Registered(before, t)) || ReleasedSince(before, t)
  }

  /**
   * In every run the ledger is the history: a thread is live when it has been started
   * and has not ended since, traffic when it was started as a client or a server.
   */
  lemma {:induction false} LedgerIsHistory(actions: seq<Action>, s: State, t: Tid)
    requires RunOf(actions, s)
    ensures t in s.ledger.live <==> FateOf(actions, t).Running?
    ensures t in s.ledger.traffic <==> FateOf(actions, t) == Running(Client) || FateOf(actions, t) == Running(Server)
    ensures t in s.ledger.listening <==> Registered(actions, t)
    ensures t in s.ledger.released <==> ReleasedSince(actions, t)
    decreases |actions|
  {
    hide Conserved, Enabled, Apply, FateOf, Registered, ReleasedSince;
    if actions == [] {
      NoHistory(t);
    } else {
      var last := |actions| - 1;
      var r :| RunOf(actions[..last], r) && Enabled(r, actions[last]) && s == Apply(r, actions[last]);
      LedgerIsHistory(actions[..last], r, t);
      RunConserves(actions[..last], r);
      Nested(r);
      FateStep(actions, r, t);
      RegisteredStep(actions, r, t);
    }
  }

  lemma NoHistory(t: Tid)
    ensures FateOf([], t) == Absent && !Registered([], t) && !ReleasedSince([], t)
  {
  }

  lemma Nested(s: State)
    requires Conserved(s)
    ensures s.ledger.released <= s.ledger.listening && s.ledger.traffic <= s.ledger.live
  {
  }

  lemma FateStep(actions: seq<Action>, r: State, t: Tid)
    requires actions != [] && Enabled(r, actions[|actions| - 1]) && r.ledger.traffic <= r.ledger.live
    requires
      var fate := FateOf(actions[..|actions| - 1], t);
      && (t in r.ledger.live <==> fate.Running?)
      && (t in r.ledger.traffic <==> fate == Running(Client) || fate == Running(Server))
    ensures
      var s, fate := Apply(r, actions[|actions| - 1]), FateOf(actions, t);
      && (t in s.ledger.live <==> fate.Running?)
      && (t in s.ledger.traffic <==> fate == Running(Client) || fate == Running(Server))
  {
    hide Slip;
    var a, g := actions[|actions| - 1], r.ledger;
    var h := Apply(r, a).ledger;
    match a
    case Start(u, m) => assert h == Joined(g, u, m);
    case CreateFailed(u, m) => assert h.live == g.live - {u} && h.traffic == g.traffic - {u};
    case Exit(u, m) => assert h.live == g.live - {u} && h.traffic == g.traffic - {u};
    case Stop(u, m) => assert h.live == g.live - {u} && h.traffic == g.traffic - {u};
    case _ => assert h.live == g.live && h.traffic == g.traffic;
  }

  lemma RegisteredStep(actions: seq<Action>, r: State, t: Tid)
    requires actions != [] && Enabled(r, actions[|actions| - 1]) && r.ledger.released <= r.ledger.listening
    requires t in r.ledger.listening <==> Registered(actions[..|actions| - 1], t)
    requires t in r.ledger.released <==> ReleasedSince(actions[..|actions| - 1], t)
    ensures
      var s := Apply(r, actions[|actions| - 1]);
      && (t in s.ledger.listening <==> Registered(actions, t))
      && (t in s.ledger.released <==> ReleasedSince(actions, t))
  {
    hide Slip, IsTraffic;
    var a, g := actions[|actions| - 1], r.ledger;
    var h := Apply(r, a).ledger;
    match a
    case Register(u) => assert h.listening == g.listening + {u} && h.released == g.released;
    case Unregister(u) => assert h.listening == g.listening - {u} && h.released == g.released - {u};
    case Release => assert h.listening == g.listening && h.released == g.listening;
    case _ => assert h.listening == g.listening && h.released == g.released;
  }

  // ----- thread_joinall -----

  /**
   * What the callers owe thread_joinall: a thread ignores itself at most once at a time,
   * not while it is a registered listener, and takes it back before it ends; nobody
   * stops a registered listener.
   */
  predicate Disciplined(s: State, a: Action) {
    var g := s.ledger;
    match a
    case SetIgnore(t) => t in g.live && t !in g.ignorers && t !in g.listening
    case UnsetIgnore(t) => t in g.ignorers
    case Exit(t, m) => t !in g.ignorers
    case Stop(t, m) => t !in g.ignorers && t !in g.listening
    case CreateFailed(t, m) => t !in g.ignorers
    case Register(t) => t !in g.ignorers
    case _ => true
  }

  ghost predicate DisciplinedRun(actions: seq<Action>, s: State) {
    if actions == [] then s == INITIAL
    else
      var last := |actions| - 1;
      exists r :: DisciplinedRun(actions[..last], r) && Enabled(r, actions[last]) && Disciplined(r, actions[last])
                  && s == Apply(r, actions[last])
  }

  predicate Orderly(s: State) {
    Conserved(s) && Settled(s.ledger)
  }

  lemma StepOrderly(s: State, a: Action)
    requires Orderly(s) && Enabled(s, a) && Disciplined(s, a)
    ensures Orderly(Apply(s, a))
  {
    StepConserves(s, a);
    if a.SetIgnore? || a.UnsetIgnore? {
      Adds(s.ledger.ignorers, a.t);
    }
    hide Conserved;
    assert Settled(s.ledger);
    StepSettled(s, a);
  }

  predicate Settled(g: Ledger) {
    && g.ignores == |g.ignorers| && g.ignorers <= g.live
    && g.listening <= g.live && g.ignorers !! g.listening
  }

  lemma StepSettled(s: State, a: Action)
    requires Settled(s.ledger) && Enabled(s, a) && Disciplined(s, a)
    requires a.SetIgnore? ==> |s.ledger.ignorers + {a.t}| == |s.ledger.ignorers| + 1
    requires a.UnsetIgnore? ==> |s.ledger.ignorers - {a.t}| == |s.ledger.ignorers| - 1
    ensures Settled(Apply(s, a).ledger)
  {
    hide IsTraffic, Slip;
  }

  lemma {:induction false} RunOrderly(actions: seq<Action>, s: State)
    requires DisciplinedRun(actions, s)
    ensures Orderly(s)
    decreases |actions|
  {
    hide Orderly, Conserved, Enabled, Disciplined, Apply;
    if actions == [] {
      InitialOrderly();
    } else {
      var last := |actions| - 1;
      var r :| DisciplinedRun(actions[..last], r) && Enabled(r, actions[last]) && Disciplined(r, actions[last])
               && s == Apply(r, actions[last]);
      RunOrderly(actions[..last], r);
      StepOrderly(r, actions[last]);
    }
  }

  lemma InitialOrderly()
    ensures Orderly(INITIAL)
  {
  }

  /**
   * thread_joinall returns exactly when every live thread is ignored or a listener and no
   * listener is still being counted; the counter is never negative.
   */
  lemma JoinReturnsIff(actions: seq<Action>, s: State)
    requires DisciplinedRun(actions, s)
    ensures s.sNum >= 0
    ensures s.sNum <= 0 <==> s.ledger.live == s.ledger.ignorers + s.ledger.listening && s.nonterm == 0
  {
    RunOrderly(actions, s);
    hide DisciplinedRun;
    var g := s.ledger;
    Remainder(g.live, g.ignorers, g.listening);
  }

  lemma Remainder(live: set<Tid>, a: set<Tid>, b: set<Tid>)
    requires a <= live && b <= live && a !! b
    ensures |live| == |a| + |b| + |live - (a + b)|
    ensures |live - (a + b)| == 0 <==> live == a + b
  {
    assert |a + b| == |a| + |b|;
    assert live == (a + b) + (live - (a + b));
  }

  /** The header's promise: only ignored threads and released listeners are left behind. */
  predicate LeavesOnlyExcused(s: State) {
    s.ledger.live <= s.ledger.ignorers + s.ledger.released
  }

  /** When it returns, the promise is kept exactly if no slip is outstanding. */
  lemma JoinSafety(actions: seq<Action>, s: State)
    requires DisciplinedRun(actions, s) && s.sNum <= 0
    ensures LeavesOnlyExcused(s) <==> s.ledger.slips == 0
  {
    JoinReturnsIff(actions, s);
    RunOrderly(actions, s);
    var g := s.ledger;
    assert |g.listening - g.released| == g.slips;
    if g.slips == 0 {
      assert g.listening - g.released == {};
      assert g.listening <= g.released;
    }
    if LeavesOnlyExcused(s) {
      assert g.listening - g.released == {};
    }
  }

  /** Without a released listener unregistering past an unreleased one there is no slip. */
  ghost predicate NeverSlips(actions: seq<Action>, s: State) {
    if actions == [] then s == INITIAL
    else
      var last := |actions| - 1;
      exists r :: NeverSlips(actions[..last], r) && Enabled(r, actions[last]) && Disciplined(r, actions[last])
                  && s == Apply(r, actions[last])
                  && (actions[last].Unregister? && actions[last].t in r.ledger.released ==> r.nonterm == 0)
  }

  lemma {:induction false} NoSlipRun(actions: seq<Action>, s: State)
    requires NeverSlips(actions, s)
    ensures DisciplinedRun(actions, s) && s.ledger.slips == 0
    decreases |actions|
  {
    hide Conserved, Orderly, Enabled, Disciplined, Apply;
    if actions != [] {
      var last := |actions| - 1;
      var r :| NeverSlips(actions[..last], r) && Enabled(r, actions[last]) && Disciplined(r, actions[last])
               && s == Apply(r, actions[last])
               && (actions[last].Unregister? && actions[last].t in r.ledger.released ==> r.nonterm == 0);
      NoSlipRun(actions[..last], r);
      RunOrderly(actions[..last], r);
      NoSlipStep(r, actions[last]);
    }
  }

  lemma NoSlipStep(r: State, a: Action)
    requires Orderly(r) && Enabled(r, a) && r.ledger.slips == 0
    requires a.Unregister? && a.t in r.ledger.released ==> r.nonterm == 0
    ensures Apply(r, a).ledger.slips == 0
  {
    StepConserves(r, a);
    if a.Unregister? && a.t !in r.ledger.released {
      assert a.t in r.ledger.listening - r.ledger.released;
      Adds(r.ledger.listening - r.ledger.released, a.t);
    }
  }

  // ----- a run that breaks the promise -----

  lemma Then(actions: seq<Action>, s: State, a: Action) returns (more: seq<Action>, t: State)
    requires DisciplinedRun(actions, s) && Enabled(s, a) && Disciplined(s, a)
    ensures more == actions + [a] && t == Apply(s, a) && DisciplinedRun(more, t)
  {
    more, t := actions + [a], Apply(s, a);
    assert more[..|actions|] == actions;
  }

  lemma FromNothing()
    ensures DisciplinedRun([], INITIAL)
  {
  }

  /** Two listeners, of which one is registered and then released. */
  lemma OneReleased() returns (actions: seq<Action>, s: State)
    ensures DisciplinedRun(actions, s) && Release in actions
    ensures s == State(1, 0, 0, 0, 0, false, Ledger({1, 2}, {}, {1}, {1}, {}, 0, 0, 0, 0))
  {
    hide DisciplinedRun;
    actions, s := [], INITIAL;
    FromNothing();
    actions, s := Then(actions, s, Start(1, Listener));
    actions, s := Then(actions, s, Start(2, Listener));
    actions, s := Then(actions, s, Register(1));
    actions, s := Then(actions, s, Release);
  }

  /**
   * Then the second registers and the first ends. The counter is zero, thread_joinall
   * returns, and the second listener is running although it was never released.
   */
  lemma JoinLeavesAListener() returns (actions: seq<Action>, s: State)
    ensures DisciplinedRun(actions, s) && Release in actions
    ensures s.sNum == 0 && s.ledger.live == {2} && !LeavesOnlyExcused(s)
  {
    hide DisciplinedRun;
    actions, s := OneReleased();
    actions, s := Then(actions, s, Register(2));
    actions, s := Then(actions, s, Unregister(1));
    actions, s := Then(actions, s, Exit(1, Listener));
  }

  // ----- wake-ups -----

  /** thread_joinall sleeps only while there is something to wait for. */
  predicate NoLostWakeup(s: State) {
    s.asleep ==> s.sNum > 0
  }

  /** The one critical section that lowers the counter without a signal is the failed create. */
  lemma WakeupLostIff(s: State, a: Action)
    requires Conserved(s) && NoLostWakeup(s)
    ensures NoLostWakeup(Apply(s, a)) <==> !(a.CreateFailed? && s.asleep && s.sNum == 1)
  {
  }

  /** So thread_joinall never sleeps for nothing in a run where every create succeeds. */
  lemma {:induction false} NoWakeupLost(actions: seq<Action>, s: State)
    requires RunOf(actions, s) && forall i :: 0 <= i < |actions| ==> !actions[i].CreateFailed?
    ensures NoLostWakeup(s)
    decreases |actions|
  {
    hide Conserved, Enabled, Apply, NoLostWakeup;
    if actions == [] {
      assert NoLostWakeup(INITIAL) by { InitialAwake(); }
    } else {
      var last := |actions| - 1;
      var r :| RunOf(actions[..last], r) && Enabled(r, actions[last]) && s == Apply(r, actions[last]);
      NoWakeupLost(actions[..last], r);
      RunConserves(actions[..last], r);
      WakeupLostIff(r, actions[last]);
    }
  }

  lemma InitialAwake()
    ensures NoLostWakeup(INITIAL)
  {
  }

  /** A released listener, and the reporter. */
  lemma ListenerAndReporter() returns (actions: seq<Action>, s: State)
    ensures DisciplinedRun(actions, s)
    ensures s == State(1, 0, 0, 0, 0, false, Ledger({1, 3}, {}, {1}, {1}, {}, 0, 0, 0, 0))
  {
    hide DisciplinedRun;
    actions, s := [], INITIAL;
    FromNothing();
    actions, s := Then(actions, s, Start(1, Listener));
    actions, s := Then(actions, s, Register(1));
    actions, s := Then(actions, s, Start(3, Reporter));
    actions, s := Then(actions, s, Release);
  }

  /**
   * With a failed create it can: the released listener starts a server, the reporter
   * ends, thread_joinall sleeps on the server, and the server could not be created.
   */
  lemma JoinSleepsForNothing() returns (actions: seq<Action>, s: State)
    ensures DisciplinedRun(actions, s) && s.asleep && s.sNum == 0
  {
    hide DisciplinedRun;
    actions, s := ListenerAndReporter();
    actions, s := Then(actions, s, Start(2, Server));
    actions, s := Then(actions, s, Exit(3, Reporter));
    actions, s := Then(actions, s, JoinCheck);
    actions, s := Then(actions, s, CreateFailed(2, Server));
  }
}
