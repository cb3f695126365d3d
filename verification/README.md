# Verified model of the vendored iperf2

The algorithms at the heart of `container/testbed/iperf2-source`, in Dafny, with what they
promise proved for every input, every run and every interleaving.
`dafny verify dfyconfig.toml` checks the whole project.

- **Address text codec** (`CText`, `Ipv6Spelling`, `InetPton`, `InetRecognition`,
  `InetCompleteness`, `InetNtop`, `InetCodec`, `InetMeaning`): `inet_pton` and `inet_ntop` as array
  programs, refined to a reference reading and a canonical spelling. The spellings are
  those of section 2.2 of RFC 4291, the recommended one that of RFC 5952.
- **Delay filter and clock arithmetic** (`Kalman`, `Delays`, `Timestamps`, `Division`,
  `PeriodicConnect`).
- **Threads** (`ThreadCounts`, `ListenerGate`, `Barriers`): each function that holds the
  mutex is one step of a state machine, and a run is any sequence of steps. A ledger of the
  threads there really are stands beside the counters.
- **Traffic** (`UdpPacing`, `UdpSequence`, `UdpFraming`, `TcpBursts`, `TokenBucket`): the
  send loops. Clock readings, write results and the end of the test are inputs of the loops,
  so a theorem holds for all of them; the assumptions on the clock are predicates
  (`Honest`, `Monotone`).

The C++ and C code that updates variables is a method over fields or arrays; each such
method is proved equal to a function, and the theorems are about the function. The fields
that the code does not have are a record of what it did: bytes, ids, reports.

## Where the code is not what it says

For each of these there is a lemma with the exact condition, over all inputs or runs, under
which the code does what it says, a concrete input or run on which it does not, or both.

- `inet_pton6` does not ignore a `::` in a full address (`compat/inet_pton.c:112`): it
  clears everything after it.
- `thread_joinall` can return beside a listener that was never released: a released
  listener that unregisters takes back the place of a registered one (`compat/Thread.c:499-505`).
- It can also sleep with nothing to wait for: a failed create lowers the count without a
  signal (`compat/Thread.c:244-255`). The tx and rx counters changed there are never incremented.
- The single-client gate keeps a listener from its own previous clients only: not from a
  `runNext` thread that is due, nor, with a port range, from the clients of another listener.
- The full-duplex barrier is out of step for good after one timeout, or after one entry
  before the other side has left; and after a timeout two sides are told to free one report.
- `ConnectPeriodic` does not look at `connectonly_count`, although `man/iperf.1` calls it the
  number of connects: without a test time it connects once, with one until the time is over.
- A timed `ConnectPeriodic` of 4295 seconds or more ends early: its microseconds wrap around.
- `delay_kalman` corrects half of a constant overshoot, and waits too little when the
  nanoseconds of the current time and the adjusted time come to three seconds or more.
- After a duplicate, `udp_accept` no longer drains left-over FINs.
- A frame of `RunUDPIsochronous` that begins with a failed write reports the `transit_ready`
  of the frame before.
- With a minimum payload above `mBufLen` its inner loop never ends.
- In `RunRateLimitedTCP` with bursts a header write can go uncharged, and after it there
  are no more headers.

## Model

| member | source | states |
|---|---|---|
| `InetPton.Pton4` | container/testbed/iperf2-source/compat/inet_pton.c:65-103 | Accepts exactly what the reference reading accepts, stores its four bytes and nothing else, and on rejection leaves `dst` as it was. |
| `InetRecognition.QuadRecognition` | container/testbed/iperf2-source/compat/inet_pton.c:74-100 | The exact language of the dotted-quad parser, both directions: four numbers of at most 255 (any leading zeros) with three dots; and the value of each such text. |
| `InetPton.Pton6` | container/testbed/iperf2-source/compat/inet_pton.c:120-202 | The tokeniser with its `val`, `colonp` and `tp`, its embedded quad and its shift accepts exactly when the reference reading does, stores that address, and on rejection leaves `dst` as it was. |
| `InetPton.ScanText` | container/testbed/iperf2-source/compat/inet_pton.c:141-177 | The tokeniser loop stops where the reference reading stops, with the same bytes, bookmark and open group, or rejects when it does. |
| `InetPton.StoreGroup` | container/testbed/iperf2-source/compat/inet_pton.c:164-165 | A group is stored as two bytes, high byte first, and nothing else is touched. |
| `InetPton.Conclude` | container/testbed/iperf2-source/compat/inet_pton.c:178-201 | What follows the loop: the open group, the shift, the length test. |
| `InetPton.ShiftTail` | container/testbed/iperf2-source/compat/inet_pton.c:184-197 | The hand-written overlapping shift turns prefix, suffix and zeros into prefix, zeros and suffix for every bookmark and length; with nothing elided it leaves zeros after the bookmark. |
| `InetRecognition.Recognition` | container/testbed/iperf2-source/compat/inet_pton.c:131-201 | The exact language of the IPv6 parser, both directions, as a grammar (any number of leading zeros, a trailing colon, at most one gap), and the address each accepted text gets. |
| `InetRecognition.PhraseAccepted` | container/testbed/iperf2-source/compat/inet_pton.c:131-201 | Every text of that grammar is accepted with its address. |
| `InetRecognition.ParseSound` | container/testbed/iperf2-source/compat/inet_pton.c:131-201 | Every accepted text is one of that grammar. |
| `InetCompleteness.EverySpellingParses` | container/testbed/iperf2-source/compat/inet_pton.c:120-202 | Completeness: every spelling that section 2.2 of RFC 4291 allows (either case, leading zeros, `::` anywhere for one or more groups, a trailing quad) is accepted and read as the address it denotes. |
| `InetCompleteness.GapIgnoredIff` | container/testbed/iperf2-source/compat/inet_pton.c:112 | The comment that a `::` in a full address is silently ignored holds if and only if everything after the gap is zero. |
| `InetCompleteness.GapNotIgnored` | container/testbed/iperf2-source/compat/inet_pton.c:192-195 | A text on which that comment fails: `1:2:3:4:5:6:7::8` loses its last group, unlike `1:2:3:4:5:6:7:8`. |
| `InetMeaning.DigitTables` | container/testbed/iperf2-source/compat/inet_pton.c:124-151 | A character is a hex digit of value i exactly when it is at place i of one of the two tables, and a decimal digit exactly when it is at place i of the first ten. |
| `InetMeaning.ValueAppend` | container/testbed/iperf2-source/compat/inet_pton.c:147-148 | A digit string is read by position, the most significant digit first. |
| `InetMeaning.FourDigits` | container/testbed/iperf2-source/compat/inet_pton.c:149-150 | Any one to four hex digits are a group. |
| `InetMeaning.LeadingZero` | container/testbed/iperf2-source/compat/inet_pton.c:147-151 | A leading zero changes no value. |
| `InetMeaning.TrailingColon` | container/testbed/iperf2-source/compat/inet_pton.c:154-169 | Eight groups may be followed by one more colon. |
| `InetMeaning.CaseIgnored` | container/testbed/iperf2-source/compat/inet_pton.c:144-148 | For every text, accepted or not: lowering A to F changes neither acceptance nor address. |
| `InetNtop.LoadWords` | container/testbed/iperf2-source/compat/inet_ntop.c:135-137 | The 16 bytes become the eight big-endian words. |
| `InetNtop.FindRun` | container/testbed/iperf2-source/compat/inet_ntop.c:138-161 | The one-pass scan finds the leftmost longest run of zero words, or none when no run has two. |
| `InetNtop.BestRunUnique` | container/testbed/iperf2-source/compat/inet_ntop.c:138-161 | There is only one such run, so the scan is determined by sections 4.2.2 and 4.2.3 of RFC 5952. |
| `InetMeaning.ElidedRun` | container/testbed/iperf2-source/compat/inet_ntop.c:138-161 | The same run on the bytes: none when no two adjacent words are zero, and else zero words, two or more, none longer and none as long before them. |
| `InetNtop.FormatIsCanonical` | container/testbed/iperf2-source/compat/inet_ntop.c:166-193 | The text that the formatting loop emits word by word is the text of the canonical spelling. |
| `InetNtop.FormatWords` | container/testbed/iperf2-source/compat/inet_ntop.c:166-188 | The formatting loop writes that text into the scratch buffer. |
| `InetNtop.Deliver` | container/testbed/iperf2-source/compat/inet_ntop.c:189-203 | The trailing colon, the NUL, the size check and the copy. |
| `InetNtop.Ntop4` | container/testbed/iperf2-source/compat/inet_ntop.c:95-105 | Prints the four octets in decimal when text and NUL fit in `size`, and otherwise touches nothing. |
| `InetNtop.Ntop6` | container/testbed/iperf2-source/compat/inet_ntop.c:115-204 | Prints the canonical text and a NUL if and only if both fit in `size`, leaves the rest of the buffer alone, and otherwise touches nothing. |
| `InetMeaning.QuadPrintedIff` | container/testbed/iperf2-source/compat/inet_ntop.c:179-186 | On the bytes: a dotted quad is printed exactly for ::a.b.c.d with a and b not both zero and for ::ffff:a.b.c.d. |
| `InetMeaning.QuadText` | container/testbed/iperf2-source/compat/inet_ntop.c:166-188 | Then the text is "::" or "::ffff:" and the four decimals. |
| `InetCodec.CanonicalFits` | container/testbed/iperf2-source/compat/inet_ntop.c:123 | No address overflows the 46-character scratch buffer. |
| `InetCodec.CanonicalDenotes` | container/testbed/iperf2-source/compat/inet_ntop.c:115-204 | What is printed is a legal spelling, and it denotes the address it was printed from. |
| `InetCodec.PrintThenParse` | container/testbed/iperf2-source/compat/inet_pton.c:120-202 | Round trip: the printed text of every 16-byte address, `::a.b.c.d` and `::ffff:a.b.c.d` included, parses back to the same 16 bytes. |
| `InetCodec.CopyThroughText` | container/testbed/iperf2-source/compat/inet_ntop.c:115-204 | The two C functions one after the other copy an address. |
| `InetCodec.CanonicalIsRecommended` | container/testbed/iperf2-source/compat/inet_ntop.c:138-193 | The printer follows sections 4.1 to 4.3 of RFC 5952. |
| `InetCodec.PrintedIffRecommended` | container/testbed/iperf2-source/compat/inet_ntop.c:138-193 | A legal spelling is recommended if and only if it is the one the printer chooses for its address: one canonical text for each address. |
| `InetCodec.NormaliseIdempotent` | container/testbed/iperf2-source/compat/inet_ntop.c:115-204 | Printing what was parsed changes nothing the second time. |
| `InetCodec.SameAddressIffSameText` | container/testbed/iperf2-source/compat/inet_ntop.c:115-204 | Two texts denote one address if and only if they normalise to one text. |
| `Kalman.KalmanState.Update` | container/testbed/iperf2-source/compat/delay.c:209-216 | One update of the filter keeps 0 < k < 1, the covariance positive and below the measurement noise. |
| `Kalman.UpdateBounds` | container/testbed/iperf2-source/compat/delay.c:209-216 | The same bounds as a law of the update function. |
| `Kalman.BalanceContracts` | container/testbed/iperf2-source/compat/delay.c:209-216 | For g(p) = p² + qp − qr, (p+q+r)²·g(p') = r²·g(p), exactly. |
| `Kalman.Drift` | container/testbed/iperf2-source/compat/delay.c:209-216 | The covariance falls when g(p) is positive and rises when it is negative. |
| `Kalman.SteadyContracts` | container/testbed/iperf2-source/compat/delay.c:209-216 | The distance of the covariance from its steady state shrinks by exactly r² / ((p+q+r)(s+q+r)). |
| `Kalman.StepTowardsSteady` | container/testbed/iperf2-source/compat/delay.c:209-216 | Each update moves the covariance strictly towards the steady state and not past it. |
| `Kalman.NeverCrosses` | container/testbed/iperf2-source/compat/delay.c:209-216 | In every run the covariance stays on its side of the steady state. |
| `Kalman.Converges` | container/testbed/iperf2-source/compat/delay.c:209-216 | Whatever is measured, after n updates the distance is at most r / (r + 2nq) of what it was. |
| `Kalman.ConvergesGeometrically` | container/testbed/iperf2-source/compat/delay.c:209-216 | After n updates it is at most (r / (q + r))^2n of what it was. |
| `Kalman.SignKept` | container/testbed/iperf2-source/compat/delay.c:209-216 | Without any steady state: in every run g(p) keeps its sign, so by Drift the covariance only falls, only rises, or stands still. |
| `Kalman.EstimateInHull` | container/testbed/iperf2-source/compat/delay.c:209-216 | The estimate stays in the convex hull of its start value and the measurements. |
| `Delays.Timespec.AddUlong` | container/testbed/iperf2-source/compat/delay.c:194-201 | Adds exactly and keeps normal form for any number of nanoseconds. |
| `Delays.Timespec.AddDouble` | container/testbed/iperf2-source/compat/delay.c:222-228 | Adds exactly; the result is in normal form if and only if one carry is enough. |
| `Delays.Timespec.Add` | container/testbed/iperf2-source/compat/delay.c:239-247 | Adds the totals exactly; normal form again if and only if one carry is enough. |
| `Delays.WaitFor` | container/testbed/iperf2-source/compat/delay.c:262-266 | The loop ends at the first reading greater than the finish time: later than its total in normal form, and otherwise as soon as its second is over. |
| `Delays.Timespec.Diff` | container/testbed/iperf2-source/compat/delay.c:230-238 | The borrowing subtraction is the difference of the totals. |
| `Delays.Timespec.GreaterThan` | container/testbed/iperf2-source/compat/delay.c:249-256 | On normal forms the comparison of fields is the order of totals. |
| `Delays.DelayBusyloop` | container/testbed/iperf2-source/compat/delay.c:258-267 | Returns at the first clock reading later than asked, never before. |
| `Delays.DelayKalman` | container/testbed/iperf2-source/compat/delay.c:272-310 | For every adjusted time above -1 ns, returns at the first reading after the deadline that the two single carries leave, and feeds exactly the measured error to the filter. |
| `Delays.SetFinish` | container/testbed/iperf2-source/compat/delay.c:283-291 | The finish time made by timespec_add_double and timespec_add, as the latest reading that does not end the wait. |
| `Delays.LongEnoughIff` | container/testbed/iperf2-source/compat/delay.c:222-247 | Every wait is as long as the adjusted time if and only if the nanoseconds of the current time and the adjusted time are less than three seconds together; the failing half gives, for all other inputs, a reading no later than asked that ends the wait. |
| `Delays.EarlyByAtMost` | container/testbed/iperf2-source/compat/delay.c:285-303 | While nothing is lost to a carry, the corrected delay is shorter than asked by less than the predicted error. |
| `Delays.NoLaterThan` | container/testbed/iperf2-source/compat/delay.c:285-304 | And never longer than the adjusted time: the first later reading ends it at the latest. |
| `Delays.FiveSecondsEndEarly` | container/testbed/iperf2-source/compat/delay.c:222-247 | A wait on which a carry is lost: five seconds asked for on a full second are over after three. |
| `Delays.DrawnToHalf` | container/testbed/iperf2-source/compat/delay.c:285-308 | Because the error is measured after the correction, each update pulls the prediction towards half of a constant overshoot, by the factor 1 − 2k. |
| `Delays.NearsHalf` | container/testbed/iperf2-source/compat/delay.c:285-308 | In every run with a constant overshoot each update brings the prediction strictly nearer to that half, until it is there. |
| `Delays.HalfRate` | container/testbed/iperf2-source/compat/delay.c:285-308 | With a rate: from the first update on, n more leave at most (max(q, 2r) / (q + 2r))^n of the distance. |
| `ThreadCounts.Counters.ThreadStart` | container/testbed/iperf2-source/compat/Thread.c:223-280 | A thread not yet started is counted, and uncounted again when it cannot be created; a started one changes nothing. |
| `ThreadCounts.Counters.ThreadGone` | container/testbed/iperf2-source/compat/Thread.c:398-405 | The end of a thread, and thread_stop, take it out of both counters and wake the waiter. |
| `ThreadCounts.Counters.ThreadSetIgnore` | container/testbed/iperf2-source/compat/Thread.c:463-468 | The caller leaves the count; the waiter is woken. |
| `ThreadCounts.Counters.ThreadUnsetIgnore` | container/testbed/iperf2-source/compat/Thread.c:476-481 | The caller is back in the count. |
| `ThreadCounts.Counters.ThreadRegisterNonterm` | container/testbed/iperf2-source/compat/Thread.c:487-491 | A listener is noted as one that may be released. |
| `ThreadCounts.Counters.ThreadUnregisterNonterm` | container/testbed/iperf2-source/compat/Thread.c:497-507 | A listener takes itself back into the count exactly when `nonterminating_num` has been released to 0. |
| `ThreadCounts.Counters.ThreadReleaseNonterm` | container/testbed/iperf2-source/compat/Thread.c:515-525 | All registered listeners leave the count at once; the count is returned. |
| `ThreadCounts.Counters.JoinTest` | container/testbed/iperf2-source/compat/Thread.c:428-434 | The join waits while the count is positive and returns otherwise. |
| `ThreadCounts.StepConserves` | container/testbed/iperf2-source/compat/Thread.c:223-525 | Every critical section keeps the meaning of the counters. |
| `ThreadCounts.RunConserves` | container/testbed/iperf2-source/compat/Thread.c:223-525 | In every interleaving thread_sNum = live threads − (registered listeners − nonterminating_num) − net ignores, 0 ≤ nonterminating_num ≤ registered listeners, thread_trfc_sNum = live client and server threads, and the tx/rx counters only ever count failed creates, downwards. |
| `ThreadCounts.LedgerIsHistory` | container/testbed/iperf2-source/compat/Thread.c:223-525 | What the counters are compared with is the history: live is started and not ended since, traffic is started as a client or a server, listening is registered last, released is released since. |
| `ThreadCounts.RunOrderly` | container/testbed/iperf2-source/compat/Thread.c:463-507 | In every disciplined run net ignores are the ignorers, who are live and no listeners, and registered listeners are live. |
| `ThreadCounts.JoinReturnsIff` | container/testbed/iperf2-source/compat/Thread.c:428-434 | In every disciplined run the count is never negative, and the join may return if and only if every live thread is an ignorer or a listener and no listener is still counted. |
| `ThreadCounts.JoinSafety` | container/testbed/iperf2-source/compat/Thread.c:423-434 | The promise that only ignored threads and released listeners are left behind is kept if and only if no slip of unregister_nonterm is outstanding. |
| `ThreadCounts.NoSlipRun` | container/testbed/iperf2-source/compat/Thread.c:497-507 | There is none in a run in which no released listener unregisters while an unreleased one is registered. |
| `ThreadCounts.JoinLeavesAListener` | container/testbed/iperf2-source/compat/Thread.c:497-507 | A run with a slip: the join returns beside a listener that was never released. |
| `ThreadCounts.WakeupLostIff` | container/testbed/iperf2-source/compat/Thread.c:244-255 | A critical section loses the wake-up of a sleeping join if and only if it is the failed create that takes the count from 1 to 0: the only decrement without a signal. |
| `ThreadCounts.NoWakeupLost` | container/testbed/iperf2-source/compat/Thread.c:398-405 | When every create succeeds the join never sleeps with nothing to wait for. |
| `ThreadCounts.JoinSleepsForNothing` | container/testbed/iperf2-source/compat/Thread.c:241-255 | A run with a failed create in which it does. |
| `ListenerGate.MoveExclusive` | container/testbed/iperf2-source/src/Listener.cpp:159-184 | Every move of the listener and every critical section of another thread, traffic starts of other listeners and runNext threads included, keeps the gate invariant. |
| `ListenerGate.RunExclusive` | container/testbed/iperf2-source/src/Listener.cpp:159-384 | So it holds in every run. |
| `ListenerGate.SingleClient` | container/testbed/iperf2-source/src/Listener.cpp:170-184 | With -1, in every interleaving, when the listener stands at accept every thread of its previous runNow chain has been counted and none of them is live. |
| `ListenerGate.GateOpensIff` | container/testbed/iperf2-source/src/Listener.cpp:172-184 | The gate opens exactly when it should: at the top of the loop the listener goes on to accept if and only if no client or server is live, whatever listeners and reporters are. |
| `ListenerGate.AcceptsOnlyThroughTheGate` | container/testbed/iperf2-source/src/Listener.cpp:159-387 | In every run the listener stands at accept only when its own last move was to pass the gate: it checks again after every accept, failed or not. |
| `ListenerGate.ExclusionLostIff` | container/testbed/iperf2-source/src/Listener.cpp:172-184 | That no client or server at all is live at accept is lost exactly by the start of a runNext thread or by a traffic start of another listener. |
| `ListenerGate.AloneAtAccept` | container/testbed/iperf2-source/src/Listener.cpp:172-184 | So in every run without such a start since the listener last came to the top of its loop, no client or server at all is live at accept. |
| `ListenerGate.ChainsBreakExclusion` | container/testbed/iperf2-source/compat/Thread.c:407-410 | With runNext it can stand there beside a live client: the successor is counted only after its predecessor is not. |
| `ListenerGate.SecondListenerBreaksExclusion` | container/testbed/iperf2-source/src/Launch.cpp:491-503 | Neither with a port range: two listeners share the counter, both pass the gate, and one starts its server while the other stands at accept. |
| `Barriers.BarrierMutex.Enter` | container/testbed/iperf2-source/src/Launch.cpp:67-87 | The section of fullduplex_startstop_barrier up to its first wait. |
| `Barriers.BarrierMutex.Wake` | container/testbed/iperf2-source/src/Launch.cpp:84-99 | The section after a wait: times out, waits on, or resets the count and passes. |
| `Barriers.RunClean` | container/testbed/iperf2-source/src/Launch.cpp:67-100 | Every run is either orderly, and then in one of three clean states, or out of step. |
| `Barriers.RoundMeets` | container/testbed/iperf2-source/src/Launch.cpp:67-100 | One round, timeouts included: exactly the second arriver is told 1, a 0 comes only after both have arrived, and the first is told 0 or -1. |
| `Barriers.FreedOnceIff` | container/testbed/iperf2-source/src/Reporter.c:242-253 | When both sides have come and gone, exactly one of the two answers is nonzero if and only if nobody timed out, and else both are: EndJob then frees the shared report twice. |
| `Barriers.Rendezvous` | container/testbed/iperf2-source/src/Launch.cpp:67-100 | Over every orderly run the k-th pass on either side has k arrivals on both sides behind it, and nobody times out. |
| `Barriers.ReusableIff` | container/testbed/iperf2-source/src/Launch.cpp:96 | When nobody is inside, the count is back to 0 if and only if nobody timed out and nobody came back before the other had left. |
| `Barriers.SpoiltForGood` | container/testbed/iperf2-source/src/Launch.cpp:67-100 | After the first such event no later call returns 0 and at most one returns 1. |
| `Barriers.WaitsEnd` | container/testbed/iperf2-source/src/Launch.cpp:83-95 | All calls together wake at most `timeout` times each: the wait loop terminates. |
| `Barriers.GivesUpAfter` | container/testbed/iperf2-source/src/Launch.cpp:83-95 | For every timeout, a call left alone waits through exactly that many wakes and then returns -1. |
| `Barriers.PassesAlone` | container/testbed/iperf2-source/src/Launch.cpp:89-95 | After one side has timed out at the start barrier the other, too late, is told 1 alone, and times out at the stop barrier. |
| `Barriers.Overtaken` | container/testbed/iperf2-source/src/Launch.cpp:71-96 | A second entry before the waiter woke leaves both sides waiting for a count gone by. |
| `Barriers.ConnectBarrier.Arrive` | container/testbed/iperf2-source/src/Client.cpp:2321-2342 | The section of BarrierClient up to its wait or broadcast. |
| `Barriers.OneIsLast` | container/testbed/iperf2-source/src/Client.cpp:2316-2352 | In every interleaving nobody is told last before the n-th arrival, exactly one at the n-th, and from then on nobody sleeps. |
| `Barriers.NobodyLeavesEarly` | container/testbed/iperf2-source/src/Client.cpp:2332-2340 | Without timed or spurious wakeups nobody leaves before all n have arrived. |
| `Barriers.LeavesAlone` | container/testbed/iperf2-source/src/Client.cpp:2333-2337 | With the timed wait of a -t run a client can. |
| `Timestamps.Timestamp.AddUsec` | container/testbed/iperf2-source/include/Timestamp.hpp:250-255 | Keeps normal form and adds exactly to the total. |
| `Timestamps.Timestamp.Add` | container/testbed/iperf2-source/include/Timestamp.hpp:190-205 | One carry or borrow keeps normal form and adds the totals, for less than a second either way. |
| `Timestamps.Timestamp.SubUsec` | container/testbed/iperf2-source/include/Timestamp.hpp:155-158 | Is the difference of the totals. |
| `Timestamps.Timestamp.Before` | container/testbed/iperf2-source/include/Timestamp.hpp:260-265 | Is the order of the totals. |
| `Timestamps.Timestamp.After` | container/testbed/iperf2-source/include/Timestamp.hpp:270-275 | Is its converse, and the order is total. |
| `PeriodicConnect.ConnectPeriodic` | container/testbed/iperf2-source/src/Client.cpp:501-543 | The loop over the clock readings yields the specified list of times, end, interval and number of tries included. |
| `PeriodicConnect.EndsAfterSeconds` | container/testbed/iperf2-source/src/Client.cpp:504-508 | A test of s seconds ends s seconds on, up to 4294 of them. |
| `PeriodicConnect.TestTimeIff` | container/testbed/iperf2-source/src/Client.cpp:504-507 | The time is 10000 microseconds for each unit if and only if that fits an unsigned int. |
| `PeriodicConnect.WrapsAround` | container/testbed/iperf2-source/src/Client.cpp:504-507 | A test of 4295 seconds ends after 32704 microseconds. |
| `PeriodicConnect.ReadsTheClock` | container/testbed/iperf2-source/src/Client.cpp:537-538 | Without an interval each round of a timed test takes the time it reads. |
| `PeriodicConnect.CatchUp` | container/testbed/iperf2-source/src/Client.cpp:528-530 | The do-while loop computes the caught-up time. |
| `PeriodicConnect.CaughtUp` | container/testbed/iperf2-source/src/Client.cpp:528-530 | That time is on the grid, not before the clock, and one interval earlier would be too early. |
| `PeriodicConnect.CaughtUpIsLeast` | container/testbed/iperf2-source/src/Client.cpp:526-530 | The catch-up loop ends at the least later grid point that is not before the clock. |
| `PeriodicConnect.StaysOnGrid` | container/testbed/iperf2-source/src/Client.cpp:524-542 | In every run with a positive interval `next` stays whole intervals after the start, strictly increases, is never in the past and skips no future point. |
| `PeriodicConnect.ConnectsBounded` | container/testbed/iperf2-source/src/Client.cpp:518-542 | So the number of connects is at most one per interval of the test time, and one. |
| `PeriodicConnect.CountIsNotHonoured` | container/testbed/iperf2-source/src/Client.cpp:510-542 | In every setting and every run the loop makes the same connects whatever connectonly_count is. |
| `PeriodicConnect.ConnectsIff` | container/testbed/iperf2-source/src/Client.cpp:519-542 | Exactly when a run makes n connects: the test time or a signal ends it after round n and not before, or no more rounds are given. |
| `PeriodicConnect.CountHonouredIff` | container/testbed/iperf2-source/man/iperf.1:239-240 | So as many as asked for are made if and only if the clock or a signal ends the loop there. |
| `PeriodicConnect.UntimedConnectsOnce` | container/testbed/iperf2-source/src/Client.cpp:502-508 | Without a test time one connect is made. |
| `PeriodicConnect.TwoBecomeFour` | container/testbed/iperf2-source/src/Client.cpp:537-541 | With one, and no interval, the default: two connects asked for, four made. |
| `UdpPacing.UdpSender.RunUDP` | container/testbed/iperf2-source/src/Client.cpp:1326-1453 | The send loop, over any clock readings and write results, runs as the pacing function says. |
| `UdpPacing.UdpSender.RunDelay` | container/testbed/iperf2-source/src/Client.cpp:1367-1400 | One adjustment of the running delay, with its clamp. |
| `UdpPacing.UdpSender.OnePass` | container/testbed/iperf2-source/src/Client.cpp:1343-1451 | One pass of the loop: adjustment, write, id and sleep. |
| `UdpPacing.DelayTelescopes` | container/testbed/iperf2-source/src/Client.cpp:1381-1399 | In every run delay = target × credited sends − elapsed, plus what clamps have forgiven (nothing without a clamp), never below delay_lower_bounds and never 100 µs above the target; the credited sends are the sends, and one more after a failed write. |
| `UdpPacing.RateBound` | container/testbed/iperf2-source/src/Client.cpp:1343-1451 | target × the sends before any pass ≤ elapsed + 100000 ns, across clamps. |
| `UdpPacing.PassLaw` | container/testbed/iperf2-source/src/Client.cpp:1381-1441 | What each pass of a run does to the delay, with the clamp exactly when it would be below delay_lower_bounds and then exactly to the target; what counts as a send; what ends the loop. |
| `UdpPacing.SleepLaw` | container/testbed/iperf2-source/src/Client.cpp:1443-1449 | How long a pass sleeps: the whole microseconds of a delay of at least 100 µs after a success, and otherwise not at all. |
| `UdpPacing.NeverClampedIff` | container/testbed/iperf2-source/src/Client.cpp:1396-1399 | The delay is never clamped if and only if at every pass target × (sends + 1) ≥ elapsed + delay_lower_bounds. |
| `UdpPacing.KeepsUp` | container/testbed/iperf2-source/src/Client.cpp:1395-1399 | A sender that is on time at every pass is never reset: its delay is target × credited sends − elapsed, exactly, so it has kept up to within delay_lower_bounds. |
| `UdpPacing.TargetTimesRate` | container/testbed/iperf2-source/src/Client.cpp:1316-1318 | The delay target times the bit rate is the bits of a datagram. |
| `UdpPacing.BitRateBound` | container/testbed/iperf2-source/src/Client.cpp:1308-1324 | With a bit rate, the bits sent before any pass are at most rate × (elapsed + 100 µs). |
| `UdpPacing.PacketRateBound` | container/testbed/iperf2-source/src/Client.cpp:1319-1321 | The same for a rate in packets. |
| `UdpPacing.GapBound` | container/testbed/iperf2-source/src/Client.cpp:1310-1311 | The same for an inter-packet gap in milliseconds. |
| `UdpPacing.SendTimer` | container/testbed/iperf2-source/src/Client.cpp:564-570 | The send timer is what was computed, between a millisecond and a second, and one of the two outside. |
| `UdpPacing.LowerBoundPaces` | container/testbed/iperf2-source/src/Client.cpp:564-575 | So delay_lower_bounds is negative, at least minus one second, and the theorems above apply. |
| `UdpPacing.IdsConsecutive` | container/testbed/iperf2-source/src/Client.cpp:1366-1441 | The data ids of a run of RunUDP have no gap and no repeat. |
| `UdpPacing.SendStream` | container/testbed/iperf2-source/src/Client.cpp:2015-2082 | RunUDP and FinishTrafficActions put on the wire n consecutive data ids and then the FIN ids that continue them, negated. |
| `UdpSequence.LongIdsExact` | container/testbed/iperf2-source/src/Client.cpp:1880-1900 | Every signed 64-bit id is recovered from the two unsigned words in network order. |
| `UdpSequence.NetworkOrder` | container/testbed/iperf2-source/src/Client.cpp:1890-1891 | A word in network order is read back, and its four parts are bytes. |
| `UdpSequence.BigEndian` | container/testbed/iperf2-source/src/Client.cpp:1890-1891 | The first byte on the wire is the most significant. |
| `UdpSequence.ShortIdsExactIff` | container/testbed/iperf2-source/src/Server.cpp:878-881 | A legacy server recovers an id if and only if it fits a signed 32-bit number. |
| `UdpSequence.FinSender.AwaitServerFinPacket` | container/testbed/iperf2-source/src/Client.cpp:2092-2155 | One more negative id for each silence before the server report, at most 200, and success exactly if the report comes in 200 waits. |
| `UdpSequence.RetriesAre` | container/testbed/iperf2-source/src/Client.cpp:2108-2112 | Exactly the silences retransmit, and only until the server report. |
| `UdpSequence.TwoHundred` | container/testbed/iperf2-source/src/Client.cpp:2090-2099 | Never more than 200 times, and 200 times when nothing is heard. |
| `UdpSequence.FinSender.Finish` | container/testbed/iperf2-source/src/Client.cpp:2036-2082 | The first FIN carries the next id negated, the retransmissions the ids after it. |
| `UdpSequence.ServerCounts` | container/testbed/iperf2-source/src/Server.cpp:847-892 | The server reads one unbroken count off data and FINs, and the end mark off the FINs and nothing else. |
| `UdpSequence.NeverRepeats` | container/testbed/iperf2-source/src/Client.cpp:2006-2013 | No two datagrams of a stream share an id or its negation; data ids rise, FIN ids fall. |
| `UdpSequence.UdpAccept` | container/testbed/iperf2-source/src/Listener.cpp:676-730 | The drain loop and its retry: how many datagrams are drained, how many dropped as duplicates, and which is accepted. |
| `UdpSequence.AcceptsData` | container/testbed/iperf2-source/src/Listener.cpp:706-721 | Left-over FINs are passed over and a new sender is accepted on its first data. |
| `UdpSequence.AcceptsFinIff` | container/testbed/iperf2-source/src/Listener.cpp:694-730 | Exactly when a left-over FIN is accepted: after a duplicate the drain is not resumed. |
| `UdpSequence.StaleAfterDuplicate` | container/testbed/iperf2-source/src/Listener.cpp:727-730 | Such a queue. |
| `UdpSequence.LegacyDrainsIff` | container/testbed/iperf2-source/src/Listener.cpp:714-718 | Which FIN ids a legacy listener drains. |
| `UdpFraming.IsochSender.SendFrame` | container/testbed/iperf2-source/src/Client.cpp:1479-1597 | The inner loop of RunUDPIsochronous, over any write results. |
| `UdpFraming.FrameLaw` | container/testbed/iperf2-source/src/Client.cpp:1546-1571 | A frame of b ≥ min bytes is exactly ceil(b / mBufLen) packets, each in [min, mBufLen], of b to b + min − 1 bytes in all; exactly the last is as large as what its header says remains. |
| `UdpFraming.CeilIs` | container/testbed/iperf2-source/src/Client.cpp:1546 | That number of packets is the least number of buffers that hold the frame. |
| `UdpFraming.IsochSender.OnePass` | container/testbed/iperf2-source/src/Client.cpp:1546-1588 | One pass: the size of the packet, transit_ready, the raised last packet, the id. |
| `UdpFraming.SendsTheFrame` | container/testbed/iperf2-source/src/Client.cpp:1497-1597 | Whatever the writes do, what has been sent and the frame of what is left make up the frame. |
| `UdpFraming.FrameSent` | container/testbed/iperf2-source/src/Client.cpp:1497-1597 | After ceil(b / mBufLen) full writes, however many failed in between, the frame has been sent whole. |
| `UdpFraming.EndsAfter` | container/testbed/iperf2-source/src/Client.cpp:1497-1572 | The inner loop ends if and only if there have been as many full writes as the frame has packets. |
| `UdpFraming.NeverEnds` | container/testbed/iperf2-source/src/Client.cpp:1566-1571 | With a minimum above mBufLen, the case the other laws exclude, the frame never ends: what is left is raised to the minimum for ever. |
| `UdpFraming.ReadyIff` | container/testbed/iperf2-source/src/Client.cpp:1548-1586 | Exactly when transit_ready is reported: with the last packet, and, left over from the frame before, with the errors that precede the first write of a frame. |
| `UdpFraming.StaleReady` | container/testbed/iperf2-source/src/Client.cpp:1548-1560 | Such a frame: reported ready with nothing sent. |
| `UdpFraming.FatalIff` | container/testbed/iperf2-source/src/Client.cpp:1551-1554 | The flag that ends the outer loop is raised by a fatal error among the passes made, and only then. |
| `UdpFraming.FrameIds` | container/testbed/iperf2-source/src/Client.cpp:1548-1588 | The ids of a frame rise by one, and by one more for each write of nothing; an error gives its id back. |
| `UdpFraming.BurstSender.SendBurst` | container/testbed/iperf2-source/src/Client.cpp:1611-1674 | The inner loop of RunUDPBurst, over any write results. |
| `UdpFraming.BurstLaw` | container/testbed/iperf2-source/src/Client.cpp:1613-1674 | A burst is cut as a frame is; it is over exactly when all is sent or a fatal error has come. |
| `UdpFraming.BurstIds` | container/testbed/iperf2-source/src/Client.cpp:1618-1673 | The ids of bursts have no gap and no repeat. |
| `UdpFraming.BurstSender.RunUDPBurst` | container/testbed/iperf2-source/src/Client.cpp:1610-1675 | The outer loop, over the writes of any bursts. |
| `UdpFraming.BurstsWhole` | container/testbed/iperf2-source/src/Client.cpp:1610-1675 | When none is cut short, n bursts are n times the packets of a frame of the burst size. |
| `UdpFraming.BurstsIds` | container/testbed/iperf2-source/src/Client.cpp:1610-1675 | So it is over all bursts of a run, fatal errors included. |
| `UdpFraming.SendBurstStream` | container/testbed/iperf2-source/src/Client.cpp:2015-2082 | RunUDPBurst and FinishTrafficActions put on the wire n consecutive data ids and then the FIN ids that continue them, negated. |
| `TcpBursts.TcpSender.RunTCP` | container/testbed/iperf2-source/src/Client.cpp:663-812 | The burst loop of RunTCP, over any write results, with its end when AwaitSelectWrite finds the test over. |
| `TcpBursts.TcpSender.WriteHeader` | container/testbed/iperf2-source/src/Client.cpp:684-737 | The beginning of a burst: its size, the waits that may find the test over, the header and the first write. |
| `TcpBursts.TcpSender.WriteOn` | container/testbed/iperf2-source/src/Client.cpp:738-776 | A further write of a burst, with its errors. |
| `TcpBursts.TcpSender.Account` | container/testbed/iperf2-source/src/Client.cpp:777-790 | What a successful write takes off the burst and when transit_ready is raised. |
| `TcpBursts.BurstAccounting` | container/testbed/iperf2-source/src/Client.cpp:684-790 | In every run, under any partial writes: burst_remaining ≥ 0; a completed burst has written exactly its size; its header says the starting id plus all burst sizes so far; transit_ready is reported once for each completed burst and not otherwise; all bytes are accounted for. |
| `TcpBursts.HeaderFirst` | container/testbed/iperf2-source/src/Client.cpp:717-733 | The burst under way has its header too; only the last burst of a run, one that AwaitSelectWrite has ended, can be without, and then nothing of it was written. |
| `TcpBursts.BurstDrawn` | container/testbed/iperf2-source/src/Client.cpp:684-696 | A burst has the size drawn, or that of the header if it is larger. |
| `TcpBursts.PassWrites` | container/testbed/iperf2-source/src/Client.cpp:727-748 | A pass writes as much as the socket takes, and no more than a buffer or than the burst has left. |
| `TcpBursts.LeavesIff` | container/testbed/iperf2-source/src/Client.cpp:717-776 | Exactly when the loop leaves by itself. |
| `TcpBursts.StepLawful` | container/testbed/iperf2-source/src/Client.cpp:684-790 | Every pass keeps these laws. |
| `TokenBucket.RateLimitedSender.RunRateLimitedTCP` | container/testbed/iperf2-source/src/Client.cpp:914-1047 | The token-bucket loop, over any clock readings and write results, with its end when AwaitSelectWrite finds the test over. |
| `TokenBucket.RateLimitedSender.Header` | container/testbed/iperf2-source/src/Client.cpp:951-988 | The burst header of a pass, which must not fail and may. |
| `TokenBucket.RateLimitedSender.Rest` | container/testbed/iperf2-source/src/Client.cpp:993-1021 | The write of a pass, and what is charged. |
| `TokenBucket.TokensBalance` | container/testbed/iperf2-source/src/Client.cpp:923-1021 | tokens = rate/8 × elapsed − bytes charged, never below one quantum of debt; in numbers, without the functions of the model. |
| `TokenBucket.WireBound` | container/testbed/iperf2-source/src/Client.cpp:939-1021 | Without bursts the bytes written are at most rate/8 × elapsed + mBufLen. |
| `TokenBucket.BurstWireBound` | container/testbed/iperf2-source/src/Client.cpp:951-1021 | With bursts they are at most rate/8 × elapsed + two quanta, although a header write can go uncharged. |
| `TokenBucket.WritesIff` | container/testbed/iperf2-source/src/Client.cpp:939-1021 | The bucket opens exactly when it should: without bursts a pass writes what the socket takes of a buffer if rate/8 × elapsed ≥ bytes charged, and else nothing. |
| `TokenBucket.BurstWrites` | container/testbed/iperf2-source/src/Client.cpp:940-1021 | The same with bursts, header and rest. |
| `TokenBucket.ChargedIff` | container/testbed/iperf2-source/src/Client.cpp:987-1021 | Exactly which passes lose a charge. |
| `TokenBucket.HeaderUncharged` | container/testbed/iperf2-source/src/Client.cpp:1006-1018 | A pass in which 70 bytes go out uncharged. |
| `TokenBucket.NoMoreHeaders` | container/testbed/iperf2-source/src/Client.cpp:951-991 | Once write_remaining is positive no burst header is written again, and every byte is charged. |

## Left out

- Floating point: `double` is `real`, so rounding of delays, tokens and the filter is not modelled.
- Integer width: counters, ids in memory and byte totals are unbounded, except `amount_usec`, the words on the wire and their signed readings, and the text codec's bytes and words.
- C strings are sequences without NUL; shifts and masks of the codec are multiplication, division and remainder.
- The dispatchers `inet_pton` and `inet_ntop`, `errno`, and all Windows branches.
- Threads: `runNext` chains in the claims on `thread_joinall`; what `pthread_cancel` does to a stopped thread; creation and destruction of settings objects.
- ListenerGate: a thread has one name for ever, so what other threads start is never named like a thread of this listener's last chain; the end of the listener's loop by `mCount`, the timer or a signal.
- Barriers: the full-duplex barrier is a state machine over its critical sections, not one method with a wait in it; the one-second waits are not timed, any wakeup may come at any time.
- Timestamps.Timestamp.Add: is stated for a right side of less than a second either way, because one carry is not enough for more.
- Delays.DelayKalman: is stated for an adjusted time above -1 ns, because the conversion of a lower one is undefined in C.
- UdpPacing: a varying load, amount mode, and the delay after a first payload sent before the loop, which only moves the start.
- UdpFraming: amount mode, the pacing within a frame, and frame counters.
- TcpBursts: the loop without bursts, amount mode and write times. Here and in TokenBucket a false answer of AwaitSelectWrite ends the loop, because it comes only when InProgress is false and the loop asks InProgress next; a reporter that clears `sInterupted` between the two questions (`src/Reporter.c:324`) is not modelled.
- TokenBucket: a varying load, and the amount that only feeds the loop test (the loop writes mBufLen in amount mode too).
- PeriodicConnect: the wrap-around of `num_connects` after 2^31 rounds, and what the connects do.
- Reports, histograms, active-host tables, sockets, option parsing, the L4S sender, bounce-back tests, and the Go program around the tool.
