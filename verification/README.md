# tunnelkit: a verified model of the tunnel server and its monitor

tunnelkit is a reverse SSH tunnel. Clients connect to a public server, ask it to listen on ports, and a
monitor shows who is connected, since when and how much traffic went through. This project models the
parts of `core/internal` in which state is shared, summarised or forgotten, and proves what they keep:

| component | modules |
|---|---|
| sessions, evictions and forwarded ports | `SessionProtocol`, `SessionSafety`, `SessionPorts`, `SessionTheorems`, `SessionSteps`, `SessionListing`, `TunnelServer` |
| keepalive | `Keepalive` |
| ports a key may bind | `PermittedPorts` |
| byte accounting of forwarded connections | `Pipes`, `TunnelServer.Pipe` |
| availability log, its two readers and its pruner | `Availability`, `Panel`, `Retention`, `PruningLimits` |
| traffic store, registry and sampler | `Traffic`, `Days`, `Monitor`, `UptimeRuns` |
| UDP heartbeat | `Packets`, `HeartbeatClient`, `HeartbeatServer` |
| failed attempts, probe gate | `Attempts`, `ProbeGate` |
| shared by them | `Options`, `Sequences` |

## How it is modelled

- **Concurrency.** Code between two lock, channel or select boundaries is one atomic step. A protocol is a
  function `Next` on states with an `Enabled` predicate, and a theorem quantifies over every run, that is,
  every sequence of enabled events from the start. In `SessionProtocol` every session has a program
  counter; links that go down, other processes that take and free ports, and timers that expire are
  events like any other, so nothing is assumed about when they happen.
- **Objects** that the source updates in place are classes. Their methods are proved against functions of
  the old state; the same functions make up the steps of the transition systems and the subject of the
  lemmas, so that a class and a protocol cannot drift apart.
- **What the functions mean** is proved beside their use, by counting, by position or field by field, with
  the source's numbers written out (`PctIsShare`, `DecodesTo`, `CreditedFields`, `DiagnosisMeans` and others),
  so that an operation and its specification cannot be wrong together.
- **Time, the network and the disk** are parameters. Clocks do not go backwards (`Clocked`, `Sorted`,
  `Valid`). `Keepalive` and the `prompt` runs of `HeartbeatServer` schedule without delay, since bounds
  on real time need that; every other theorem holds for any delay.
- **Numbers.** Byte counters wrap at 2^64, `seq` at 2^32 and ports at 2^32 where the source's types do.
  Floating-point results are exact rationals; positions on the panel's bar are fractions.
- **Map iteration** is a loop that picks any remaining key, so no result depends on the order.

## What the code does not do

These are properties a reader might expect that fail. For each there is a theorem that says exactly when the
property holds and, where the inputs on which it fails cannot be read off that, a run that shows one.

- Two sessions of one name can hold listeners at once. When a wait expires and the new session binds a port,
  that is so exactly if another session of the name still holds a listener
  (`SessionTheorems.TimeoutLetsTwoHoldExactly`; a run: `TimeoutLetsTwoHold`). Without an expired wait it is
  never so (`OneHolderPerName`).
- `Client.ports` in the registry only grows: a cancelled port stays listed
  (`SessionListing.CancelledStaysListed`), and one that is forwarded again is listed twice
  (`ForwardedAgainIsListedTwice`). Between requests the list has the bound ports, each once, exactly if no
  port was ever cancelled after a completed forward of it (`ListedPorts`).
- Keepalive does not tolerate a client that answers exactly at `KeepaliveTimeout`, where the answer races
  with the timer (`Keepalive.AnswerAtTheTimeoutIsARace`). It tolerates exactly the latencies below it
  (`ToleratesExactly`).
- The sessions of a name can be ahead of the store, between the two counters of a write
  (`Pipes.SessionsCanExceedStore`). They are exactly if more of their bytes are between the counters than
  pipes without a session have stored (`SessionsExceedStore`).
- A client without a name counts bytes in its session and none in the store (`Pipes.NamelessCanCount`); the
  two differ exactly if one of its pipes counted anything (`NamelessIsNotStored`).
- A check between the two critical sections of a client's first `note` reports it lost the moment it arrives
  (`HeartbeatServer.FirstBeatCanBeFlagged`). `FlaggedExactly` says when a check flags a client, and
  `FlagIsTrueExactly` when it is right to.
- `Diagnose` says "connected again" after nothing but a port check (`Attempts.PortCheckLooksConnected`);
  `ConnectedAgainBacked` says exactly when the message is true.
- The probe gate forgets too much if its minimum distance is large (`ProbeGate.Overflow`). It refines one
  that never forgets, and spaces the accepted probes of a key, exactly if that distance is at most one
  nanosecond over a minute (`RefinesExactly`, `SpacesExactly`).
- When the first event of a log is in the future, the segments of the panel's bar run backwards; they tile
  the bar exactly when it is not (`Panel.UpCompute`).
- The cap of 8000 events changes answers about the last 31 days (`PruningLimits.CapChangesAnswer`). A pruned
  log and an unpruned one agree on all of them exactly if nothing was dropped or the first kept event is at
  least 31 days old, for logs without two events in one second (`AgreesByFirstKept`); `AgreesExactly` is the
  condition for all logs.
- Of two samples taken in the same second the log gives the later one
  (`Monitor.TwoSamplesInASecond`). A sample is read back exactly if the last one of its second is equal to it
  (`SampleReadsBack`).
- Pruning changes a day's total exactly if the day has traffic and at least 60 stored days are greater
  (`Days.PruningKeepsToday`).

## Model

| member | source | states |
|---|---|---|
| SessionTheorems.Invariants | core/internal/tunnelserver/server.go:254-282 | after every run of connects, evictions, timeouts, forwards, cancels, ends and other processes, the eviction-chain invariant and the port-ownership invariant hold |
| SessionTheorems.RegisterReturnsClean | core/internal/tunnelserver/server.go:474-493 | when register has returned, every session registered earlier under the name has closed done and holds no listener, unless a wait registered in between timed out |
| SessionTheorems.OneHolderPerName | core/internal/tunnelserver/server.go:460-493 | if no wait for a name timed out, at most one session of that name holds listeners, in every reachable state |
| SessionTheorems.EntryIsLatest | core/internal/tunnelserver/server.go:474-504 | byName holds the latest registration of a name; it is removed only when that one has closed done, so an old session's unregister never removes a newer entry |
| SessionTheorems.PortsMatchForwards | core/internal/tunnelserver/server.go:330-371 | a port is bound to listener ln of session i exactly when i holds ln there: bound ports and forward tables are in bijection, every held port is permitted, has one owner, and is in the registry's list between requests |
| SessionTheorems.ForwardAnswers | core/internal/tunnelserver/server.go:330-360 | a forward request is answered false exactly when it bound nothing, and then changes nothing; answered true it has stored a listener that is bound to the port |
| SessionTheorems.ReclaimSucceeds | core/internal/tunnelserver/server.go:254-256 | with no timed-out wait, forwarding a permitted port fails exactly when the session itself, another process or a session of another name has it |
| SessionTheorems.HolderExcludes | core/internal/tunnelserver/server.go:474-493 | a session that holds a listener and a session in its request loop are not two of one name |
| SessionTheorems.DoneIsForever | core/internal/tunnelserver/server.go:281-282 | once done is closed the session owns nothing, in every continuation of the run |
| SessionTheorems.Finish | core/internal/tunnelserver/server.go:269-282 | from any state of the invariant a registered session whose connection is closed can close done by its own steps and those of its predecessors, with no timer and no outside event |
| SessionTheorems.WaitCanEnd | core/internal/tunnelserver/server.go:486-489 | evictions never deadlock: from every reachable state in which a session waits, some steps without any timer end the wait through old.done |
| SessionTheorems.TimeoutLetsTwoHold | core/internal/tunnelserver/server.go:487-492 | for every name and two ports there is a run with one timeout after which two sessions of the name hold one port each |
| SessionTheorems.TimeoutLetsTwoHoldExactly | core/internal/tunnelserver/server.go:487-492 | from every reachable state in which a session waits and could bind a port: after its wait expires and it binds the port, two sessions of the name hold listeners exactly when another one held some before |
| SessionSteps.LinkDownFrees | core/internal/tunnelserver/server.go:269-302 | from every reachable state and for every session, named or not and at whatever point: after its connection goes down it can, by its own steps and those of sessions it waits for and without a timer, get to where done is closed, it has no listener and no port is bound for it |
| SessionSteps.WhoCloses | core/internal/tunnelserver/server.go:285-302 | a step closes a connection exactly if it is that link going down or the eviction of that session |
| SessionSteps.EndedIsClosed | core/internal/tunnelserver/server.go:269-281 | in every reachable state, a session past its request loop has a closed connection |
| SessionSteps.PortGained | core/internal/tunnelserver/server.go:330-353 | a port becomes bound exactly when another process binds it or a session permitted to asks for it, in 1..65535 and free; its holder is the one who did |
| SessionSteps.PortLost | core/internal/tunnelserver/server.go:434-458 | in every reachable state, a bound port is freed exactly when its foreign holder frees it or its owning session cancels it or closes all, and otherwise keeps its holder |
| SessionListing.ListedPorts | core/internal/tunnelserver/server.go:351-359 | in every reachable state between requests, a port is listed as often as the session completed a forward of it, and bound exactly if its latest completed operation on it was a forward; so the list has the bound ports, each once, exactly if no port was ever cancelled after a completed forward of it, and has no other ports exactly if every such port was forwarded again |
| SessionListing.ListRecords | core/internal/tunnelserver/server.go:351-359 | in every reachable state the list has every port once for each completed forward, until closeAll the table is that of the latest operations, and a port never cancelled was forwarded at most once |
| SessionListing.CancelledStaysListed | core/internal/tunnelserver/server.go:434-449 | for every name and port there is a run after which the port is free and still listed |
| SessionListing.ForwardedAgainIsListedTwice | core/internal/monitor/monitor.go:138-147 | for every name and port there is a run that forwards, cancels and forwards it again, after which it is bound once and listed twice |
| SessionSafety.EvictionKept | core/internal/tunnelserver/server.go:474-504 | every step keeps: tickets order registrations, map entries are the latest, returned registrations have finished predecessors or a timeout, and a waiting session waits for its immediate predecessor, whose connection is closed |
| SessionSafety.ReturnOne | core/internal/tunnelserver/server.go:488-492 | the induction step along a chain of evictions: what the awaited predecessor had waited for is finished or cut by a timeout |
| SessionSafety.EnterOrder | core/internal/tunnelserver/server.go:478-481 | the critical section of register puts the session after all earlier ones of its name and makes it the entry |
| SessionSafety.UnregisterChain | core/internal/tunnelserver/server.go:495-504 | unregister keeps the chain although the name may be left without an entry |
| SessionPorts.PortsKept | core/internal/tunnelserver/server.go:330-458 | every step keeps bound ports, listeners and forward tables in agreement, with unique listener ids and permitted ports only |
| SessionPorts.CancelKept | core/internal/tunnelserver/server.go:434-449 | a cancel frees exactly the cancelled port, if the session had it, and keeps ownership |
| SessionPorts.CloseAllKept | core/internal/tunnelserver/server.go:451-458 | closeAll frees exactly the session's ports and keeps ownership |
| TunnelServer.Session.StartForward | core/internal/tunnelserver/server.go:330-360 | answers true exactly for a well-formed request of a permitted port that can be bound; then port, table and registry gain it, otherwise nothing changes; ownership is kept |
| TunnelServer.Session.CancelForward | core/internal/tunnelserver/server.go:434-449 | always answers true; closes and forgets the listener of that port only, with the effect of the protocol's step |
| TunnelServer.Session.CloseAll | core/internal/tunnelserver/server.go:451-458 | whatever the order, closes every listener of the table and empties it, with the effect of the protocol's step |
| TunnelServer.Session.ServeRequests | core/internal/tunnelserver/server.go:269-281 | for every sequence of requests: a forward of p is answered true exactly if p is permitted, in 1..65535, bound by no other owner, and no earlier such forward of p is uncancelled; a malformed forward false, a cancel true, any other request false; in the end the table of bound ports is what it was before |
| TunnelServer.Session.ServeOne | core/internal/tunnelserver/server.go:269-280 | one request keeps ownership and the ports of other owners; a granted forward adds its port, a cancel leaves its port neither held nor bound under this session, anything else changes no port |
| TunnelServer.HeldIsInForce | core/internal/tunnelserver/server.go:330-449 | a port is held after some requests exactly if one of them is a grantable forward of it that no later one cancels |
| TunnelServer.SessionManager.Register | core/internal/tunnelserver/server.go:474-486 | the session becomes the entry of its name; the previous other one, if any, is returned with its connection closed, and no other connection is closed; nameless sessions bypass the manager |
| TunnelServer.SessionManager.Unregister | core/internal/tunnelserver/server.go:495-504 | removes the entry only if it is this session's |
| TunnelServer.StartForwardIsThreeSteps | core/internal/tunnelserver/server.go:341-359 | an undisturbed forward through the protocol's steps has the effect that the method is proved to have |
| TunnelServer.Network.Listen | core/internal/tunnelserver/server.go:506-510 | binds a free port in 1..65535 to a new listener, and fails without effect otherwise |
| TunnelServer.Network.Close | core/internal/tunnelserver/server.go:442-455 | closing a listener frees whatever is bound to it and nothing else |
| TunnelServer.Pipe.constructor | core/internal/tunnelserver/server.go:387-398 | a connection counts as active for the session the registry found, if any, and for no other counter |
| TunnelServer.Pipe.AddRx | core/internal/tunnelserver/server.go:399-406 | n bytes towards the client raise the session's rx and, for a named client, the store's rx of that port and the day by n modulo 2^64, and no tx |
| TunnelServer.Pipe.AddTx | core/internal/tunnelserver/server.go:407-414 | n bytes from the client raise the session's tx and, for a named client, the store's tx of that port and the day by n modulo 2^64, and no rx |
| TunnelServer.Pipe.Close | core/internal/tunnelserver/server.go:395-398 | undoes the count of active connections and leaves the byte counters |
| Keepalive.RunOnTime | core/internal/tunnelserver/server.go:288-326 | in every run no deadline lies in the past and the next tick is at most one interval away |
| Keepalive.NoTimelock | core/internal/tunnelserver/server.go:291-325 | after every run a step is due or time can pass, so the bounds are not met by freezing the clock |
| Keepalive.EndsExactly | core/internal/tunnelserver/server.go:291-325 | keepalive has closed the connection exactly if a probe failed or expired, and has ended otherwise exactly if the session ended, both for good |
| Keepalive.AnsweringClientStays | core/internal/tunnelserver/server.go:304-326 | a client that answers every probe within a latency below the timeout is never closed by keepalive, for every run and any tunables |
| Keepalive.ToleratesExactly | core/internal/tunnelserver/server.go:304-326 | for all tunables and every latency, no run with a client of that latency is closed by keepalive if and only if the latency is below the timeout |
| Keepalive.SilentClientIsClosed | core/internal/tunnelserver/server.go:285-326 | a client that answers nothing from time t on is closed (or its session ended) by t + interval + timeout, wherever the loop is |
| Keepalive.SilenceBoundIsTight | core/internal/tunnelserver/server.go:63-69 | with the default tunables the bound is reached |
| Keepalive.AnswerAtTheTimeoutIsARace | core/internal/tunnelserver/server.go:316-322 | for all tunables there is a run in which, exactly at the timeout, both the answer and the expiry can be taken |
| PermittedPorts.SplitJoin | core/internal/tunnelserver/server.go:581-606 | splitting the joined list gives the list back, for every non-empty list of comma-free strings |
| PermittedPorts.JoinSplit | core/internal/tunnelserver/server.go:606 | joining what was split gives the string back, and no field has a comma |
| PermittedPorts.TrimSpaceIs | core/internal/tunnelserver/server.go:607 | trimming takes spaces off both ends and leaves none there |
| PermittedPorts.DecimalConcat | core/internal/tunnelserver/server.go:607 | digits count by their position: the value of a string is that of its first part times a power of ten plus that of the rest |
| PermittedPorts.AtoiReads | core/internal/tunnelserver/server.go:576-607 | Atoi gives the value of digits after at most one sign exactly if it fits 64 bits |
| PermittedPorts.AtoiRefuses | core/internal/tunnelserver/server.go:576-607 | and nothing for any other string |
| PermittedPorts.TruncatedIs | core/internal/tunnelserver/server.go:608 | uint32(n) is in 0..2^32-1 and differs from n by a multiple of 2^32 |
| PermittedPorts.NumericIsPlain | core/internal/tunnelserver/server.go:576-577 | a value that Atoi accepts has no comma and no surrounding space |
| PermittedPorts.AcceptedPorts | core/internal/tunnelserver/server.go:604-612 | parsing the joined accepted values gives exactly their numbers truncated to uint32, and nothing for no values |
| PermittedPorts.CollectPorts | core/internal/tunnelserver/server.go:569-579 | collects exactly the numeric values, in order |
| PermittedPorts.AcceptedConcat | core/internal/tunnelserver/server.go:569-579 | each value is accepted or left out by itself, and the order stays |
| PermittedPorts.ParsePorts | core/internal/tunnelserver/server.go:604-612 | the set of the numeric fields, truncated to uint32 |
| PermittedPorts.RoundTrip | core/internal/tunnelserver/server.go:569-612 | for every list of permitlisten values, what a client may bind is exactly the set of its numeric values truncated to uint32 |
| Pipes.RunKeeps | core/internal/tunnelserver/server.go:373-432 | in every interleaving of any number of pipes, the session counters, active counts and stored bytes are the sums of what the pipes added |
| Pipes.OpenedInOrder | core/internal/tunnelserver/server.go:387-398 | in every run the pipes and sessions are those that were opened and joined, in order, with the name and the session found |
| Pipes.PipeIsHistory | core/internal/tunnelserver/server.go:379-385 | in every run a pipe's written bytes are those of its writes, direction by direction, and it runs until its close |
| Pipes.IdleHasCounted | core/internal/tunnelserver/server.go:379-385 | a pipe between writes has counted and stored exactly the bytes of its writes |
| Pipes.StagesBalance | core/internal/tunnelserver/server.go:379-385 | bytes counted in sessions plus those of pipes without a session are bytes stored plus writes between the two counters |
| Pipes.AccountsBalance | core/internal/tunnelserver/server.go:373-432 | in every run, the summed session counters of a name and the store's growth balance, direction by direction; active is the number of running pipes that found the session |
| Pipes.SessionsExceedStore | core/internal/tunnelserver/server.go:399-414 | in every reachable state, the sessions of a name counted more than the store gained exactly if more of their bytes are between the two counters than pipes without a session have stored |
| Pipes.SessionsNeverExceedStore | core/internal/tunnelserver/server.go:399-414 | so never when no write is between the two counters |
| Pipes.SessionsCanExceedStore | core/internal/tunnelserver/server.go:399-414 | for every name there is a run that ends between the two counters with the session ahead |
| Pipes.NamelessIsNotStored | core/internal/monitor/traffic.go:169-172 | in every reachable state the store has gained nothing for nameless clients, so their sessions are ahead of it exactly if one of their pipes counted anything |
| Pipes.NamelessCanCount | core/internal/monitor/traffic.go:169-172 | a whole write of a nameless client leaves nothing in flight and no bytes in the store |
| Availability.PctRange | core/internal/monitor/traffic.go:111-156 | the pointwise percentage is within 0..100, or -1 exactly when there are no events or the covered span is empty |
| Availability.StateAtIsUpAt | core/internal/monitor/traffic.go:126-133 | the state at a second is up exactly if the latest event at or before it says so |
| Availability.UpSecondsAreCounted | core/internal/monitor/traffic.go:134-150 | the up seconds are the number of seconds of the span with that state |
| Availability.PctIsShare | core/internal/monitor/traffic.go:113-156 | the percentage times the covered span is 100 times that number; -1 if there is no span |
| Availability.StateBetween | core/internal/monitor/traffic.go:126-133 | between two neighbouring events of a sorted log the state is that of the earlier one |
| Availability.Advance | core/internal/monitor/traffic.go:134-150 | one stretch without events adds its whole length or nothing to the up seconds |
| Availability.EnteringState | core/internal/monitor/traffic.go:126-133 | the first loop finds the state of the latest event at or before the window's start |
| Availability.UptimePct | core/internal/monitor/traffic.go:113-156 | the result times the length of the window, clipped to the first event, is 100 times the number of its seconds whose latest event says up; -1 if there is no such second |
| Panel.UpCompute | core/internal/monitor/page.go:148-158 | the panel's percentage is the server's pointwise one; its segments show the pointwise state, touch from 0 to 1, and tile the bar exactly when the first event is not in the future; the up length times the span is the up seconds |
| Panel.PushEvents | core/internal/monitor/page.go:153-156 | the loop keeps the bar drawn so far faithful and the up duration equal to the up length |
| Panel.Agree | core/internal/monitor/page.go:148-158 | the two integrators give the same answer for every sorted log, window and time |
| Retention.RecordedShape | core/internal/monitor/traffic.go:83-98 | recording a state now keeps the log sorted and alternating and makes the state the last one |
| Retention.RunLengthExact | core/internal/monitor/traffic.go:81-98 | the compact log says at every second what the uncompressed list of samples says |
| Retention.RecordAllShape | core/internal/monitor/traffic.go:81-98 | over any sorted samples the log stays sorted, not after the last sample, and strictly alternating |
| Retention.Prune | core/internal/monitor/traffic.go:253-270 | keeps the end of the log from the last event older than 31 days on, at most 8000 events |
| Retention.BelowMeans | core/internal/monitor/traffic.go:256-263 | the events counted as old are all older than the cut-off and the next one is not |
| Retention.DroppedToOld | core/internal/monitor/traffic.go:255-270 | after a drop the first kept event is older than the cut-off exactly if not more than 8000 events were left without the old ones |
| Retention.DroppedKeepsRecent | core/internal/monitor/traffic.go:253-270 | the kept log is the end of the whole one, at most 8000 events, of which only the first may be older than 31 days; if events were dropped below 8000 that first one is |
| Retention.SuffixPct | core/internal/monitor/traffic.go:122-133 | a log without its first k events answers as the whole one over the window clipped to its first event |
| Retention.ReplayPrunes | core/internal/monitor/traffic.go:253-270 | over any sequence of records and saves the pruned log is a suffix of the unpruned one, and if anything was dropped it starts with an event over 31 days old, unless a save met more than 8000 events after the old ones |
| Retention.PruningInvisible | core/internal/monitor/traffic.go:240-271 | for every log, every sequence of records and saves and every window of at most 31 days, uptimePct is the same with and without pruning, if no save met more than 8000 events after the old ones |
| Retention.PruningClips | core/internal/monitor/traffic.go:253-270 | in every case the answer is the unpruned one over the window clipped to the first kept event; sortedness, alternation and the last state survive |
| PruningLimits.AgreesExactly | core/internal/monitor/traffic.go:253-270 | after every run of records and saves: the pruned and the unpruned log agree on all windows of at most 31 days exactly if there is no data in those days, nothing of them was dropped, or their state never changed |
| PruningLimits.AgreesByFirstKept | core/internal/monitor/traffic.go:253-270 | for alternating logs without two events in one second: exactly if nothing was dropped or the first kept event is at least 31 days old |
| PruningLimits.CapChangesAnswer | core/internal/monitor/traffic.go:268-270 | a run of 8001 transitions and a save after which some query over at most 31 days is answered differently |
| Traffic.CreditBoth | core/internal/monitor/traffic.go:184-186 | one Add raises the sum over ports and the sum over days by tx + rx, modulo 2^64 |
| Traffic.CreditedFields | core/internal/monitor/traffic.go:184-186 | field by field: tx bytes go to that port's tx, rx bytes to its rx, both to the day, modulo 2^64; every other port and day, lastSeen and the log stay |
| Traffic.CongIs | core/internal/monitor/traffic.go:184-186 | agreement modulo 2^64 is equality of remainders |
| Traffic.BytesAreConserved | core/internal/monitor/traffic.go:169-189 | over any run of Add and saves, a client's growth over ports equals its growth over days plus the bytes of pruned days, and both equal what was handed to Add, modulo 2^64 |
| Traffic.TrafficStore.constructor | core/internal/monitor/traffic.go:46-61 | a well-formed file is loaded as it is, with missing last-seen times set to now |
| Traffic.TrafficStore.Touch | core/internal/monitor/traffic.go:64-79 | a named client is seen now, known or not, and the store is dirty; nothing else changes |
| Traffic.TrafficStore.RecordState | core/internal/monitor/traffic.go:81-98 | the client's log gains a transition exactly when the state changes, and only then is the store dirty because of it |
| Traffic.TrafficStore.UptimeOf | core/internal/monitor/traffic.go:111-156 | the pointwise percentage of that client's log, -1 for an unknown one |
| Traffic.TrafficStore.Add | core/internal/monitor/traffic.go:169-189 | for a named client, that port's tx grows by tx and its rx by rx, today's total by both, modulo 2^64; every other port, day and client, lastSeen and the log stay; the store is dirty |
| Traffic.TrafficStore.TodayTotal | core/internal/monitor/traffic.go:223-231 | the stored total of the day, 0 if there is none |
| Traffic.TrafficStore.Save | core/internal/monitor/traffic.go:233-274 | exactly when the store is dirty and has a path: every client's days and log are pruned and its ports and lastSeen kept, the result is written and the store is clean |
| Days.SortStrings | core/internal/monitor/traffic.go:244-248 | the keys in ascending order |
| Days.LeqByFirstDifference | core/internal/monitor/traffic.go:216-248 | a string comes before another exactly if it is a prefix of it or smaller at the first position where they differ |
| Days.AscendingRises | core/internal/monitor/traffic.go:248 | the sorted list rises strictly |
| Days.AscendingOfNewest | core/internal/monitor/traffic.go:248-251 | the n greatest keys are the last n of the sorted list |
| Days.NewestByRank | core/internal/monitor/traffic.go:248-251 | a key is kept exactly when fewer than n keys are greater |
| Days.PruneDays | core/internal/monitor/traffic.go:243-252 | a day is kept, with its bytes, exactly if fewer than 60 stored days come after it |
| Days.Breakdown | core/internal/monitor/traffic.go:213-219 | the rows are stored days with their bytes, strictly falling, min(30, stored) of them, and no day left out is newer than one shown |
| Days.PruningKeepsRows | core/internal/monitor/traffic.go:213-219 | for every map, the rows of the dialog are the same before and after pruning |
| Days.PruningKeepsToday | core/internal/monitor/traffic.go:223-231 | pruning changes a day's total exactly when the day has traffic and at least 60 stored days are greater; never for a day that is at least every stored one |
| Monitor.Registry.Add | core/internal/monitor/monitor.go:73-80 | the client is registered under the id and its IP remembered under its name, if it has both |
| Monitor.Registry.AddPort | core/internal/monitor/monitor.go:138-147 | the port is appended to the list of the client with that id, if there is one, and nothing else changes |
| Monitor.Registry.List | core/internal/monitor/monitor.go:149-158 | the list has exactly the registered clients, one per id, in the order of their names |
| Monitor.Registry.Connected | core/internal/monitor/monitor.go:90-91 | true exactly when some registered client has that name |
| Monitor.TouchAll | core/internal/monitor/monitor.go:430-436 | every connected named client is seen now and no other entry changes |
| Monitor.RecordStates | core/internal/monitor/monitor.go:442-449 | every known client's state is recorded, but for disconnections during the grace period |
| Monitor.TickedIs | core/internal/monitor/monitor.go:428-449 | a tick, field by field: connected named clients become known and are seen now; the log of a client that is connected, or not in the grace period, ends in its state by at most one event; ports, days and every other field stay |
| Monitor.Tick | core/internal/monitor/monitor.go:422-451 | one tick does that for the registry's names at that moment, with a grace period of 30 seconds from the start |
| Monitor.TicksRecordSamples | core/internal/monitor/monitor.go:422-451 | over any run of ticks a client's log is the recording of exactly the samples taken of it |
| Monitor.LogDecodesSamples | core/internal/monitor/monitor.go:437-449 | at every second the log gives the latest sample at or before it, and it strictly alternates, for any run of ticks at non-decreasing times |
| Monitor.SampleReadsBack | core/internal/monitor/monitor.go:437-449 | decoding the log at a sample's time gives the last sample of that second, and so gives the sample back exactly if that one is equal |
| Monitor.SecondsEnd | core/internal/monitor/monitor.go:437-449 | every sample has a last one of its second |
| Monitor.TwoSamplesInASecond | core/internal/monitor/monitor.go:437-449 | a client up and down in one second reads back as down |
| Monitor.LastStateIsRegistry | core/internal/monitor/monitor.go:443-449 | after every tick past the grace period the last state of every known client is the registry's answer |
| UptimeRuns.StoredPctIsSampledPct | core/internal/monitor/traffic.go:111-156 | end to end: for any ticks and saves in any order and any window of at most 31 days, uptimePct on the stored log is the percentage of the loaded log followed by every sample, if no save met more than 8000 events after the old ones |
| UptimeRuns.RecordedPct | core/internal/monitor/traffic.go:81-98 | compacting the samples changes no percentage, for any window and time |
| UptimeRuns.KeptIsStored | core/internal/monitor/traffic.go:253-270 | over any ticks and saves, what the store has of a client is the replay of the records and prunes that concern it |
| Packets.Encode | core/internal/heartbeat/packet.go:61-77 | filling the buffer field by field gives the packet, for exactly the valid names, and its last 16 bytes are the keyed hash of its other 50 |
| Packets.HeadFields | core/internal/heartbeat/packet.go:66-74 | every field stands at the offsets at which decode reads it |
| Packets.TrimPadded | core/internal/heartbeat/packet.go:86 | padding a name with zeros and trimming gives it back |
| Packets.ValidNameMeans | core/internal/heartbeat/packet.go:48-59 | a valid name has 1 to 32 bytes out of letters, digits and - _ . @ |
| Packets.ReadsWritten | core/internal/heartbeat/packet.go:72-73 | reading a written big-endian number gives it back |
| Packets.WritesRead | core/internal/heartbeat/packet.go:92-93 | writing a read big-endian number gives its bytes back |
| Packets.ReadsConcat | core/internal/heartbeat/packet.go:92-93 | a big-endian number is its high bytes, shifted, and its low bytes |
| Packets.DecodeEncode | core/internal/heartbeat/packet.go:61-96 | decoding an encoded packet gives it back, for every key, sequence number, timestamp and valid name |
| Packets.EncodeDecode | core/internal/heartbeat/packet.go:79-96 | every accepted byte string is the encoding of its result: the form is canonical |
| Packets.AcceptsExactly | core/internal/heartbeat/packet.go:79-89 | a byte string is accepted exactly if it has 66 bytes, "TKHB", version 1, type 1 or 2, the first 16 bytes of the keyed hash of its own first 50, and a valid name followed by zeros |
| Packets.DecodesTo | core/internal/heartbeat/packet.go:90-95 | byte by byte, the type, sequence number, signed timestamp and name that are read |
| Packets.EncodesTo | core/internal/heartbeat/packet.go:65-76 | the same for what is written, with its signature |
| Packets.Respond | core/internal/heartbeat/server.go:62-70 | exactly the accepted requests are noted and answered, by a reply of type 2 signed over its own head; everything else, replies included, is met with silence |
| Packets.ReplyEchoes | core/internal/heartbeat/packet.go:9-12 | a reply is as long as its request, differs only in type and signature, and decodes to the same sequence number, timestamp and name, as a reply |
| HeartbeatClient.RunClient | core/internal/heartbeat/client.go:102-159 | after any rounds of sends, late, duplicate, unknown or reordered replies and sweeps, before seq wraps: beats 1..seq are partitioned into pending, answered and lost as the rounds determine, each recorded once; the last report's loss is the share of losses among the last 30 outcomes, and it is ok unless the last three were losses |
| HeartbeatClient.RunRound | core/internal/heartbeat/client.go:102-158 | one round keeps the partition and leaves every pending beat but the newest younger than replyWait |
| HeartbeatClient.RoundDecides | core/internal/heartbeat/client.go:119-158 | in a round, a pending beat is answered if a reply to it arrives, however old it is; otherwise lost if it is 5 seconds old at the sweep and not the newest; otherwise still pending since the same time |
| HeartbeatClient.SendingAdds | core/internal/heartbeat/client.go:107-110 | the next number, wrapping at 2^32, becomes pending now, and no other beat moves |
| HeartbeatClient.Client.Send | core/internal/heartbeat/client.go:107-110 | the next beat becomes pending |
| HeartbeatClient.Client.Record | core/internal/heartbeat/client.go:86-91 | hist stays the last 30 outcomes |
| HeartbeatClient.Client.Loss | core/internal/heartbeat/client.go:92-100 | the share of losses in hist, in percent; it never divides by zero |
| HeartbeatClient.Client.Reply | core/internal/heartbeat/client.go:125-140 | a pending beat is answered, resets missed and is reported ok with its round trip; any other reply changes nothing |
| HeartbeatClient.Client.Sweep | core/internal/heartbeat/client.go:145-158 | exactly the pending beats that are 5 seconds old, but the newest, become lost, whatever the order of the map; the others stay as they were |
| HeartbeatClient.Client.Lose | core/internal/heartbeat/client.go:147-156 | one pending beat becomes lost, missed counts it, and the third in a row sets downFrom |
| HeartbeatClient.LossOf | core/internal/heartbeat/client.go:99 | the reported loss lies in 0..100 |
| HeartbeatClient.LossMeans | core/internal/heartbeat/client.go:92-99 | the loss times the number of outcomes is 100 times the number of lost ones among them |
| HeartbeatClient.SummaryIsTrue | core/internal/heartbeat/client.go:86-155 | a report made from the bounded state is true of the whole history |
| HeartbeatClient.CountLostBound | core/internal/heartbeat/client.go:92-98 | losses never exceed the outcomes, and are 0 exactly when all were answered |
| HeartbeatServer.Server.Insert | core/internal/heartbeat/server.go:84-92 | the first critical section of note makes an entry without a time for a new client only |
| HeartbeatServer.Server.Update | core/internal/heartbeat/server.go:93-96 | the entry has this beat's time and IP and is alive, no other entry changes, and resumed says whether it was flagged |
| HeartbeatServer.Server.Check | core/internal/heartbeat/server.go:112-119 | flags, each once, exactly the alive clients without a beat in the last 35 seconds; times and IPs stay |
| HeartbeatServer.NotedAreReceived | core/internal/heartbeat/server.go:81-95 | in every run the noted times are those of the beats received, in order, but for one whose note is in progress |
| HeartbeatServer.EntryIsLastBeat | core/internal/heartbeat/server.go:37-45 | in every run, what Last returns for a client is the time and the address of its last completed beat |
| HeartbeatServer.FlipsAlternate | core/internal/heartbeat/server.go:81-126 | in every interleaving of notes and checks a client's state flips strictly alternate, starting with lost |
| HeartbeatServer.LostMeansSilent | core/internal/heartbeat/server.go:112-118 | a client is flagged only if no completed note had a beat within the last LostAfter, or its first note is still in progress |
| HeartbeatServer.FlaggedExactly | core/internal/heartbeat/server.go:112-118 | a check adds a lost flip for an alive client exactly if no note of it completed yet or the latest one had a beat LostAfter old |
| HeartbeatServer.FlagIsTrueExactly | core/internal/heartbeat/server.go:112-118 | a flagged client's latest beat is LostAfter old exactly if some note completed or the beat in progress is that old itself; it was silent exactly if no newer beat is in progress |
| HeartbeatServer.SilentIsFlagged | core/internal/heartbeat/server.go:102-119 | under instantaneous scheduling a client silent since t is flagged by t + LostAfter + one tick |
| HeartbeatServer.FirstBeatCanBeFlagged | core/internal/heartbeat/server.go:86-95 | a check between the two critical sections of a first note flags the client |
| Attempts.Attempts.Record | core/internal/monitor/attempts.go:52-81 | the call is appended to the history, and per-IP records and ring stay what the history makes them |
| Attempts.Attempts.Recent | core/internal/monitor/attempts.go:83-92 | the newest min(n, 50) non-trivial failures of the whole history, newest first |
| Attempts.ListsFailure | core/internal/monitor/attempts.go:69-71 | every non-trivial failure is listed in its place with its time in seconds, IP, client, error and duration in milliseconds |
| Attempts.Attempts.Diagnose | core/internal/monitor/attempts.go:94-119 | the answer is determined by the history: nothing arrived, connected again, or the failures since the latest success with the latest error |
| Attempts.DiagnosisMeans | core/internal/monitor/attempts.go:97-119 | nothing arrived exactly if every call from the IP is at or before a known lastSeen; otherwise failing or connected again as some failure followed the last success or none did, with their number, the latest error and the time since the latest call |
| Attempts.StatStep | core/internal/monitor/attempts.go:56-80 | a call changes the record of its own IP only, as its outcome says |
| Attempts.SummaryStep | core/internal/monitor/attempts.go:52-81 | the bounded state stays a summary of the unbounded history after one more call |
| Attempts.Note | core/internal/monitor/attempts.go:61-80 | the record of the IP changes as the outcome says; a failure is logged exactly if forced, first, or five minutes after the last log, and then returns the suppressed count |
| Attempts.FailuresAreAccounted | core/internal/monitor/attempts.go:75-80 | per IP, failures are the logged ones plus all returned suppressed counts plus those still suppressed |
| Attempts.LogsAreSpaced | core/internal/monitor/attempts.go:75-78 | an unforced log comes at least five minutes after every earlier log of that IP |
| Attempts.LogsExactly | core/internal/monitor/attempts.go:75-80 | a call is logged exactly if it is a non-trivial failure that is forced or five minutes after every earlier log of its IP; it returns the number of failures since the latest of those |
| Attempts.ConnectedAgainBacked | core/internal/monitor/attempts.go:109-115 | "connected again" is backed by a success after lastSeen exactly when the latest record that is not a trivial failure came after lastSeen |
| Attempts.ConnectedAgainHolds | core/internal/monitor/attempts.go:109-115 | so it is when the IP's latest record is not a trivial failure |
| Attempts.PortCheckLooksConnected | core/internal/monitor/attempts.go:66-68 | after a single port check Diagnose says that the client connected again |
| ProbeGate.Gate.Allow | core/internal/monitor/probe.go:151-168 | accepts exactly if the key has no entry younger than the minimum; then records it, leaves at most 1024 entries unless all are of the last minute, and forgets only older ones |
| ProbeGate.KeptIsEnough | core/internal/monitor/probe.go:160-166 | for any probes at non-decreasing times the bounded gate's entries are those of the unbounded one, but for some over a minute old |
| ProbeGate.RefinesExactly | core/internal/monitor/probe.go:139-168 | forgetting never changes an answer if and only if the minimum is at most a minute and a nanosecond |
| ProbeGate.Overflow | core/internal/monitor/probe.go:160-166 | for every larger minimum, 1025 keys and a late probe that the bounded gate accepts and the unbounded one does not |
| ProbeGate.AcceptedAreSpaced | core/internal/monitor/probe.go:151-159 | two accepted probes of one key are at least the minimum apart |
| ProbeGate.SpacesExactly | core/internal/monitor/probe.go:139-168 | the gate keeps all accepted probes of a key the minimum apart if and only if the minimum is at most a minute and a nanosecond |
| ProbeGate.AcceptsExactly | core/internal/monitor/probe.go:151-159 | for minimums up to that bound, a probe is accepted exactly if every earlier accepted probe of its key is at least the minimum before |

## Left out

- SSH handshake, channels and cryptography: a session starts authenticated, and closing a connection is an event after which its request stream can end.
- WantReply and the log lines: an answer is what would be sent if the client asked for one.
- Permitted port 0, which would bind a new port each time under one key: `Connect` excludes it.
- Individual listener closes inside closeAll and cancelForward: they happen in one step of the protocol, because only the session's own goroutine touches its listeners; the time between net.Listen and the store in the table is a step of its own.
- One remote address for two live sessions, which would let one replace the other in the registry: ids are taken as distinct, and a pipe that finds a client finds one of its own name.
- The UDP, TCP and HTTP servers, the probes themselves, `row`, `sample` and `scrape`: sockets and requests.
- Quotes and "host:port" in permitlisten values, the reloading of the key file, and spaces outside ASCII: `PermittedPorts` starts with the bare values, and `Atoi` is that of a 64-bit platform.
- JSON, the temporary file and failing writes of the saver: `Save` returns what is written.
- The port rows of breakdown: sorted copies of a map.
- Floating-point rounding: percentages are exact.
- Clocks that go backwards, and logs loaded from a malformed file.
- Which of several clients with one name comes first in the list: `List` orders by name only, as the source does.
- A window of length 0 in the panel, where the script divides by zero: `UpCompute` takes a non-empty window.
- The clock is read once per tick, sweep and check in the model; the source reads it again for each entry.
- Heartbeat beats after the 32-bit sequence number wraps: `RunClient` covers the rounds before that.
- The callbacks OnLost and OnResume run outside the lock, so their order is not that of the state flips, which are what `HeartbeatServer` speaks about.
- Which of several overdue beats sets downFrom depends on the order of the map: `Sweep` says that it is the time of one of them.
- Pipes.AccountsBalance: counters are unbounded there; the counters of `Monitor.Client` and `Traffic` wrap.
- Strength of the HMAC: it is an arbitrary function with 32-byte results.
- Configuration, the client supervisor, the speed test, link templates, metadata and the rest of the panel page.
