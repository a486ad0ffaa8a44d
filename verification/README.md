# CSPOT in Dafny

CSPOT is a distributed append-only storage system with event-triggered handlers. Its
storage objects, WOOFs, are persistent circular buffers. Appends are recorded in an event
log, forkers claim the recorded triggers and launch handlers, and the logs of many hosts
are merged into one global log by cause. On top of this run a dataflow engine whose
handlers coordinate only through appends, and a Chord-style hash table.

This project models the parts whose correctness rests on an argument about many steps and
proves those arguments:

- **Dataflow** (`DataflowModel`, `DataflowSafety`, `DataflowTheorems`,
  `DataflowTermination`, `DataflowSchedules`, `DataflowRace`, `DataflowQuadratic`,
  `DataflowEquation`). A step system in which every append and every read of every handler is a step of its own. In all
  interleavings of any number of handlers over any well-formed program every node fires
  exactly once, every run ends, and the values delivered are those of recursive evaluation
  exactly if every node is ordered.
- **Trigger dispatch** (`EventLog`, `Dispatch`, `DispatchRuns`). The circular event log, the
  critical section of the forker with its cache and its cut-off, and all runs of appenders
  and forkers that do not overrun the log: triggers are claimed in log order, each once, no
  forker is woken for nothing, and the container with its cache does what the runs say. When
  the log is overrun, which triggers are lost.
- **The global log** (`HostTable`, `Pending`, `GlobalLog`, `GlobalLogEvent`,
  `GlobalLogMeaning`, `GlobalLogImport`). The host hash table and the pending set refine maps; every committed
  record is justified by its cause; every event offered is logged, pending or dropped because
  its host has been seen further on; nothing is logged twice but in one case, which is
  characterised; the walk, the fast-forward and the import end and do what they are for.
  `GlobalLogMeaning` says what is decided in the fields of events, hosts and pending events.
- **WOOFs** (`WoofBuffer` in `Woof.dfy`). The buffer refines an append-only sequence.
- **The hash table** (`ChordRing` in `Chord.dfy`, `ChordLookup`). Byte-wise identifier
  arithmetic is arithmetic modulo 2^160; lookups end at the responsible node whatever the
  fingers are, and within 160 hops if the fingers are correct.
- **Repair** (`Repair`, `RepairFields`, `RepairPass`, `RepairMerged`). The restarting marking
  pass finds what can be reached over paths of readers, what its flags mean in the fields of
  events, and when what it finds is the least closed set.
- **Semaphores** (`FutexSemaphore` and `CondvarSemaphore` in `Semaphores.dfy`). Safety,
  absence of lost wake-ups and progress over all interleavings.

`RingArithmetic`, `Counting` and `Wrappers` hold what several of these share. Check
everything with `dafny verify dfyconfig.toml`.

## What was found

These properties do not hold of the code as one would first state them. Each has a lemma
with an input on which it fails and the exact condition under which it holds.

- All complete runs of a dataflow program agree on the results of all nodes if and only if
  in every node one operand alone has order 1 or the operation gives the same value both
  ways round (`DataflowRace.AllAgreeIff`). The square-root node of
  `apps/dataflow/quadratic.sh` gets two operands of order 0. All complete runs of that program
  agree on all nodes if and only if the discriminant is 1 (`DataflowQuadratic.QuadraticRace`),
  and on its final result if and only if the discriminant is 1 or a is 0, in which case the
  final result is never a number (`DataflowQuadratic.FinalResultRace`). For other a, every
  complete run delivers a solution of the equation if and only if the discriminant is 1
  (`DataflowEquation.AlwaysSolvesIff`).
- `GLogEvent` can log an event that is pending and leave it pending, so that it may be logged
  again. From a state with no such event a successful call does so if and only if the event
  offered is pending, is no anchor, and is enabled (`GlobalLogEvent.UniqueIff`). It happens
  because the walk does not look for satisfied events if nothing has the event just logged as
  its cause (`GlobalLogImport.LoggedAndPending`), and because an import offers the events from
  `max_seen` on once more; it does not happen if none of the events offered is pending
  (`GlobalLogImport.FirstTimeIsOnce`).
- `GLogFindRootEvent` breaks off at a record with sequence number 0, such as the placeholder
  that `GLogEvent` makes for a cause outside the log. It finds the first event of the chain
  that leads to an event, not counting a placeholder at its end, if and only if there is no
  such record from that first event up to the event (`Repair.FindRootEvent`,
  `RepairMerged.MergedLog`).
- `GLogMarkWooFDownstream` does not follow a reader to the first event of its chain if a
  selected event is among the causes of the reader, or if the scan breaks off. What it finds
  is described by paths in the log and the selection alone (`Repair.FoundIsLeast`,
  `RepairPass.MarkWooFDownstream`); it is the least set closed under cause, read-from and
  start-of-reader if and only if the first events of the chains of those readers are found
  over another path (`Repair.FoundIsLeastClosedIff`, `Repair.RootCanBeMissed`). That is so in
  the intended use, in which only first events of chains are selected, as the comment at
  `src/repair.c:63` says, and no placeholder lies on the way of a scan
  (`Repair.StartsSelectedSuffice`, `Repair.PlaceholderIsNoCause`).
- `d_fix_finger` takes an empty finger, whose hash is zero, for the end of an interval and
  copies it over the fingers after it, exactly those that do not wrap past zero
  (`ChordLookup.EmptyFingerSpreads`). Correct fingers are copied exactly to where they are
  correct (`ChordLookup.CoveredIff`).
- The value of the futex semaphore stays non-negative in all runs with at most v calls of `V`
  if and only if the initial value plus v is at most `INT_MAX`
  (`FutexSemaphore.NeverNegativeIff`). Two overlapping calls beyond that leave it negative for
  good (`FutexSemaphore.OverflowRace`). No more calls of `P` return than there are permits
  however often the value wraps (`FutexSemaphore.AtMostPermits`), but nobody is left asleep
  with permits, in all runs with at most v calls of `V`, if and only if the initial value
  plus v is below 2^32 (`FutexSemaphore.NoLostWakeupIff`).
- Appenders can overrun the log, and the code does not notice. The scan of a forker then
  stops too early and misses exactly the unclaimed triggers up to the record where it stops;
  it goes back to the last claim if and only if fewer records than the log has slots were
  logged since (`DispatchRuns.LogAndScan`). A trigger followed by as many records as fill the
  log is lost (`DispatchRuns.LoseTrigger`).
- `EventIndex` identifies events if and only if host ids and sequence numbers are below 2^32
  (`Pending.EventIndexInjective`, `Pending.EventIndexCollides`).

Smaller ones: FIRING records hold the slot of a trigger but are looked up by its sequence
number, which does no harm only because of `last_checked` (`Dispatch.FiredSlotBelow`); a scan
with nothing logged since the last one goes round the whole ring and takes claimed triggers
for unclaimed (`Dispatch.Container.Rescan`); `HostListFind` "finds" an empty slot for host id
0; `LogTail` with a buffer of `max_size` slots retains at most `max_size` - 1 events;
`WooFSetSeqno` after the first append renames all elements already appended.

## Model

| member | source | states |
|---|---|---|
| DataflowSafety.StepInv | apps/dataflow/dfhandler.c:72-313 | every append and read of every handler keeps the protocol invariant: who wrote each claim, partial and DONE record, and which of the two handlers of a node will fire it |
| DataflowSafety.RunInv | apps/dataflow/dfhandler.c:72-313 | the invariant holds in every state of every interleaving |
| DataflowSafety.OneFires | apps/dataflow/dfhandler.c:165-295 | of the two handlers of a node at most one fires |
| DataflowTheorems.FiredAtMostOnce | apps/dataflow/dfhandler.c:105-303 | in every state a node has at most one DONE record and one result; the exits for too many inputs, missing node and failed read are never taken |
| DataflowTheorems.FirstOrSecondFired | apps/dataflow/dfhandler.c:182-301 | when both handlers of a node have ended, the first claimant has fired it and the second has deferred, or the first has parked its value and the second has fired |
| DataflowTheorems.FiredExactlyOnce | apps/dataflow/dfhandler.c:105-303 | when nothing is left to do, every node of an acyclic program has exactly one DONE record and one result |
| DataflowTheorems.RunComputes | apps/dataflow/dfhandler.c:188-287 | in every state of every run of every well-formed program, ordered or not, every result put or under way is the operation of its node on the two operands of the node |
| DataflowTheorems.CombineValue | apps/dataflow/dfhandler.c:188-202 | found as a partial or as a future, in either order of arrival, the two operands give the value of the node |
| DataflowModel.Operations | apps/dataflow/dfoperation.c:15-40 | opcodes 1, 2 and 3 add, subtract and multiply; 4 gives the number that multiplied by y is x, and no number for y = 0; 5 gives a non-negative number with square x, and one whenever any number has that square |
| DataflowModel.NoNumber | apps/dataflow/dfoperation.c:15-40 | what is not a number gives nothing that is, but for the second operand of a square root, which makes no difference; other opcodes give none |
| DataflowTheorems.CommutativeOpcodes | apps/dataflow/dfoperation.c:15-40 | additions and multiplications need no operand order |
| DataflowTheorems.RunValue | apps/dataflow/dfhandler.c:188-287 | in every state of every run all operands and all results under way of nodes below a rank up to which nodes are ordered have the values of recursive evaluation |
| DataflowTheorems.ResultsAreEvaluation | apps/dataflow/dfhandler.c:17-70 | every result ever put carries the value of its node to the destination of its node, if the nodes up to its rank are ordered |
| DataflowTheorems.CompleteRunEvaluates | apps/dataflow/dfhandler.c:17-313 | a complete run of an acyclic, ordered program delivers for each node, the final one included, exactly one result, the recursive evaluation |
| DataflowTermination.StepDecreases | apps/dataflow/dfhandler.c:146-295 | every step lowers a measure: operands to come, then appends, then reads |
| DataflowTermination.EveryRunEnds | apps/dataflow/dfhandler.c:72-313 | there is no infinite run, even of a cyclic program |
| DataflowSchedules.HoldBack | apps/dataflow/dfhandler.c:72-313 | everything but the handlers of one node can be run until nothing else can move, whatever has happened before |
| DataflowSchedules.Finish | apps/dataflow/dfhandler.c:72-313 | every run can be continued to a complete one, and keeps its operands |
| DataflowSchedules.RunOneByOne | apps/dataflow/dfhandler.c:105-303 | the two handlers of a node can be run one after the other, in either order; the first parks, the second fires, and this is the result |
| DataflowRace.Disagree | apps/dataflow/dfhandler.c:188-202 | for an unordered node whose predecessors are ordered there are two complete runs that disagree on its result |
| DataflowRace.AllAgreeIff | apps/dataflow/dfhandler.c:188-287 | for every well-formed acyclic program all complete runs agree on the results of all nodes if and only if every node is ordered |
| DataflowQuadratic.DiscriminantIs | apps/dataflow/quadratic.sh:44-57 | node 6 of the example program evaluates to b^2 - 4ac |
| DataflowQuadratic.QuadraticRace | apps/dataflow/quadratic.sh:39-62 | all complete runs of the example program agree on the results of all nodes if and only if b^2 - 4ac is 1 |
| DataflowQuadratic.FinalFromRoot | apps/dataflow/quadratic.sh:39-62 | in every run the final result is the real number (-b + x) / 2a, where x is what the square-root node computed in that run, or none if a is 0 or x is none |
| DataflowEquation.FinalSolvesIff | apps/dataflow/quadratic.sh:39-62 | for a != 0, (-b + x) / 2a solves a r^2 + b r + c = 0 if and only if x^2 is b^2 - 4ac |
| DataflowEquation.RootSquared | apps/dataflow/quadratic.sh:39-62 | a complete run whose final result solves the equation has taken the square root of b^2 - 4ac |
| DataflowEquation.AlwaysSolvesIff | apps/dataflow/quadratic.sh:39-62 | for a != 0 every complete run of the example program delivers a solution of the equation if and only if b^2 - 4ac is 1 |
| DataflowQuadratic.FinalResultRace | apps/dataflow/quadratic.sh:39-62 | all complete runs of the example program agree on the result that goes to destination 0 if and only if b^2 - 4ac is 1 or a is 0 |
| EventLog.Log.constructor | src/log.cpp:15-52 | an empty log whose first sequence number is 1 and whose last_checked is -1 |
| EventLog.Log.LogAdd | src/log.cpp:103-130 | appends to the history; the buffer retains exactly the last min(n, size - 1) events, event s at index s mod size |
| EventLog.Log.LogEvent | src/log.cpp:146-204 | numbers the event with its position and appends it |
| EventLog.Log.IsEmpty | src/log.cpp:209-222 | head equals tail if and only if nothing is retained |
| EventLog.Log.LogTail | src/log.cpp:209-253 | the retained events from `earliest` on, newest first, at most max_size of them |
| EventLog.BackwardsIsReverse | src/log.cpp:229-251 | which events those are, and their order |
| Dispatch.Container.LogRecord | src/woofc.cpp:840-866 | an appender's record changes neither the claims nor what the cache stands for |
| Dispatch.Container.ScanBack | src/woofc-container.cpp:413-489 | the backward scan caches exactly the triggers, after the record where it stops, whose number no later FIRING record holds, and finds the first of them; it stops at the last record but the newest in the slot last_checked, or at the oldest retained |
| Dispatch.StopsAtMarkIff | src/woofc-container.cpp:413-489 | if something has been logged since last_checked, the scan stops there if and only if fewer records than the buffer has slots have been logged since, and never before |
| Dispatch.FindsUnclaimed | src/woofc-container.cpp:413-489 | of the unclaimed triggers the scan misses exactly those up to the record where it stops |
| Dispatch.Container.Scan | src/woofc-container.cpp:413-489 | with nothing overwritten that is still to be claimed, the scan fills the cache with exactly the unclaimed triggers |
| Dispatch.Container.Rescan | src/woofc-container.cpp:413-489 | if last_checked is the head, the scan goes round the ring and caches exactly the triggers whose number no later FIRING record holds, among them every claimed one beyond the first round |
| Dispatch.FiredSlotBelow | src/woofc-container.cpp:439-454 | FIRING records hold slots but the scan looks up sequence numbers; no slot on record is beyond the last claim, so that none is mistaken for an unclaimed trigger |
| Dispatch.Container.Choose | src/woofc-container.cpp:399-501 | through cache and cut-off the forker chooses the trigger that a scan of the whole history would: the earliest without a FIRING record; -1 if and only if there is none |
| Dispatch.Container.Claim | src/woofc-container.cpp:383-579 | the critical section claims exactly that trigger and logs one FIRING record for it, or finds nothing because there is nothing |
| Dispatch.Container.RecordClaim | src/woofc-container.cpp:545-575 | the FIRING record, the new last_checked, and that the trigger's slot is not overwritten by its own FIRING record |
| Dispatch.ClaimKeeps | src/woofc-container.cpp:545-575 | claims stay in increasing order and the FIRING records stay those of the claims |
| DispatchRuns.ClaimsAgainstTriggers | src/woofc-container.cpp:507-522 | there are fewer claims than triggers if and only if a trigger is unclaimed |
| DispatchRuns.WokenFindsTrigger | src/woofc-container.cpp:507-522 | a forker that P has let through finds an unclaimed trigger |
| DispatchRuns.StepInv | src/woofc-container.cpp:375-579 | every step of appenders and forkers keeps the claims in order and the semaphore account balanced |
| DispatchRuns.ClaimedInOrder | src/woofc-container.cpp:375-579 | in every run, however often the ring wraps, triggers are claimed in log order and none twice, and permits + woken forkers + claims = posts |
| DispatchRuns.NeverSpurious | src/woofc-container.cpp:507-522 | in every run every claim section claims a trigger; the branch for "no unclaimed found" is unreachable |
| DispatchRuns.EveryTriggerClaimedOnce | src/woofc.cpp:844-866 | once all posts are used up, every trigger has been claimed exactly once |
| DispatchRuns.EveryTriggerCanBeClaimed | src/woofc-container.cpp:375-579 | with at least one forker every run can be continued, without any further append, to one in which every trigger logged so far is claimed |
| DispatchRuns.Execute | src/woofc-container.cpp:375-579 | every run is a run of the container with its cache and last_checked: going through the steps of a run it logs and claims what the run says |
| DispatchRuns.LogAndScan | src/woofc-container.cpp:413-489 | after one more record the scan goes back to the last claim if and only if there was room for the record; in any case it misses exactly the unclaimed triggers up to where it stops |
| DispatchRuns.LoseTrigger | src/woofc-container.cpp:413-522 | for a log of every size, a trigger and as many records as fill the log: the scan finds nothing although the trigger is unclaimed |
| HostTable.HostList.constructor | src/host.c:11-36 | an empty table |
| HostTable.HostList.Add | src/host.c:48-82 | adds the host to the map, or fails if and only if only one slot is left empty |
| HostTable.HostList.Find | src/host.c:84-116 | finds a record if and only if the host has been added, and then its record; both probe loops end |
| HostTable.HostList.Set | src/log.cpp:953-963 | an assignment through the pointer that was found changes that host alone |
| HostTable.OccupyReachable | src/host.c:48-82 | adding a host cuts no probe sequence short |
| HostTable.RoundMeansAbsent | src/host.c:84-116 | a probe that has come round has seen every slot |
| Pending.EventIndexInjective | src/event.cpp:43-45 | for host ids and sequence numbers below 2^32 two events have the same index if and only if they have the same host and sequence number |
| Pending.AliveOrder | src/event.cpp:43-45 | the order of the index of pending events: by host, then by sequence number, with the hosts from 2^31 on before all others |
| Pending.EventIndexCollides | src/event.cpp:43-45 | every event outside that range has the index of one within it |
| Pending.PendingSet.constructor | src/log.cpp:292-332 | an empty pending set |
| Pending.PendingSet.Add | src/log.cpp:355-398 | succeeds if and only if the event is not pending and a slot is free; adds it to the map and to both indexes |
| Pending.PendingSet.Remove | src/log.cpp:400-451 | succeeds if and only if the event is pending, and removes it from both indexes and the slots |
| Pending.FindEntry | src/log.cpp:423-448 | the walk over entries with equal keys finds the entry of the slot, because equal keys are contiguous |
| Pending.PendingSet.FindEvent | src/log.cpp:453-475 | finds exactly the pending event with this id |
| Pending.PendingSet.FindCause | src/log.cpp:477-494 | finds a pending event with this cause if and only if there is one |
| GlobalLog.CommitOk | src/log.cpp:953-963 | committing keeps the log justified and max_seen the greatest number logged for each host |
| GlobalLog.RegisterCause | src/log.cpp:799-834 | an unknown cause host gets a placeholder record, or the call fails because the host list is full |
| GlobalLog.LogFirst | src/log.cpp:844-888 | the first event of a new host is logged whatever its cause |
| GlobalLog.PendingSatisfied | src/log.cpp:728-760 | the first pending event whose cause has been reached, or none if there is none |
| GlobalLog.Walk | src/log.cpp:968-1077 | the walk ends and moves different satisfied pending events to the log: none if and only if nothing pending has the event just logged as its cause; otherwise it begins with such an event, goes on from each to one that it caused or else to the first satisfied in index order, and leaves nothing satisfied |
| GlobalLog.LogEnabled | src/log.cpp:941-1077 | the event, then what it enables, is committed, every commit is justified, and the walk has done its work |
| GlobalLogEvent.LogOrPend | src/log.cpp:770-1080 | the outcome of GLogEvent for every event and state: logged as first of its host, skipped, pending or logged together with what the walk moves, and when it fails |
| GlobalLogMeaning.CausesFirst | src/log.cpp:762-1077 | every record is the first of its host, or has its own host and number as its cause, or comes after a record of the cause host with at least the number of the cause, or its cause is not beyond the horizon of the cause host |
| GlobalLogMeaning.OfferedIsDecided | src/log.cpp:770-1080 | a call succeeds if and only if there is a slot for every new host and for an event that has to wait; it logs the event if and only if its host is unknown, or has not been seen that far and the event is its own cause or has a cause that is not pending and is seen or not beyond the horizon; an event neither logged nor old becomes pending |
| GlobalLogMeaning.OfferedReleases | src/log.cpp:968-1077 | every other record that a call adds is the placeholder of the cause or was pending with a cause seen by now; if nothing pending waits for the event logged there is no other, and otherwise nothing is left pending whose cause has been seen |
| GlobalLogEvent.PendingConserved | src/log.cpp:890-1077 | every pending event other than the one offered stays pending if and only if it is not logged by this call; no other event becomes pending |
| GlobalLogEvent.OfferedAccountedFor | src/log.cpp:770-1080 | the event offered is logged, or pending, or dropped because its host has been seen further on |
| GlobalLogEvent.RefusedAgain | src/log.cpp:770-1080 | an event for which there was no room would be refused again; nothing but the cause host has been registered |
| GlobalLogEvent.OfferedIsAccounted | src/log.cpp:770-1080 | the event offered, and every event for which it was so before, is pending or has a number up to which its host has been seen, even if the call fails |
| GlobalLogEvent.UniqueIff | src/log.cpp:890-1077 | from a state where no event is logged twice or both logged and pending, a call leads to such a state if and only if it is not a successful one that offers a pending, enabled event that is no anchor |
| GlobalLogEvent.StaysDouble | src/log.cpp:770-1080 | an event that is logged twice, or logged and pending, is so after every further call |
| GlobalLogImport.UniqueCalls | src/log.cpp:1294-1321 | a series of calls logs nothing twice if and only if none of them is that exception |
| GlobalLogImport.FirstTimeIsOnce | src/log.cpp:1294-1321 | none of them is if none of the events offered is pending before |
| GlobalLogImport.LoggedAndPending | src/log.cpp:968-1077 | four calls on a new global log after which an event is logged and still pending |
| GlobalLogImport.Resolve | src/log.cpp:589-693 | a pending event whose cause is before the horizon is logged, or pending, with the horizon as its cause number, or dropped as seen; fewer such events are left, and the others are unchanged |
| GlobalLogImport.FastForward | src/log.cpp:1091-1192 | ends, although each round re-enters GLogEvent and starts again at the front; afterwards no pending event waits for an event of the host before its horizon, those that waited for others are unchanged, and nothing has been logged twice |
| GlobalLogImport.SetHorizon | src/log.cpp:1279-1288 | the horizon of the host becomes the oldest event of the imported tail, which goes back no further than max_seen, if that is higher, and no other horizon changes; if it is beyond max_seen, nothing pending is left behind it |
| GlobalLogImport.ReversedTail | src/log.cpp:1237-1321 | the tail read backwards is the retained part of the host's log in increasing order |
| GlobalLogImport.GLog.constructor | src/log.cpp:515-564 | an empty global log; the pending set is five times as large as the log |
| GlobalLogImport.GLog.GLogEvent | src/log.cpp:770-1080 | keeps the invariant that every record is justified, decides as `OfferedIsDecided` says in fields and releases as `OfferedReleases` does; max_seen and event_horizon of no host go down |
| GlobalLogImport.NothingMissed | src/log.cpp:1197-1327 | after a full import of a log that holds its own host's events, every event that it retains is pending or its host has been seen that far |
| GlobalLogImport.GLog.ImportLogTail | src/log.cpp:1197-1327 | offers every retained event whose number is not below the max_seen that its host had before, or every retained one of an unknown host, in increasing order, each once, all of them or up to the first that is refused, because there is no room for it or because it is pending already; no mark goes down, of the horizons only that of the host moves, up to the first of these events, nothing accounted for is forgotten, and nothing is logged twice if and only if none of the calls is the exception |
| WoofBuffer.Woof.constructor | src/woofc.cpp:157-172 | an empty woof whose first sequence number is 1 |
| WoofBuffer.Woof.SetSeqno | src/woofc.cpp:283-290 | numbers only grow; sequence numbers keep their meaning if and only if nothing has been appended or the number does not change |
| WoofBuffer.Woof.Append | src/woofc.cpp:742-795 | appends to the sequence; the buffer retains the last min(k, history) elements |
| WoofBuffer.Woof.GetEarliest | src/woofc.cpp:1216-1230 | the number of the oldest retained element |
| WoofBuffer.ReadBack | src/woofc.cpp:742-1502 | an element is read back under the number that its append returned until as many elements as the buffer has slots have been appended after it, and not after that |
| WoofBuffer.Woof.Read | src/woofc.cpp:1408-1502 | a read of s > 0 succeeds if and only if s is retained, and returns the element appended as s; 0 is the latest element, or fails if there is none |
| ChordRing.MemcmpCompares | apps/dht/dht_utils.c:302-313 | comparing byte strings is comparing the numbers that they denote |
| ChordRing.InRangeIsArc | apps/dht/dht_utils.c:302-313 | in_range is the open clockwise arc, also across zero and with equal ends |
| ChordRing.GetFingerId | apps/dht/d_fix_finger.c:9-26 | the byte-wise addition computes n + 2^(i-1) modulo 2^160 |
| ChordLookup.FromSuccessors | apps/dht/h_find_successor.c:29-39 | there is an answer if and only if the key lies between an entry of the successor list and the one before it, and it is the node responsible for the key; without one the first successor precedes the key |
| ChordLookup.FromFingers | apps/dht/h_find_successor.c:182-217 | the finger chosen precedes the key, has the address of a leader and accepts the request, and none with a higher index does all three; only fingers that precede the key, have such an address and do not accept the request are invalidated |
| ChordLookup.FromSuccessorsBefore | apps/dht/h_find_successor.c:218-239 | the fallback finds a successor before the key if the first one accepts the request |
| ChordLookup.Resolve | apps/dht/h_find_successor.c:29-249 | a node answers rightly or forwards strictly closer to the key; the request goes back to the node itself only if its first successor is unreachable |
| ChordLookup.RingExists | apps/dht/h_find_successor.c:29-249 | every non-empty set of identifiers forms a ring as `Lookup` needs it, with successor lists of any length and any fingers that point to nodes or are empty |
| ChordLookup.SuccessorUnique | apps/dht/h_find_successor.c:29-39 | one node is responsible for each key |
| ChordLookup.Halve | apps/dht/h_find_successor.c:182-217 | with correct fingers a hop takes at least half of the distance left |
| ChordLookup.Lookup | apps/dht/h_find_successor.c:29-249 | from any node, for any key and with any fingers the lookup ends at the node responsible, in fewer hops than there are nodes, and in at most 160 if the fingers are correct |
| ChordLookup.CoveredIff | apps/dht/d_fix_finger.c:71-79 | if the finger before is correct, it is taken if and only if it is correct here and not exactly at its place |
| ChordLookup.EmptyFingerSpreads | apps/dht/d_fix_finger.c:71-79 | an empty finger is copied if and only if the place of the finger does not wrap past zero |
| ChordLookup.FixFinger | apps/dht/d_fix_finger.c:53-100 | the reuse loop ends and copies the last updated finger to exactly the following fingers that it covers, up to the first that it does not; if it is correct, the copies are |
| Repair.FindRootEvent | src/repair.c:138-179 | one scan back follows the chain of causes to its first event that is no placeholder if and only if no record from that event, itself included, up to the one asked for has sequence number 0; likewise to the root of the chain with a placeholder counted |
| Repair.ScanBreaksOff | src/repair.c:164-167 | a log with two placeholders on which it does not get to the first event of the chain |
| RepairMerged.MergedLog | src/log.cpp:799-834 | three calls of GLogEvent on a new global log make that log |
| Repair.FoundIsLeast | src/repair.c:61-132 | the least set closed under effects and tops of readers not below a selected event is what can be reached from the selected events over paths of readers, with all effects |
| RepairFields.InOrderIsOk | src/repair.c:33-136 | the logs covered, in fields: no two events of one host have the same number, a cause comes before its effects and is a TRIGGER or APPEND or stands alone, an element is written before it is read |
| RepairFields.TopIff | src/repair.c:138-179 | where the scan back from an event ends: at the start of the longest chain of causes that no record with number 0 interrupts |
| RepairFields.FoundSpreads | src/repair.c:61-132 | what can be reached is the least set with all TRIGGER and APPEND events that wrote a selected element, all effects of its events, and the tops of readers of its elements that no selected event has led to |
| RepairPass.RestartInv | src/repair.c:97-130 | a restart adds an event that was not a known cause before and keeps the invariant of the pass |
| RepairPass.Finished | src/repair.c:61-132 | at the end of the pass the flagged events are what can be reached |
| RepairPass.MarkWooFDownstream | src/repair.c:33-136 | the pass ends after at most one restart per READ; the flagged events are what can be reached, and in fields that least set; MARKED if and only if the cause is flagged; ROOT for TRIGGER and APPEND events that wrote a selected element and flagged events without a flagged cause, and for nothing else but tops of readers |
| RepairPass.RootFlagIff | src/repair.c:97-130 | if writes have positive sequence numbers and no scan from a reader breaks off, ROOT if and only if selected or flagged and first of its chain |
| Repair.FoundIsLeastClosedIff | src/repair.c:61-130 | what the pass finds is the least set closed under cause, read-from and start-of-reader if and only if the first events of the chains of readers of found elements that are below a selected event, or whose scan breaks off, are found over another path |
| Repair.StartsSelectedSuffice | src/repair.c:63-64 | that is so if only first events of chains are selected and no scan from a reader breaks off |
| Repair.PlaceholderIsNoCause | src/repair.c:61-130 | an append outside any handler behind its placeholder, and a read by its handler: the append and the read are the least closed set, without the placeholder |
| Repair.RootCanBeMissed | src/repair.c:97-130 | a log of three events where it is not |
| FutexSemaphore.RunInv | src/lsema.c:96-150 | in every interleaving, with failed swaps, interrupted waits and a value that wraps: the value is modulo 2^32 a number of permits that is at most init + increments - acquisitions and at least 2^31 for every undoing call; with a sleeper and less than 2^32 permits it is at most the wakes to come, the contenders and the undoing calls |
| FutexSemaphore.AtMostPermits | src/lsema.c:96-150 | at most init + #V calls of P have returned, for any number of calls |
| FutexSemaphore.ValueIsPermits | src/lsema.c:96-150 | while init + #V is at most INT_MAX, the value is init + increments - acquisitions |
| FutexSemaphore.NoLostWakeup | src/lsema.c:96-150 | while init + #V is below 2^32: with a sleeper, the value is at most the wakes to come, the contenders and the undoing calls; when nobody is under way and someone sleeps, there is no permit |
| FutexSemaphore.NoLostWakeupIff | src/lsema.c:96-150 | nobody is left asleep with permits in any run with at most v calls of V if and only if the initial value plus v is below 2^32 |
| FutexSemaphore.PermitIsTaken | src/lsema.c:96-128 | from every state of every run with a positive value, every P that is neither asleep nor done takes a permit in at most three steps of its own |
| FutexSemaphore.PermitIsPosted | src/lsema.c:130-150 | with nobody asleep every V adds a permit in two steps of its own |
| FutexSemaphore.SleeperIsWoken | src/lsema.c:130-150 | the wake of a V makes a sleeper try again |
| FutexSemaphore.NobodyIsStuck | src/lsema.c:96-150 | whoever has not returned and does not sleep has a step to take |
| FutexSemaphore.AllPermitsTaken | src/lsema.c:96-150 | for every init and v with a sum of at most INT_MAX there is a run with v calls of V and init + v returned calls of P: the bound is reached |
| FutexSemaphore.NeverNegativeIff | src/lsema.c:96-150 | the value is non-negative in all runs with at most v calls of V if and only if the initial value plus v is at most INT_MAX |
| FutexSemaphore.OverflowRace | src/lsema.c:130-150 | a run in which two overlapping calls of V at INT_MAX return and leave INT_MIN |
| CondvarSemaphore.RunInv | dispatch/sema.c:28-69 | waiters are those blocked or signalled, and there are never more unsignalled waiters than missing permits |
| CondvarSemaphore.AtMostPermits | dispatch/sema.c:28-69 | at most init + #V calls of P have returned, with barging and spurious wake-ups |
| CondvarSemaphore.NoLostWakeup | dispatch/sema.c:28-69 | nobody waits unsignalled while there is a permit, and there are exactly as many waiters as missing permits once all signalled ones have run |
| CondvarSemaphore.SignalledTakesIt | dispatch/sema.c:28-69 | the waiter that a V has signalled takes the permit in one step, if nobody else comes |
| CondvarSemaphore.NobodyIsStuck | dispatch/sema.c:28-69 | in every run whoever has not returned and is not blocked has a step to take, and a V returns with it and leaves one permit more |
| CondvarSemaphore.AllPermitsTaken | dispatch/sema.c:28-69 | for every init and v there is a run with v calls of V and init + v returned calls of P |
| CondvarSemaphore.WaitersAreCounted | dispatch/sema.c:34-49 | a waiter is always counted in `waiters` |

## Left out

- DataflowModel: doubles are reals and everything that is not finite is one value, and the program woof is taken to be large enough to retain every record; a woof that overwrites records while handlers run would give failed reads.
- Programs in which a node does not get exactly two operands, and `apps/dataflow_multiwoof`, whose lock does not exclude a second handler.
- Dispatch.Container.Claim: requires that the log has not been overrun and that a fruitless scan is not repeated with nothing logged in between; `Dispatch.Container.Rescan` states what such a scan does, and `DispatchRuns.NeverSpurious` that in runs of appenders and forkers there is no fruitless scan at all. Posts that wake forkers for shutdown are not modelled.
- DispatchRuns.ClaimedInOrder: runs in which appenders overrun the log are excluded; `DispatchRuns.LogAndScan` states which triggers the next scan then misses, and what the forkers claim after that is not modelled.
- Launching handlers after the mutex is released, helper processes, pipes and the reaper.
- Errors of allocation and of memory mapping, and files: MIO is not part of this model. Red-black trees are modelled as sorted sequences with their next and previous walks, in `GlobalLog` and `Repair` as maps and sets.
- GlobalLog.PendingAdd: `GlobalLog` uses the host list and the pending set through the maps that `HostTable` and `Pending` prove them to implement, not through those objects, and its own log through the sequence of everything ever logged.
- GlobalLogImport.GLog.GLogEvent: host ids are non-zero and, like sequence numbers, below 2^32; outside that range indexes collide. Which of several pending events with the same cause the walk finds first is left open.
- Pending.PendingSet.Remove: an event with the id of a pending event but another cause is excluded; the callers pass the pending event itself, and the code would remove it from one index only.
- HostTable.HostList.Add: a host that is in the table already is excluded, as every caller looks for it first; the code would add it a second time.
- The `CAUSAL`, `TRACK` and `TIMING` variants, `WooFAppend`, `WooFReadTail` and `WooFTruncate`, which do not keep the buffer as `WooFAppendWithCause` does.
- WoofBuffer.Woof.Append: the wait of an append for room and the pinning of elements by readers are not modelled; a read is atomic.
- ChordLookup.Lookup: for a fixed set of nodes that all accept requests; joins, failures and replicas are only in `ChordLookup.Resolve`, through the set of nodes that accept requests.
- ChordLookup.FixFinger: the lookup that it starts for the next finger and the callback are not modelled.
- RepairPass.MarkWooFDownstream: logs in which an event occurs twice, an effect precedes its cause or a read precedes the write are excluded. The retained events are numbered from the oldest on instead of by index in the ring, and the two key strings are pairs and triples.
- The other passes of `src/repair.c`, which only read the flags.
- InitSem, GetSemValue, the POSIX variant of `src/lsema.c`, and fairness of wake-ups.
- Networking, names, the Python bindings, Raft, configuration and logging of messages.
