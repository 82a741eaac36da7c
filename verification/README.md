# A verified model of the mesh simulator

These Dafny modules model the parts of the MeshCore simulator whose behaviour is hardest to see
from the code, and prove what they are for. `dafny verify dfyconfig.toml` checks everything.

* **The next-hop routing table** (`PathBlocks`, `RouteTable`, `RouteAgeing`, `RouteHistory`,
  `RouteTheorems`, `RouteLaws`). `RouteTable.NextHopTable` is the agent's table as it is: an array of 128 slots,
  swap-with-tail ageing, admission limiter, eviction scan, pinned bit. `RouteHistory` proves that on
  every run it is the same as a map without any slots, which gives the tight bounds on its size and
  on how long a route lives.
* **The RF channel and the router** (`Channel`, `Collision`, `CollisionLaws`, `RouterModel`,
  `RouterLedger`, `RouterCounts`, `RouterLaws`, `RouterOrigins`, `RouterVerdicts`, `RouterRuns`,
  `RouterReplays`, `RouterJournal`, `RouterTrace`, `Corruption`, `Router`).
  `RouterModel` is the router as a machine of atomic steps, one for each stretch between two awaits,
  in any order and with any random draws. A record that no step reads keeps the unpruned history.
  `Router` holds the classes, each method proved to take its step of the machine and to make the
  tracer calls of that step; `RouterJournal` follows those calls to the exported events.
* **Kernels** (`SimRng`, `Base64`, `Airtime`): bit vectors, a streaming decoder, the LoRa time on
  air in two languages.
* **Topology import and files** (`Propagation`, `GapFill`, `TopologyConfig`, `LoadLaws`, `Topology`): the
  least-squares fit, the greedy gap filling, and the file format against the directed graph it denotes.
* **Packets and traces** (`Packet`, `PacketLaws`, `Tracer`, `TraceLoader`, `TraceLaws`, `TraceGroups`,
  with `OrderedDict` and `StableSort`): decoder and fingerprint, the tracer against the history of its calls, and export,
  time-sorting and grouping without losing or doubling a record.

The modules and lemmas called laws say in the numbers and names of the source what the functions of
the model compute, without naming those functions.

Numbers are exact: `real` for floating point, integers with explicit wrap-around where the width of
a C++ type matters, bit vectors for the generator. Random draws, SNR noise, the clock and the order
of coroutines are arbitrary inputs, so every theorem holds for all of them.

## Where the code differs from what is said of it

* `privatemesh/nexthop/README.md:155-158` and the comment at `privatemesh/nexthop/SimNode.cpp:158-163`
  say that among used routes the stalest is evicted. The scan compares ages only between equal use
  counts, so a stale route can stay (`StalestUsedMayStay`); `StalestUsedRule` says exactly when not.
  No run from an empty table gets that far: as `NeverRefusedNeverEvicted` proves, the scan is never reached.
  The same file gives a table of 64 slots and an admission limit of 4 in places; the code has 128 and 16.
* "Update if new metric is equal or better" (`SimNode.cpp:115`) does not make hop counts fall for
  good: an advert that opens an age cycle can drop its own route just before inserting a longer one
  (`MetricRisesExactlyWhen`, and `MetricRisesOnSomeRun` for a run).
* `topology_to_dict` promises a round trip without loss (`orchestrator/config.py:119-120`).
  `LosslessExactlyWhen` names the four exceptions; the graph is kept in all cases.
* Records pruned after five seconds (`orchestrator/router.py:105-106`) can be needed later than that.
  `LossHorizonIsExact`, `BusyHorizonIsExact` and `RememberedExactlyWhen` give the exact bounds,
  `SlowRadioOutlastsHistory` a radio setting beyond them, and `PruningChangesVerdict` a run in which
  a packet is received although its receiver was transmitting.
* The channel takes one latency per pair of nodes, the last of parallel links
  (`orchestrator/__main__.py:87-96`); the router sleeps for the latency of the link it delivers over.
  So a later transmission can revise what the history says of a finished delivery
  (`ParallelLinksBreakFinality`). `FinalExactlyWhen` says for which links it cannot: those called
  final here. Nothing is assumed of the topology.
* A corrupted packet can be the original, and is counted as corrupted all the same:
  `UnchangedExactlyWhen` says for which draws, `CanCancelExactlyWhen` for which configured counts.
* `fit_propagation_model` calls its degenerate case "all edges at same distance"
  (`tools/import_topology.py:234-235`); it also catches distances that differ a little, and then the
  line is not a least-squares line (`NearlyEqualDistancesMisfit`).
* Gap filling counts a link as good by the drawn SNR and stores the rounded one
  (`GoodCounterMatchesExactlyWhen`; on the inputs, `NoTinyDrawNoMismatch` and `TinyDrawMismatch`).
* `broadcast_steps` says "ordered by tx_id" (`workbench/trace_loader.py:67`); the order is that of
  the first recorded hop (`TxOrderExactlyWhen`).

## Model

| member | source | states |
|---|---|---|
| `PathBlocks.ReverseBlocksAt` | privatemesh/nexthop/SimNode.cpp:413-438 | block i of a turned-around path is block cnt-1-i of the path field, byte for byte |
| `PathBlocks.ReverseTwice` | privatemesh/nexthop/SimNode.cpp:413-438 | turning a path around twice gives it back |
| `PathBlocks.ReverseInto` | privatemesh/nexthop/SimNode.cpp:431-438 | the front-to-back copy loop of an advert fills the buffer with the block-wise reversal and leaves the rest of it alone |
| `PathBlocks.ReverseForContact` | privatemesh/nexthop/SimNode.cpp:343-347 | the back-to-front copy loop that learns a contact path computes the same reversal |
| `RouteTable.NextHopTable.Find` | privatemesh/nexthop/SimNode.cpp:89-95 | finds the first live entry with the four-byte prefix, or none |
| `RouteTable.NextHopTable.AgeSlot` | privatemesh/nexthop/SimNode.cpp:103-110 | one turn of the ageing loop: skip a pinned slot, age it, or overwrite it with the tail; the loop terminates |
| `RouteTable.NextHopTable.AgeEntries` | privatemesh/nexthop/SimNode.cpp:99-112 | the swap-with-tail ageing pass in place on the array, with the admission counter reset |
| `RouteTable.NextHopTable.PickVictim` | privatemesh/nexthop/SimNode.cpp:164-188 | the eviction scan ends on the slot the scan function names, or on none exactly if all are pinned |
| `RouteTable.NextHopTable.Upsert` | privatemesh/nexthop/SimNode.cpp:118-212 | refresh, refuse, append or evict: the whole new state of the table |
| `RouteTable.NextHopTable.OnAdvertRecv` | privatemesh/nexthop/SimNode.cpp:387-445 | own adverts change nothing; any other advert counts, ages every sixteenth time, and upserts the reversed path |
| `RouteTable.NextHopTable.SendTextTo` | privatemesh/nexthop/SimNode.cpp:505-513 | which path a table-direct send uses, and the saturating use count |
| `RouteTable.FieldFits` | privatemesh/nexthop/SimNode.cpp:416-419 | no path field of the wire format overflows the byte arithmetic of the hop count or the path length |
| `RouteAgeing.AgeingVisitsEachOnce` | privatemesh/nexthop/SimNode.cpp:99-112 | as a multiset, the aged table is the pinned entries unchanged and each other entry one cycle older if that is at most 3: none skipped, none aged twice |
| `RouteAgeing.AgeingMembers` | privatemesh/nexthop/SimNode.cpp:99-112 | an entry is in the aged table exactly if it comes from an entry that survives |
| `RouteAgeing.AgeingKeepsDistinct` | privatemesh/nexthop/SimNode.cpp:99-112 | ageing keeps destinations pairwise distinct and never lengthens the table |
| `RouteAgeing.VictimIsStalest` | privatemesh/nexthop/SimNode.cpp:157-188 | the scan finds the stalest metric-only entry if there is one, else the stalest unused one, else the stalest of those used as often as the first unpinned entry; none exactly if all are pinned |
| `RouteAgeing.FullTableUpsert` | privatemesh/nexthop/SimNode.cpp:135-211 | on a full table, pins allowed, a new destination changes nothing (limiter, metric-only route, all pinned) or exactly the slot of that victim |
| `RouteAgeing.UpsertKeepsPins` | privatemesh/nexthop/SimNode.cpp:118-212 | no insertion costs a pinned destination its slot or its pin |
| `RouteAgeing.AdvertKeepsPins` | privatemesh/nexthop/SimNode.cpp:441-445 | nor does a whole advert, ageing included |
| `RouteAgeing.StalestUsedMayStay` | privatemesh/nexthop/SimNode.cpp:157-163 | the commented rule "among used entries evict the stalest" is false of the scan: a full table of 128 routes, all used and none pinned, and an insertion that evicts one of age 0 while the one of age 3 stays |
| `RouteAgeing.StalestUsedRule` | privatemesh/nexthop/SimNode.cpp:176-183 | that rule is met exactly if one of the stalest entries has been used as often as the first unpinned one |
| `RouteAgeing.RefreshLaw` | privatemesh/nexthop/SimNode.cpp:121-133 | for any table: a route that is there is replaced exactly if the new hop count is no larger; age zero, pin and uses kept |
| `RouteAgeing.InsertLaw` | privatemesh/nexthop/SimNode.cpp:135-193 | for any table: a new destination is refused from sixteen admissions on, appended below 128 routes, and on a full table a route without path changes nothing |
| `RouteAgeing.AgeBits` | privatemesh/nexthop/SimNode.cpp:67-68 | the pin is the upper bit of the age, the counter the other seven |
| `RouteHistory.RunRefinesBook` | privatemesh/nexthop/SimNode.cpp:99-212 | on every run from empty, counter wrap included, the 128-slot table equals an unbounded map of the last accepted routes restricted to those at most 3 cycles old |
| `RouteHistory.RoomForNew` | privatemesh/nexthop/SimNode.cpp:135-155 | whenever an advert is processed there is a free slot and the admission limit is not reached |
| `RouteHistory.CounterWraps` | privatemesh/nexthop/SimNode.cpp:442-443 | the wrap of the 32-bit advert counter disturbs no age cycle |
| `RouteTheorems.AgeClassesBounded` | privatemesh/nexthop/SimNode.cpp:57-62 | in every reachable state at most 16 live routes of each age 0..3 and none older: at most 64 |
| `RouteTheorems.NeverRefusedNeverEvicted` | privatemesh/nexthop/SimNode.cpp:135-155 | after its advert a destination is in the table, together with exactly those that ageing left: the limiter never refuses and the scan never evicts |
| `RouteTheorems.DistinctRunSize` | privatemesh/nexthop/SimNode.cpp:99-155 | the exact size of the table at every moment of a run without repeated destinations |
| `RouteTheorems.SixtyFourIsReached` | privatemesh/nexthop/SimNode.cpp:57-62 | the bound of 64 is tight |
| `RouteTheorems.ExactLifetime` | privatemesh/nexthop/SimNode.cpp:99-133 | a route not heard of again is present after k more counted adverts if and only if fewer than four age cycles have begun, and is unchanged until then |
| `RouteTheorems.FortyEightToSixtyFour` | privatemesh/nexthop/SimNode.cpp:99-133 | so a fresh route outlives the next 48 counted adverts and is gone by the 64th |
| `RouteTheorems.WorseAdvertsChangeNothing` | privatemesh/nexthop/SimNode.cpp:121-133 | adverts over more hops neither refresh a route nor shorten its life |
| `RouteTheorems.MetricRisesExactlyWhen` | privatemesh/nexthop/SimNode.cpp:121-133 | across an event the hop count of a present destination rises exactly if the event is its own advert, opens an age cycle, finds the route at the last age and has a longer path |
| `RouteTheorems.MetricRisesOnSomeRun` | privatemesh/nexthop/SimNode.cpp:99-133 | it happens: after an advert of a node and 62 of another, an advert of the node over a longer path raises its hop count |
| `RouteTheorems.SentPathsAreReversedAdverts` | privatemesh/nexthop/SimNode.cpp:413-445 | every path sent from the table is the block-wise reversal of the path field of one of the last 64 counted adverts with the same prefix |
| `RouteTheorems.StoredPathsFit` | privatemesh/nexthop/SimNode.cpp:124-130 | a stored path is empty or (metric-1) * hash size bytes long, never more than 64 |
| `RouteLaws.PresenceLaw` | privatemesh/nexthop/SimNode.cpp:99-155 | on every run, by one event: a destination is in the table afterwards exactly if it was there and is not aged away at the sixteenth advert with age 3, or the event is its own advert |
| `RouteLaws.KeptLaw` | privatemesh/nexthop/SimNode.cpp:99-112 | what is not replaced is one cycle older at a sixteenth advert and counts one more use, up to 255, if a message went along it; nothing else changes |
| `RouteLaws.AcceptedLaw` | privatemesh/nexthop/SimNode.cpp:387-445 | an accepted advert sets the whole entry: hop count plus one, age zero, the uses so far, and a path as long as the field, or empty if that exceeds 64 bytes |
| `RouteLaws.DirectSendExactlyWhen` | privatemesh/nexthop/SimNode.cpp:411-513 | after an accepted advert a message goes along a stored path if and only if the hashes of the field fill between 1 and 64 bytes |
| `RouteLaws.DirectSendPath` | privatemesh/nexthop/SimNode.cpp:431-438 | and hash i of that path is hash cnt-1-i of the field, byte for byte |
| `Channel.ChannelModel.RegisterTx` | orchestrator/channel.py:108-112 | a new id goes behind the others; a known id is replaced where its first record stands, all else unchanged |
| `Channel.ChannelModel.ExpireBefore` | orchestrator/channel.py:114-116 | what stays is a selection of the old records by an order-preserving index map: exactly those that end at t or later |
| `Channel.ChannelModel.IsReceiverBusy` | orchestrator/channel.py:118-135 | the first registered transmission of the receiver itself that overlaps the window |
| `Channel.ChannelModel.Judge` | orchestrator/channel.py:161-230 | the body of the collision loop for one transmission: skips, capture, grace period, error correction |
| `Channel.ChannelModel.IsLost` | orchestrator/channel.py:137-232 | the first registered transmission that destroys the reception |
| `Collision.PayloadCaseIsSubsumed` | orchestrator/channel.py:216-228 | the payload branch (Case A) decides nothing the tail branch (Case B) does not |
| `Collision.CollisionRule` | orchestrator/channel.py:188-230 | the check in closed form, and the reported interferer and overlap |
| `CollisionLaws.LossInNumbers` | orchestrator/channel.py:156-230 | the whole check in symbols, milliseconds and decibels: what is lost, to whom and for how long the two overlapped |
| `CollisionLaws.SparedExactlyWhen` | orchestrator/channel.py:203-228 | an overlapping uncaptured interferer that begins no later than the preamble less five symbols spares the primary if and only if it ends by then; a later one if and only if the overlap is at most 0, 0, 1, 2 symbols at coding rate 1, 2, 3, 4 |
| `Collision.EarlierAndLater` | orchestrator/channel.py:192-230 | of two contending arrivals the earlier survives exactly if the other begins after its grace period and overlaps at most the correctable symbols; the later exactly if the earlier ends within its grace period |
| `Collision.SimultaneousBothLost` | orchestrator/channel.py:192-230 | arrivals that begin together are both lost |
| `Collision.FirstNeverSurvivesAlone` | orchestrator/channel.py:203-228 | with seven or more preamble symbols the earlier arrival never survives alone |
| `Collision.OneCaptures` | orchestrator/channel.py:192-196 | with a positive threshold at most one of two arrivals captures |
| `Collision.LostExactlyWhen` | orchestrator/channel.py:170-232 | a reception is lost if and only if some registered transmission destroys it; the first such one is reported |
| `Collision.BusyExactlyWhen` | orchestrator/channel.py:129-135 | a receiver is busy if and only if one of its own transmissions overlaps; the first such one is reported |
| `Collision.LateTxChangesNothing` | orchestrator/channel.py:188-190 | transmissions not heard before the reception ends do not change the verdict |
| `Collision.LateTxBlocksNothing` | orchestrator/channel.py:129-135 | nor does a transmission of the receiver that starts after the window |
| `Collision.PruningKeepsLoss` | orchestrator/channel.py:114-116 | pruning keeps the whole verdict if no record it drops destroys the reception |
| `Collision.PruningKeepsBusy` | orchestrator/channel.py:114-116 | and the half-duplex verdict if what it drops was over by the beginning of the window |
| `Collision.LossHorizonIsExact` | orchestrator/router.py:102-106 | for one interferer the five-second horizon gives every collision verdict of the full history if and only if elapsed time plus its latency is at most 5 s and a grace period |
| `Collision.BusyHorizonIsExact` | orchestrator/router.py:102-106 | for half-duplex the bound is exactly 5 s |
| `RouterLedger.EveryDeliveryIsAccountedFor` | orchestrator/router.py:153-265 | in every reachable state: deliveries created = in flight + SNR drops + link losses + adversarial drops + captures + half-duplex drops + collisions + the reception counters of all nodes + receivers without an agent; each node counts its own receptions |
| `RouterCounts.CountersAccountForAll` | orchestrator/__main__.py:54-57 | in a simulation built from a configuration no receiver is without an agent, so on every run the counters alone account for every delivery |
| `RouterCounts.TransmissionsAreCounted` | orchestrator/router.py:75-77 | on every run the transmission counter of a node is the number of its transmissions, decodable or not |
| `RouterCounts.BeginLaw` | orchestrator/router.py:153-199 | a delivery comes to the first cause that applies: SNR below -7.5 dB less 2.5 dB per spreading factor above 7, a loss draw below the loss, or its receiver's filter in its mode; that one is counted and nothing else |
| `RouterCounts.CausesAreCounted` | orchestrator/router.py:153-199 | on every run the counters of SNR drops, link losses, adversarial drops, captures and corruptions are the numbers of deliveries that came to that cause, each once, and those a cause stops end with its outcome |
| `RouterLaws.WiringLaw` | orchestrator/__main__.py:54-84 | what the router is given for a configuration: an agent for every name, a filter for every node configured as an adversary, the last of a name counting, and the default radio where the file has none |
| `RouterLaws.ChannelLaw` | orchestrator/__main__.py:83-104 | the channel takes SNR and latency of the last link between two nodes, 6 dB to capture, and the settings of the radio |
| `RouterLaws.NoLinkNoSignal` | orchestrator/__main__.py:83-96 | nothing is heard where there is no link |
| `RouterLaws.AirLaw` | orchestrator/router.py:80-89 | the time on air of a transmission, with checksum and explicit header, in symbols |
| `RouterLaws.WakeLaw` | orchestrator/router.py:194-207 | when a delivery that was not stopped wakes up: never in the past, after its transmission and the latency of its link, a replay after the latency alone; and what it then carries |
| `RouterLaws.VerdictLaw` | orchestrator/router.py:209-265 | half-duplex, then collision, then reception, each exactly when its transmissions are in the store, the first registered one named |
| `RouterOrigins.HistoryIsSent` | orchestrator/router.py:75-103 | on every run the clock is the start plus the time that passed, and the history is what was sent: decodable packets, numbered from one, on air as long as they take |
| `RouterOrigins.StoreIsRecent` | orchestrator/router.py:104-106 | the store holds, in order, exactly those of them that ended no more than 5 s before the last one began |
| `RouterOrigins.SpawnLaw` | orchestrator/router.py:130-136 | one delivery for each link in the list of the sender, in order, with its packet, tx_id and time on air |
| `RouterOrigins.DeliveriesAreOfTransmissions` | orchestrator/router.py:130-136 | on every run each delivery with a tx_id is of the transmission of that number, with its sender and time on air, and carries its packet until it begins |
| `RouterOrigins.DrainReplaysAll` | orchestrator/router.py:278-286 | a pass of the drainer sends every due packet of every filter, in order, to each neighbour of the filter's node, without tx_id and window, and creates nothing else |
| `RouterVerdicts.LaterTxKeepsVerdict` | orchestrator/router.py:201-241 | over a final link, no transmission that starts at or after the end of the transmission plus the latency of the link changes the verdict |
| `RouterVerdicts.PrunedStoreGivesVerdict` | orchestrator/router.py:102-106 | a store pruned at a horizon gives the verdict of the complete history, if nothing that ended before it can matter to the delivery |
| `RouterVerdicts.VerdictsMatchFullHistory` | orchestrator/router.py:91-252 | on every topology and every interleaving, every verdict given in time over a final link is the verdict of the complete history as it stands at any later moment of the run |
| `RouterVerdicts.VerdictIsFinal` | orchestrator/router.py:201-241 | once a delivery over a final link has been judged, in time or not, no continuation of the run changes what the full history says of it |
| `RouterVerdicts.FinalExactlyWhen` | orchestrator/router.py:201-241 | for every link of every topology, deliveries and transmissions as long as packets are on air: later transmissions never revise a verdict, whatever the history, if and only if the latency the channel gives the sender is at most that of the link, plus that of every audible, not captured interferer, plus what coding corrects |
| `RouterVerdicts.PlainLinksAreFinal` | orchestrator/topology.py:27-50 | so every link is final in a topology without negative latencies and parallel links |
| `RouterVerdicts.RememberedExactlyWhen` | orchestrator/router.py:102-106 | for one delivery and all histories of transmissions as long as packets are on air: pruning at a horizon never changes the verdict if and only if the horizon is not after the window begins at the receiver nor, for any interferer that can destroy the reception, after its grace period ends |
| `RouterVerdicts.InTimeWhen` | orchestrator/router.py:102-106 | time on air + lateness of the delivery + longest latency, plus what the link takes longer than the channel assumes if links are parallel, within 5 s are enough |
| `RouterRuns.ParallelLinksBreakFinality` | orchestrator/__main__.py:87-96 | a configuration with two parallel edges, the slower listed last, and a run of the router over it in which a verdict given in time is Received and the history says Collided after one more transmission |
| `RouterRuns.PruningChangesVerdict` | orchestrator/router.py:102-106 | a configuration at SF12 and 62.5 kHz and a run over it: the receiver was transmitting itself when the packet began to arrive, the record is pruned before the delivery ends, and the packet counts as received |
| `RouterReplays.CapturesAreDrainedOnce` | orchestrator/adversarial.py:53-65 | in every reachable state each replay capture is buffered exactly once or was drained exactly once, not before its deadline |
| `RouterReplays.BufferedPacketsAreCaptures` | orchestrator/adversarial.py:53-57 | what waits is what its delivery carried, at the adversary that captured it, due at the configured delay |
| `RouterReplays.OneTaskPerNeighbour` | orchestrator/router.py:130-136 | a broadcast creates one delivery per link, in order, and touches no other |
| `RouterReplays.EmitsToEveryNeighbour` | orchestrator/router.py:279-286 | a drain creates one delivery per due packet and neighbour and nothing else |
| `RouterReplays.DrainLeavesNothingDue` | orchestrator/adversarial.py:61-65 | after the drainer has passed nothing due is left and nothing else is gone |
| `Router.MetricsCollector.RecordRx` | orchestrator/metrics.py:66-67 | counts one reception at one node and nothing else |
| `Router.MetricsCollector.RecordCollision` | orchestrator/metrics.py:81-82 | counts one collision and nothing else |
| `Router.MetricsCollector.RecordHalfDuplexDrop` | orchestrator/metrics.py:84-85 | counts one half-duplex drop and nothing else |
| `Router.AdversarialFilter.FilterPacket` | orchestrator/adversarial.py:39-59 | drop, capture for replay with its deadline, flip as many bits at random as configured, or pass, by mode |
| `Corruption.Corrupt` | orchestrator/adversarial.py:71-79 | the flips of the loop, in place on a copy; an empty packet and a count of zero or less change nothing |
| `Corruption.ToggleTwice` | orchestrator/adversarial.py:77-78 | flipping a bit changes a number, and flipping it again gives it back |
| `Corruption.CorruptionIsBounded` | orchestrator/adversarial.py:71-79 | for all draws, a corrupted packet differs from the original in at most as many bytes as there were flips |
| `Corruption.UnchangedExactlyWhen` | orchestrator/adversarial.py:71-79 | for every count and all draws: a packet comes out of a corruption as it went in if and only if every bit of it is drawn an even number of times |
| `Corruption.CanCancelExactlyWhen` | orchestrator/adversarial.py:71-79 | by the configured count alone: some draws leave a packet as it was if and only if the count is even or not positive |
| `Corruption.TwoFlipsCancelExactlyWhen` | orchestrator/adversarial.py:71-79 | for a count of two: exactly if both draw the same bit of the same byte |
| `Corruption.OneFlipShows` | orchestrator/adversarial.py:71-79 | a single flip never leaves it as it was |
| `Router.AdversarialFilter.DrainReplays` | orchestrator/adversarial.py:61-65 | two order-preserving selections of the buffer: exactly what is due is returned, exactly the rest stays |
| `Router.MakeFilters` | orchestrator/router.py:58-64 | one fresh filter with an empty buffer per adversary |
| `Router.PacketRouter.OnTx` | orchestrator/router.py:75-106 | the first atomic part of a transmission takes the step of the machine, with one tracer call whose number becomes the id |
| `Router.PacketRouter.SpawnDeliveries` | orchestrator/router.py:130-136 | the second part: the deliveries of one broadcast |
| `Router.PacketRouter.BeginDelivery` | orchestrator/router.py:153-207 | a delivery up to its sleep: SNR gate, link loss, adversarial filter with its bit flips |
| `Router.PacketRouter.Judge` | orchestrator/router.py:209-265 | half-duplex, then collision, then reception |
| `Router.PacketRouter.FinishDelivery` | orchestrator/router.py:209-265 | a delivery from its wake-up to its end takes the step of the machine and makes the one tracer call of its verdict |
| `Router.PacketRouter.DrainReplays` | orchestrator/router.py:278-286 | one pass of the replay drainer takes the step of the machine |
| `RouterJournal.CounterIsTracers` | orchestrator/router.py:91-98 | on every run the id counter is the number of transmissions the tracer has numbered |
| `RouterJournal.JournalAscends` | orchestrator/router.py:88-252 | the tracer is called with times that never fall |
| `RouterJournal.EveryVerdictIsReplayed` | orchestrator/router.py:209-252 | from the router to the viewer: the time-sorted events of the exported trace are as many as the deliveries judged whose packet decodes, a receiver without an agent included |
| `RouterJournal.EdgeCountsAreVerdicts` | workbench/trace_loader.py:131-162 | from the router to the statistics: on every run the hop, collision and half-duplex counts of all edges together are the deliveries received, collided and blocked whose packet decodes |
| `RouterJournal.ReplayKeepsRouterOrder` | workbench/trace_loader.py:28-63 | packet by packet and kind by kind those events are the calls of the run in the order the router made them |
| `RouterTrace.TransmissionsAreTraced` | orchestrator/router.py:91-98 | on every run the tracer numbers exactly the packets sent, with sender, begin, end and time on air |
| `RouterTrace.VerdictHasEvent` | orchestrator/router.py:209-257 | on every run each judged delivery whose packet decodes has an event in the viewer, under its packet, with its time, sender, receiver, tx_id and reason |
| `RouterTrace.HopShowsAirtime` | orchestrator/tracer.py:287 | and a hop shows the airtime of the packet that was sent under its tx_id, a replay none |
| `SimRng.UnmixUndoesMix` | node_agent/SimRNG.cpp:8-13 | splitmix64 mixing can be undone |
| `SimRng.SeededWordsDiffer` | node_agent/SimRNG.cpp:43-49 | for every seed the four state words are pairwise different, so the state is not zero |
| `SimRng.SeedsDiffer` | node_agent/SimRNG.cpp:43-49 | different seeds give different generators |
| `SimRng.PreviousUndoesNext` | node_agent/SimRNG.cpp:22-34 | the xoshiro256** step can be undone |
| `SimRng.UnscrambleUndoesOutput` | node_agent/SimRNG.cpp:22-23 | the output can be undone: it shows the second word of the state |
| `SimRng.SeedRecovered` | node_agent/SimRNG.cpp:43-49 | the four words of a seeded state, unmixed, are the seed plus one to four times the increment, in that order |
| `SimRng.OnlyZeroIsFixed` | node_agent/SimRNG.cpp:22-34 | only the zero state is its own successor |
| `SimRng.StepsNeverZero` | node_agent/SimRNG.cpp:22-34 | no number of steps leads from a non-zero state to zero |
| `SimRng.NeverAllZero` | node_agent/SimRNG.cpp:22-49 | for every seed and at every time the state is not all zero |
| `SimRng.SplitAtWords` | node_agent/SimRNG.cpp:61-70 | drawing a multiple of 8 bytes and then b more is drawing them at once: bytes and state |
| `SimRng.SplitStateExactlyWhen` | node_agent/SimRNG.cpp:61-70 | for any other split the states agree if and only if the word counts add up |
| `SimRng.BytesAreWords` | node_agent/SimRNG.cpp:61-70 | byte i of a draw is byte i mod 8 of the output of the state i / 8 steps on, for every size |
| `SimRng.EightBytesSpellWord` | node_agent/SimRNG.cpp:66 | the bytes of a word spell it, least significant first |
| `SimRng.UnhashUndoesHash` | node_agent/SimRNG.cpp:51-58 | undoing the rounds of the key hash leads every key back to the offset basis of 64-bit FNV-1a |
| `SimRng.OneByteMatters` | node_agent/SimRNG.cpp:51-59 | keys that differ in one byte seed different generators |
| `SimRng.Generator.Splitmix64` | node_agent/SimRNG.cpp:8-13 | advances the seed and returns the mixed word |
| `SimRng.Generator.Seed` | node_agent/SimRNG.cpp:43-49 | fills the four words |
| `SimRng.Generator.SeedFromKey` | node_agent/SimRNG.cpp:51-59 | seeds from the FNV-1a fold of the key |
| `SimRng.Generator.Step` | node_agent/SimRNG.cpp:22-34 | output word and successor state of xoshiro256**, in place |
| `SimRng.Generator.Random` | node_agent/SimRNG.cpp:61-70 | fills the buffer with the little-endian words, the last one cut short |
| `Base64.TableInvertsChar` | node_agent/arduino_shim/base64.hpp:10-27 | the table inverts Table 1 of RFC 4648, and the padding character is outside the alphabet |
| `Base64.AlphabetLaw` | node_agent/arduino_shim/base64.hpp:10-27 | the alphabet is upper case, lower case, digits, plus and slash, the padding the equals sign |
| `Base64.FeedTight` | node_agent/arduino_shim/base64.hpp:36-45 | fewer than 8 bits ever wait, the accumulator stays below 2^bits and never overflows 32 bits |
| `Base64.StreamIsNumber` | node_agent/arduino_shim/base64.hpp:33-46 | after k characters exactly the whole bytes of 6k bits are written, and bytes and remainder spell the number the characters spell |
| `Base64.NumberDeterminesBytes` | node_agent/arduino_shim/base64.hpp:33-46 | no other bytes of that length do |
| `Base64.DecodeInvertsEncode` | node_agent/arduino_shim/base64.hpp:29-47 | decoding the encoding of section 4 of RFC 4648 gives the bytes back, padded or not, and with any other characters strewn in |
| `Base64.DecodedHasLength` | node_agent/arduino_shim/base64.hpp:33-47 | the output is 6k/8 bytes long, rounded down |
| `Base64.StripPadding` | node_agent/arduino_shim/base64.hpp:30-31 | stripping padding removes no alphabet character |
| `Base64.Consume` | node_agent/arduino_shim/base64.hpp:39-45 | one alphabet character in place on output, accumulator and bit count |
| `Base64.DecodeBase64` | node_agent/arduino_shim/base64.hpp:29-47 | the decoder writes exactly the decoded bytes and nothing beyond |
| `Airtime.MonotoneInPayloadAndCode` | orchestrator/airtime.py:42-61 | airtime never falls with payload length or coding rate |
| `Airtime.FormulaLaw` | orchestrator/airtime.py:42-61 | the time on air is the formula of section 4 of Semtech AN1200.13, in symbols and whole blocks |
| `Airtime.FallsWithBandwidth` | orchestrator/airtime.py:42-61 | airtime strictly falls with bandwidth, also across the low-data-rate switch |
| `Airtime.NextFactorTakesLonger` | orchestrator/airtime.py:42-61 | the next spreading factor takes strictly longer, for coding rates up to the preamble length plus 8 |
| `Airtime.RisesWithSpreadingFactor` | orchestrator/airtime.py:42-61 | airtime strictly rises with the spreading factor over 7..12 for every coding rate up to the preamble length plus 8 |
| `Airtime.RisesExactlyWhen` | orchestrator/airtime.py:42-61 | that bound is sharp: for any bandwidth, coding rate and preamble, airtime rises with the factor for all packets if and only if the coding rate is at most the preamble length plus 8 |
| `Airtime.ShimIsFloorModulo` | node_agent/SimRadio.cpp:55-67 | the C++ estimate is the Python value (8 preamble symbols, CRC, explicit header) rounded down, modulo 2^32 |
| `Airtime.ShimAgrees` | node_agent/SimRadio.cpp:55-67 | for every packet the radio can send it is exactly that value rounded down |
| `Airtime.DefaultRadioIsQuick` | orchestrator/config.py:72-76 | at the default radio setting a packet is on air for less than 1.15 s, well inside the five-second history |
| `Airtime.SlowRadioOutlastsHistory` | orchestrator/airtime.py:42-61 | at the slowest narrow-band setting a full packet alone is on air for more than 10 s, twice the history |
| `Propagation.DenomNotNegative` | tools/import_topology.py:233-234 | the denominator is never negative, and zero only if all x are equal |
| `Propagation.FitMinimisesExactlyWhen` | tools/import_topology.py:226-240 | the fitted line minimises the squared residuals over all real lines if and only if the denominator reaches 1e-12 or the best slope is zero |
| `Propagation.EqualXFit` | tools/import_topology.py:234-237 | when all x are equal the mean with slope zero is a least-squares line |
| `Propagation.RegularFitIsUnique` | tools/import_topology.py:238-240 | away from the degenerate case the fitted line is the only one |
| `Propagation.NearlyEqualDistancesMisfit` | tools/import_topology.py:234-237 | five different points the degenerate branch fits badly |
| `Propagation.DenomIsSpread` | tools/import_topology.py:233 | the denominator is the sum of squared differences over all pairs of points |
| `Propagation.FitLaw` | tools/import_topology.py:211-240 | fewer than five points give 10 dB falling by 30 dB a decade, points closer together than the threshold their mean, all others the one least-squares line |
| `GapFill.CountMeasured` | tools/import_topology.py:443-455 | the seeded counters are the true degrees and numbers of links with positive SNR |
| `GapFill.FindCandidates` | tools/import_topology.py:463-476 | the candidates of a node are its gaps among later nodes: the growing edge set never hides one |
| `GapFill.VisitsAreTheGaps` | tools/import_topology.py:457-480 | every gap is considered exactly once, node by node and closest first |
| `GapFill.TryPair` | tools/import_topology.py:481-516 | one candidate: caps, floor, good-link cap, and the counters kept true |
| `GapFill.FillGaps` | tools/import_topology.py:443-516 | the nested loops compute the greedy run, and at the end the counters are the true counts |
| `GapFill.AddsGapsOnce` | tools/import_topology.py:463-516 | no duplicate pair, no self-edge, no measured pair, every edge above the floor |
| `GapFill.CapsHold` | tools/import_topology.py:481-499 | degree at most max(measured, 12), good links at most max(measured, max_good_links), for all SNR draws |
| `GapFill.FillingIsMaximal` | tools/import_topology.py:481-499 | a gap above the floor stays open only if, counting everything added, a cap forbids it |
| `GapFill.AddedExactlyWhen` | tools/import_topology.py:457-516 | exactly which edges are added: pairs in reach with a draw above -12 dB and room for them at both ends (twelve edges, and the cap on good links), counting what is measured and what was added for earlier nodes or closer pairs |
| `GapFill.RoundLaw` | tools/import_topology.py:508 | the stored SNR is the draw to the nearest hundredth, halves to the even one |
| `GapFill.GoodCounterMatchesExactlyWhen` | tools/import_topology.py:492-515 | the good links the stored, rounded SNRs show at a node are within the cap, and they are those counted if and only if no edge added at the node has a draw in (0, 0.005] |
| `GapFill.NoTinyDrawNoMismatch` | tools/import_topology.py:492-515 | on the inputs: they are those counted if no gap at the node has a draw in (0, 0.005] |
| `GapFill.TinyDrawMismatch` | tools/import_topology.py:492-515 | whatever the draws, if that of any pair is in (0, 0.005], then where only that pair is in reach its edge is counted as good at both ends and stored as not |
| `TopologyConfig.TopologyToDict` | orchestrator/config.py:114-195 | the writing loops produce the dictionary of the configuration |
| `TopologyConfig.LoadTopology` | orchestrator/config.py:198-271 | the reading loops load it, or fail exactly where a required key is missing or of the wrong type |
| `LoadLaws.NodeLaw` | orchestrator/config.py:202-227 | exactly which node objects load, and every field with its default |
| `LoadLaws.AdversaryLaw` | orchestrator/config.py:204-212 | likewise adversaries: always acting, five seconds, one flip |
| `LoadLaws.EdgeLaw` | orchestrator/config.py:229-239 | likewise edges: no loss, no latency, 6 dB |
| `LoadLaws.DirectionLaw` | orchestrator/config.py:103-111 | a direction that is missing, null or empty overrides nothing, otherwise its keys do |
| `LoadLaws.SimulationLaw` | orchestrator/config.py:240-260 | likewise the simulation section; an epoch of zero is the clock |
| `LoadLaws.RadioLaw` | orchestrator/config.py:262-271 | likewise the radio section: SF 9, 125 kHz, CR 4/5, eight symbols |
| `LoadLaws.TruncationLaw` | orchestrator/config.py:211 | integers are read without their fraction, truth as one |
| `LoadLaws.TruthLaw` | orchestrator/config.py:216 | what counts as true: all but null, false, zero and the empty string, list and object |
| `LoadLaws.FileLaw` | orchestrator/config.py:198-271 | a file loads exactly if each part does, node by node and edge by edge, in order |
| `Topology.BuildLinks` | orchestrator/topology.py:27-50 | the adjacency loops, failing exactly on an edge with an unknown end |
| `Topology.AdjacencyIsEdges` | orchestrator/topology.py:31-50 | the list of a node is the links of its edges, in file order, each once per direction |
| `Topology.LinksAreViews` | orchestrator/topology.py:21-50 | each link of a node is the view of one edge from one end: other end, loss, latency and SNR are what that direction overrides, or else the edge's own |
| `Topology.EndsAtListed` | orchestrator/topology.py:31-50 | and all ends at the node are listed, each once, in file order |
| `Topology.LinksStayInside` | orchestrator/topology.py:31-50 | every link of a configuration leads to one of its nodes |
| `Topology.RoundTrip` | orchestrator/config.py:114-271 | loading what was written gives the normal form, for every configuration |
| `Topology.LosslessExactlyWhen` | orchestrator/config.py:119-120 | the documented lossless round trip holds if and only if there is no empty override object, no epoch 0, no empty default_binary and no non-default noise floor |
| `Topology.SecondRoundTripIsIdentity` | orchestrator/config.py:114-271 | a second round trip changes nothing if and only if the epoch was set, or the clock was not 0 when it was filled in, or it is 0 again |
| `Topology.RoundTripKeepsLinks` | orchestrator/topology.py:21-50 | writing and reading never changes the directed links or their loss, latency and SNR |
| `Topology.LinkOfNormal` | orchestrator/topology.py:21-50 | an override object that overrides nothing and a missing one denote the same link |
| `Packet.HexRoundTrip` | orchestrator/packet.py:105-108 | reading hex inverts writing it |
| `PacketLaws.FromHexExactlyWhen` | orchestrator/packet.py:105-108 | exactly which texts read as which bytes: two digits each, of either case, white space around but not inside them |
| `PacketLaws.HexAt` | orchestrator/packet.py:165-166 | bytes are written as two lower-case digits each |
| `Packet.DecodeInvertsLayout` | orchestrator/packet.py:105-151 | decoding inverts the wire layout of every valid packet |
| `Packet.LayoutInvertsDecode` | orchestrator/packet.py:105-151 | whatever decodes is the layout of the packet it decodes to |
| `PacketLaws.DecodesExactlyWhen` | orchestrator/packet.py:110-151 | exactly which bytes decode, and every field by its bits and offsets |
| `PacketLaws.FingerprintLaw` | orchestrator/packet.py:154-166 | the fingerprint is the type byte and the payload, in hex |
| `Packet.FingerprintIdentifies` | orchestrator/packet.py:154-166 | fingerprints are equal if and only if payload type and payload are |
| `Packet.RelayedCopyKeepsFingerprint` | orchestrator/packet.py:154-166 | a relay that appends its hash leaves the fingerprint alone |
| `Tracer.PacketTracer.RecordTx` | orchestrator/tracer.py:146-177 | every decodable transmission gets a fresh number and opens a trace if its packet is new; the state stays what the history of calls says |
| `Tracer.PacketTracer.RecordCollision` | orchestrator/tracer.py:179-220 | the same for collisions |
| `Tracer.PacketTracer.RecordHalfduplex` | orchestrator/tracer.py:222-255 | the same for half-duplex drops |
| `Tracer.PacketTracer.RecordRx` | orchestrator/tracer.py:257-297 | the same for receptions, with the airtime of their transmission |
| `Tracer.BookNext` | orchestrator/tracer.py:159-297 | a call changes exactly the trace of its fingerprint: traces hold all records of the calls about a packet, in call order |
| `TraceLaws.HopsTellOf` | orchestrator/tracer.py:287-297 | the hop records of a packet tell, in order, of exactly the receptions about it: time, nodes, decoded fields, length, and the airtime of the transmission named |
| `TraceLaws.RecordedTellOf` | workbench/trace_loader.py:28-60 | likewise the events made from hops, collisions and half-duplex drops |
| `TraceLaws.EventOfCall` | workbench/trace_loader.py:16-63 | every decodable call but a transmission has an event that tells of it, field by field, at its packet |
| `TraceLaws.CallOfEvent` | workbench/trace_loader.py:16-63 | and every event tells of such a call |
| `TraceLaws.FirstSeenLaw` | orchestrator/tracer.py:159-171 | an exported packet shows the time, sender and type of the first call about it |
| `TraceLaws.OrderLaw` | workbench/trace_loader.py:62-63 | packets are exported in the order they were first seen, events replayed in the order of time |
| `TraceLoader.FlattenEvents` | workbench/trace_loader.py:16-63 | the flattening loops give the stable time-sort of all records, packet by packet |
| `TraceLoader.ExportIsChronological` | orchestrator/tracer.py:397-447 | the exported packets are those of the history, in the order first seen |
| `TraceLoader.ExportHasPacket` | orchestrator/tracer.py:397-447 | each fingerprint has exactly one exported packet, and that holds all its records |
| `TraceLoader.EveryRecordOnce` | workbench/trace_loader.py:28-63 | through export and reload, the events of a kind that point at a packet are the records of all calls about it, each once, by time |
| `TraceLoader.RecordsKeepCallOrder` | workbench/trace_loader.py:62-63 | when the clock never runs backwards they also keep the order of the calls |
| `TraceLoader.NoRecordIsLost` | workbench/trace_loader.py:28-63 | as many events as decodable receptions, collisions and half-duplex drops |
| `StableSort.FilterOfSort` | workbench/trace_loader.py:62 | sorting by time and selecting commute: the sort is stable |
| `TraceGroups.BroadcastSteps` | workbench/trace_loader.py:66-80 | the grouping loop |
| `TraceGroups.StepsPartitionHops` | workbench/trace_loader.py:66-80 | the steps partition the hops: each is all hops of one tx_id in order, or one hop without; lengths add up |
| `TraceGroups.TxOrderExactlyWhen` | workbench/trace_loader.py:66-80 | the steps come in the order of their tx_ids if and only if every new tx_id among the hops exceeds those before it |
| `TraceGroups.StepsOutOfTxOrder` | workbench/trace_loader.py:66-80 | two overlapping broadcasts whose steps do not |
| `TraceGroups.EdgeKeyIgnoresDirection` | workbench/trace_loader.py:138-139 | both directions of a link are one edge |
| `TraceGroups.KeyLaw` | workbench/trace_loader.py:138-139 | the key of an edge is its two ends, the smaller first, and no other pair has it |
| `TraceGroups.LexLaw` | workbench/trace_loader.py:138-139 | smaller means the order of strings: the first difference decides |
| `TraceGroups.ComputeEdgeTraceStats` | workbench/trace_loader.py:131-162 | the counting loops over all packets |
| `TraceGroups.EdgeCountsAreTrue` | workbench/trace_loader.py:148-162 | the entry of every edge holds the true counts of its records, and exists exactly if it has one |
| `TraceGroups.EdgeEntryLaw` | workbench/trace_loader.py:131-162 | the counts of an edge are the hops, collisions and half-duplex drops of all packets between its two ends, either way |
| `TraceGroups.EdgeCountsSumUp` | workbench/trace_loader.py:148-162 | summed over the edges, hop, collision and half-duplex counts give those of all packets |
| `TraceGroups.EdgeCountsAreCalls` | workbench/trace_loader.py:148-162 | through export, they are the decodable calls of that kind the tracer received |
| `TraceGroups.EdgeListsItsPackets` | workbench/trace_loader.py:148-155 | the packets listed for an edge are, ascending and each once, those with a hop on it |

## Left out

* MeshCore itself (dispatcher, mesh, chat mesh, its packet class) is not part of this model: what `sendDirect`, `sendFlood` and contact storage do is not modelled.
* Ed25519 and OpenSSL shims, sub-processes, command lines, sockets and files; JSON text (an abstract JSON value is read and written instead).
* The coroutine machinery: only the atomic steps between awaits are modelled. Listen-before-talk notifications are an await without effect on the router's state.
* Floating-point rounding. All arithmetic on times, SNR and distances is exact; only the rounding of a stored SNR to two decimals is modelled, in exact arithmetic.
* How random numbers are distributed; `random.gauss` and the loss draws are arbitrary.
* `haversine_km`, `log10`, SNR-to-loss and density tables, percentiles, sigma of the fit: points and distances are inputs.
* The import of nodes and measured edges before gap filling and of companions after it; gap filling starts from distinct measured pairs whose lower node comes first, which that step produces.
* Runs without radio, tracer or channel: the router has all three, as the simulation always builds them.
* Router packets are byte strings, not hex text, so their letter case is not modelled; the hex layer is in `Packet` and `Tracer`, and the router writes hex for the tracer.
* Bytes of a route slot beyond its stored length, and log lines.
* Packet traces are values replaced in the tracer's dictionary, not objects changed in place: a reference to a trace handed out earlier would not see later records.
* Derived fields of exported packets (type names, flood flag, sorted sender sets, mean size), the timing, transmission-window and metrics sections of the export, and per-node statistics.
* `broadcast_steps` keys hops without a tx_id by `id()`; that such a number could equal a tx_id is not modelled.
* `advert_stagger_secs`, `flood_timeout_secs`, the receive queue and `packetScore` of the radio: single expressions.
* The user interface, maps, playback and reports.
- TopologyConfig.LoadTopology: a string where a number belongs is an error, although one that spells a number is converted by the source; a name, mode, key or binary that is not a string is an error, although the source keeps it as it is. Non-integral numbers are truncated and the seed is kept unconverted, as in the source.
- GapFill.NoTinyDrawNoMismatch: sufficient, not necessary, because a gap with such a draw may be refused by a cap; `GoodCounterMatchesExactlyWhen` is exact over the edges added, and by `TinyDrawMismatch` no condition on the draws alone is weaker for all inputs.
