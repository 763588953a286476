# Graph engine and packet applications: a verified model

Dafny 4.11 models of the stateful and arithmetic parts of two programs that live in one
repository: the out-of-core graph engine under `dpdk-graph/exec` with four of its vertex
programs and its master's merge of results, and the packet applications of the DPDK tree,
`app/test-pipeline` and `app/test-pmd`. `dafny verify dfyconfig.toml` checks everything.

**Vertex programs.** `Reachability`, `Graphs` and `ComponentLabels` say what distances and
component minima are. `Engine` has the selective scheduler, one pass of updates, and the loop
over passes; a pass visits the vertices in an arbitrary order, so every theorem about a run
holds for every order. `InMemoryComponents`, `EdgeComponents`, `Sssp` and
`CommunityDetection` are the four programs: each has its `update` as a function, the theorems
about whole runs, and a class whose arrays `UpdateAt` changes in place, proved to compute
that function. `EngineRuns` drives those classes with the engine's loop, from start to result.
`EdgeSlices` is the buffer the engine carves into edge lists.

**The packet pipeline.** `Pipeline` interleaves the RX, worker and TX cores in any order, one
ring or NIC operation at a time; `Fairness` has the argument from fair schedules, `BitMasks`,
`Divisors` and `Products` the arithmetic of ports and bursts; `WorkerBlockade` shows the bound on the TX
rings to be exact; `PipelineTraffic` says what crosses the wires in any run; `PipelineCores` has
the three loops' turns on the real buffers, refining the state machine.

**test-pmd.** `OnesComplement`, `HeaderChecksums` and `EchoReply` are the checksum routines
and the echo responder. `FlowCounter` is the flow generator's counter, `MulticastPool` the
address pool, `StreamShares` and `StreamSetups` the allocation of streams and queues to
cores, `PortCommands` and `PortConsole` the port state machine and its loops over the port
table, with `PortOutcomes` for what each command leaves behind; `TunnelHeaders` and
`ChecksumOffsets` are the header parsers of the checksum forwarder, and `TunnelPackets` checks
them against packets written header by header.

**The master.** `TopMerge` merges the workers' top lists.

What turned out to hold only under a condition is stated with the exact condition:

- `inmemconncomps` never sets the stored vertex data that `update` reads; labels are right on
  every graph exactly when the stored data are the vertex ids already (`StoredIdsAreNeeded`).
- `sssp` computes the distances exactly when the selected source is not vertex 0
  (`FinalDistances`).
- The two label slots of `communitydetection` agree with their ends exactly on graphs without
  self-loops (`SyncedIffNoSelfLoops`).
- RX never spins for ever exactly when an RX ring has room for a producer burst and a consumer
  burst less one; the built-in sizes meet this with nothing to spare (`RxNeverStuckIffRoom`,
  `DefaultsFit`). The worker needs less room in the TX rings, because what they hold is always
  a multiple of the greatest common divisor of the two bursts (`WorkerNeverStuckIff`); together
  the two bounds are exact for all three cores (`NoCoreStuckIff`).
- An echo reply carries an acceptable ICMP checksum exactly when the request has a non-zero
  byte behind its checksum (`IcmpReplyValidIff`). The rewrite takes the ICMP header to follow
  20 bytes of IP header; with options it works on the options, and a recomputed header checksum
  is right exactly when they sum to zero (`ReplyHeaderValidIff`, `MulticastOptionsFail`).
- Stream ranges tile the streams exactly when there are no more cores than streams
  (`TilesIff`). The ICMP setup caps the cores by the transmit queues of all ports together,
  so a core's transmit queue can be one that its port does not have; the condition is in
  `IcmpTxQueuesExistIff`, a setup in `IcmpQueueMissing`. With an odd number of ports two RSS
  cores can share a transmit queue: exactly when the last port is reached, the topology is no
  loop, and the table entry behind the list is one of the other ports (`RssTxSharedIff`; for a
  cleared table `RssClearedTableIff`; a setup in `OddPortsCollide`). The comment above the RSS
  setup limits the cores to the transmit queues of a device; the code does not, and follows
  queue numbers instead.
- A port is in the handling state exactly when a start found no memory pool for it and no
  device was attached in its place since (`HandlingInRunIff`).
- The merge is right for negative values exactly when `Suffices` holds (`MergeCorrectIff`).

The list of forwarding ports stays the list of enabled ports as long as no device is attached
under an id in use (`SyncKeptIff`). The driver sees to that: it looks for a detached slot and
reports the one that changed (`lib/librte_ether/rte_ethdev.c:225-234`, `457-468`), so this is
an assumption about the driver, written `FreshIds`, and no failure of the program.

## Model

| member | source | states |
|---|---|---|
| Engine.BitsetScheduler.NewIteration | dpdk-graph/exec/src/engine/bitset_scheduler.hpp:50-59 | from the second iteration on the next set becomes the current one and the next set is empty; the first changes neither |
| Engine.BitsetScheduler.AddTask | dpdk-graph/exec/src/engine/bitset_scheduler.hpp:66-73 | the vertex joins the next set, the current set stays, and there are new tasks |
| Engine.InMemoryEngine.ExecUpdates | dpdk-graph/exec/src/CE_Graph_engine.hpp:463-521 | one pass updates exactly the flagged vertices, once each, in the given order, and adds their tasks to the next set |
| Engine.InMemoryEngine.FreezeFlags | dpdk-graph/exec/src/CE_Graph_engine.hpp:657-665 | all vertices are flagged in iteration 0, exactly the current tasks later |
| Engine.InMemoryEngine.BeginIteration | dpdk-graph/exec/src/CE_Graph_engine.hpp:651-667 | the head of an iteration stops the loop exactly when the run has no new tasks, and else flags exactly the vertices of the pass |
| Engine.InMemoryEngine.ExecUpdatesInMemoryMode | dpdk-graph/exec/src/CE_Graph_engine.hpp:641-683 | the loop with its flags, its task flag and its early stop leaves the program state of the run of passes that the theorems are about |
| Engine.RunKeeps | dpdk-graph/exec/src/CE_Graph_engine.hpp:641-683 | an invariant on program state and to-do set that survives every single update survives every run, in every order, and at the stop on no new tasks it holds with an empty to-do set |
| Engine.NoTaskEndsRun | dpdk-graph/exec/src/CE_Graph_engine.hpp:651-656 | a pass that adds no task is the last one, however many passes are allowed |
| EngineRuns.InMemoryPass | dpdk-graph/exec/src/CE_Graph_engine.hpp:479-519 | one pass that updates the arrays of inmemconncomps in place, at the flagged vertices in any order, leaves the state and the tasks of the pass the theorems are about |
| EngineRuns.EdgePass | dpdk-graph/exec/src/CE_Graph_engine.hpp:479-519 | one pass that updates the arrays of connectedcomponents in place, at the flagged vertices in any order, leaves the state and the tasks of the pass the theorems are about |
| EngineRuns.SsspPass | dpdk-graph/exec/src/CE_Graph_engine.hpp:479-519 | one pass that updates the arrays of sssp in place, at the flagged vertices in any order, leaves the state and the tasks of the pass the theorems are about |
| EngineRuns.CommunityPass | dpdk-graph/exec/src/CE_Graph_engine.hpp:479-519 | one pass that updates the arrays of communitydetection in place, at the flagged vertices in any order, leaves the state and the tasks of the pass the theorems are about |
| EngineRuns.InMemoryComponentsRun | dpdk-graph/exec/example_apps/inmemconncomps.cpp:65-101 | the engine's loop over the program's own arrays: it stops by itself with the component minima in vertex_values |
| EngineRuns.EdgeComponentsRun | dpdk-graph/exec/example_apps/connectedcomponents.cpp:54-107 | the engine's loop over the program's own arrays, from any data: it stops by itself with the component minima |
| EngineRuns.SsspRun | dpdk-graph/exec/example_apps/sssp.cpp:55-109 | the engine's loop over the program's own arrays, from any data: distances if and only if the source is not vertex 0 |
| EngineRuns.CommunityDetectionRun | dpdk-graph/exec/example_apps/communitydetection.cpp:80-149 | the engine's loop over the program's own arrays: slots in step with their ends, and plurality labels everywhere if it stops by itself |
| EdgeSlices.NumEdgesSubinterval | dpdk-graph/exec/src/CE_Graph_engine.hpp:399-417 | the count is the sum, over the scheduled vertices, of the out-degrees and, when in-edges are stored, the in-degrees; it covers the room they will use, and equals it when out-edges are enabled |
| EdgeSlices.InitVertices | dpdk-graph/exec/src/CE_Graph_engine.hpp:692-724 | for every degree sequence, schedule and flags: the in-edges of a vertex end where its out-edges begin, its counts are its degrees (no out-edges when disabled), slices of scheduled vertices follow one another without gap or overlap inside the buffer, and the number of updates is that of the scheduled vertices |
| EdgeSlices.EveryCellOnce | dpdk-graph/exec/src/CE_Graph_engine.hpp:703-721 | every cell of the buffer up to the final counter belongs to exactly one scheduled vertex |
| InMemoryComponents.MinLabelIsMinimum | dpdk-graph/exec/example_apps/inmemconncomps.cpp:70-74 | the running minimum is the least of the vertex label and all neighbour labels, and is one of them |
| InMemoryComponents.UpdateKeeps | dpdk-graph/exec/example_apps/inmemconncomps.cpp:65-88 | after an update, every endpoint whose label is larger than its neighbour's is still to be updated, and labels stay ids of the component |
| InMemoryComponents.DryRunIsCorrect | dpdk-graph/exec/example_apps/inmemconncomps.cpp:65-88 | when the loop stops on no new tasks, every label is the smallest vertex id of its component, for every graph and order |
| InMemoryComponents.PassLowers | dpdk-graph/exec/example_apps/inmemconncomps.cpp:70-87 | no pass raises a label, and every vertex it visits comes down to the labels its neighbours had before the pass |
| InMemoryComponents.SettledAfterPasses | dpdk-graph/exec/src/CE_Graph_engine.hpp:644-673 | after k passes every vertex within k hops of its component's minimum holds the final label, whatever the orders |
| InMemoryComponents.RunsDry | dpdk-graph/exec/src/CE_Graph_engine.hpp:651-656 | no tasks are left after at most radius + 1 passes, the radius being the largest distance of a vertex from its component's minimum |
| InMemoryComponents.FinalLabels | dpdk-graph/exec/example_apps/inmemconncomps.cpp:65-88 | with more passes than vertices the loop has stopped by itself with the component minima |
| InMemoryComponents.StoredIdsAreNeeded | dpdk-graph/exec/example_apps/inmemconncomps.cpp:70-98 | runs never stop with wrong labels on any graph if and only if the stored vertex data were the ids to begin with |
| InMemoryComponents.ConnectedComponentsProgram.UpdateAt | dpdk-graph/exec/example_apps/inmemconncomps.cpp:65-88 | the in-place update: vertex values, stored data, task set and task flag end as in the function the run theorems are about |
| EdgeComponents.UpdateLevels | dpdk-graph/exec/example_apps/connectedcomponents.cpp:64-101 | after the first iteration an update leaves one label on the vertex and all its cells, never larger than before, and the far end of every changed cell is a task |
| EdgeComponents.FirstPassInv | dpdk-graph/exec/example_apps/connectedcomponents.cpp:58-61 | after iteration 0, from any vertex data and cells, labels and cells come from the component, are settled one hop out, and the tasks are exactly all vertices |
| EdgeComponents.RunInvariant | dpdk-graph/exec/example_apps/connectedcomponents.cpp:54-107 | at every point of every run a vertex whose label differs from one of its cells is still to be updated, and every cell holds an id of the component |
| EdgeComponents.DryRunIsCorrect | dpdk-graph/exec/example_apps/connectedcomponents.cpp:54-107 | an empty next set means component minima everywhere: the same labels as the in-memory variant's |
| EdgeComponents.SettledAfterPasses | dpdk-graph/exec/example_apps/connectedcomponents.cpp:92-106 | labels travel one more hop with every two passes |
| EdgeComponents.FinalLabels | dpdk-graph/exec/example_apps/connectedcomponents.cpp:54-107 | twice as many passes as vertices are enough for the loop to stop by itself with the component minima, from any initial data |
| EdgeComponents.ConnectedComponentsProgram.UpdateAt | dpdk-graph/exec/example_apps/connectedcomponents.cpp:54-107 | the in-place update, first-iteration branch included: vertex data, shared cells, task set and task flag end as in the function the run theorems are about |
| Sssp.MinInIsMinimum | dpdk-graph/exec/example_apps/sssp.cpp:80-90 | the running minimum ignores -1 and is the least of the other incoming values, -1 if there are none |
| Sssp.AfterSetup | dpdk-graph/exec/example_apps/sssp.cpp:57-78 | after passes 0 and 1 everything is unreached but the source and its out-edges, in any order and from any data; nothing at all when source 0 is given |
| Sssp.PassRelaxes | dpdk-graph/exec/example_apps/sssp.cpp:79-106 | a pass keeps every value the length of a real walk, worsens none, and brings every vertex to within one link of its predecessors' old values |
| Sssp.ExactAfterPasses | dpdk-graph/exec/example_apps/sssp.cpp:55-109 | after pass k every vertex at most k - 1 links from the source has a value no larger than its distance, and no vertex ever has a value below it |
| Sssp.FinalDistances | dpdk-graph/exec/example_apps/sssp.cpp:55-109 | with more passes than vertices the values are the unit-weight distances, -1 exactly where there is no walk, if and only if the source is not vertex 0 |
| Sssp.QuietPassIsFinal | dpdk-graph/exec/example_apps/sssp.cpp:92-105 | a pass that changes no value proves all values to be the distances |
| Sssp.SsspProgram.UpdateAt | dpdk-graph/exec/example_apps/sssp.cpp:55-109 | the in-place update in its three phases: vertex data and out-edge cells end as in the function the run theorems are about |
| CommunityDetection.SlotRoundTrip | dpdk-graph/exec/example_apps/communitydetection.cpp:51-65 | what one end writes is what the other end reads, for all slots and labels, if and only if the ends differ |
| CommunityDetection.TallyIsPlurality | dpdk-graph/exec/example_apps/communitydetection.cpp:101-131 | a label is the largest of the most frequent ones if and only if it is the one the running maximum over the growing count map ends on |
| CommunityDetection.SyncedIffNoSelfLoops | dpdk-graph/exec/example_apps/communitydetection.cpp:84-147 | after pass 0, in any order, the slots hold their ends' labels whatever they held before, if and only if the graph has no self-loop |
| CommunityDetection.FirstPassData | dpdk-graph/exec/example_apps/communitydetection.cpp:84-93 | pass 0, in any order and on any graph, gives every visited vertex its own id as its label and makes exactly the visited vertices tasks |
| CommunityDetection.UpdateChooses | dpdk-graph/exec/example_apps/communitydetection.cpp:94-147 | an update after the first iteration gives the vertex the largest of its neighbours' most frequent labels, changes no other label, and makes tasks of exactly the linked vertices if the label is new, of none if not |
| CommunityDetection.VisitChooses | dpdk-graph/exec/example_apps/communitydetection.cpp:80-149 | in every run without self-loops, in every pass after the first, each scheduled vertex gets when visited the plurality label its neighbours have at that moment, whether or not the run comes to rest |
| CommunityDetection.UpdateKeeps | dpdk-graph/exec/example_apps/communitydetection.cpp:94-147 | an update keeps the slots in step with the ends and leaves every vertex without its plurality label still to be updated |
| CommunityDetection.DryRunIsStable | dpdk-graph/exec/example_apps/communitydetection.cpp:80-149 | when no tasks remain, every vertex with edges holds the largest of its neighbours' most frequent labels, an isolated one its id |
| CommunityDetection.CommunityDetectionProgram.MostPopular | dpdk-graph/exec/example_apps/communitydetection.cpp:101-131 | the loop over the edges with its mutable count map computes the tally of the labels read |
| CommunityDetection.CommunityDetectionProgram.UpdateAt | dpdk-graph/exec/example_apps/communitydetection.cpp:80-149 | the in-place update: vertex data, label slots, task set and task flag end as in the function of which UpdateChooses and the run theorems say what it does |
| Pipeline.DefaultsFit | MLNX_DPDK-2.1_1.1/MLNX_DPDK-2.1_1.1/app/test-pipeline/init.c:84-98 | the built-in ring and burst sizes meet every condition; an RX ring one entry smaller would not, while TX rings of 65 would |
| Pipeline.PortMasks | MLNX_DPDK-2.1_1.1/MLNX_DPDK-2.1_1.1/app/test-pipeline/runtime.c:84-131 | for every power of two, masking steps through the ports as NextPort does, the exclusive-or with 1 is Peer, and the peer of every port exists if and only if there is more than one port |
| Pipeline.StepKeeps | MLNX_DPDK-2.1_1.1/MLNX_DPDK-2.1_1.1/app/test-pipeline/runtime.c:78-184 | a step of any core keeps the ring and buffer bounds and the line of every port: no packet lost, duplicated or overtaken |
| Pipeline.FifoAlways | MLNX_DPDK-2.1_1.1/MLNX_DPDK-2.1_1.1/app/test-pipeline/runtime.c:78-184 | at every point of every interleaving, what port i received is, in order, what left on port i^1, its buffer, its TX ring, the worker's hand, the RX ring, RX's hand; and the next dequeue fits into the 256 slots |
| PipelineTraffic.PollTakes | MLNX_DPDK-2.1_1.1/MLNX_DPDK-2.1_1.1/app/test-pipeline/runtime.c:84-94 | a poll takes the first packets the NIC offers, as many as a burst may hold, on the polled port alone; an empty one moves on to the next port |
| PipelineTraffic.BurstLeaves | MLNX_DPDK-2.1_1.1/MLNX_DPDK-2.1_1.1/app/test-pipeline/runtime.c:144-183 | with a full burst in the ring, a buffer that is still short is kept and nothing leaves; otherwise all it holds leaves, packet k on the wire if and only if the NIC accepts more than k |
| PipelineTraffic.OthersStay | MLNX_DPDK-2.1_1.1/MLNX_DPDK-2.1_1.1/app/test-pipeline/runtime.c:144-156 | a TX turn without a full burst, or of another port, changes nothing that a port holds or has sent |
| PipelineTraffic.TraceOfRun | MLNX_DPDK-2.1_1.1/MLNX_DPDK-2.1_1.1/app/test-pipeline/runtime.c:78-184 | the runs with traffic written down beside them are the runs of the pipeline |
| PipelineTraffic.TraceIsTrue | MLNX_DPDK-2.1_1.1/MLNX_DPDK-2.1_1.1/app/test-pipeline/runtime.c:78-184 | at every point of every schedule, what a port has received is what the NIC offered when polled, burst by burst, and what its peer has sent is what the NIC accepted of what TX held, in order |
| PipelineTraffic.WireToWire | MLNX_DPDK-2.1_1.1/MLNX_DPDK-2.1_1.1/app/test-pipeline/runtime.c:78-184 | if the NIC takes every burst whole, the wire of port i^1 carries the packets that came in on port i, in order and without a gap, and no more are missing than the rings, the buffer and the hands of the cores can hold |
| Pipeline.WorkerSpinEnds | MLNX_DPDK-2.1_1.1/MLNX_DPDK-2.1_1.1/app/test-pipeline/runtime.c:118-135 | with room in the TX rings the worker leaves its enqueue loop under any fair schedule: what TX rings hold comes in whole grains, so while the worker is blocked TX can dequeue a full burst |
| Pipeline.RxSpinEnds | MLNX_DPDK-2.1_1.1/MLNX_DPDK-2.1_1.1/app/test-pipeline/runtime.c:84-102 | with room in the RX and the TX rings, RX leaves its enqueue loop under any fair schedule |
| Pipeline.RxNeverStuckIffRoom | MLNX_DPDK-2.1_1.1/MLNX_DPDK-2.1_1.1/app/test-pipeline/runtime.c:84-135 | no fair schedule can block RX for ever if and only if the RX ring holds a producer burst and a consumer burst less one; otherwise a fair schedule that does is constructed |
| WorkerBlockade.WorkerNeverStuckIff | MLNX_DPDK-2.1_1.1/MLNX_DPDK-2.1_1.1/app/test-pipeline/runtime.c:118-183 | no fair schedule can block the worker for ever if and only if a TX ring holds a worker burst and a TX burst less their greatest common divisor, or the RX rings cannot hold a worker burst at all; otherwise a fair schedule that does is constructed |
| WorkerBlockade.NoCoreStuckIff | MLNX_DPDK-2.1_1.1/MLNX_DPDK-2.1_1.1/app/test-pipeline/runtime.c:78-184 | no fair schedule can block any core for ever if and only if both kinds of rings have that room |
| PipelineCores.App.RxStep | MLNX_DPDK-2.1_1.1/MLNX_DPDK-2.1_1.1/app/test-pipeline/runtime.c:84-102 | a turn of the RX loop on its own array and rings is the step of the state machine |
| PipelineCores.App.WorkerStep | MLNX_DPDK-2.1_1.1/MLNX_DPDK-2.1_1.1/app/test-pipeline/runtime.c:118-135 | a turn of the worker loop is the step of the state machine |
| PipelineCores.App.TxStep | MLNX_DPDK-2.1_1.1/MLNX_DPDK-2.1_1.1/app/test-pipeline/runtime.c:144-183 | a turn of the TX loop, with its accumulation arrays and counts, the transmit from the front of the array and the loop that frees the rest, is the step of the state machine of which BurstLeaves says what goes out |
| HeaderChecksums.IpSum | MLNX_DPDK-2.1_1.1/MLNX_DPDK-2.1_1.1/app/test-pmd/flowgen.c:103-120 | for a header of any length the deferred folding never reaches 32 bits, both loops end, and the result is the complement of the one's-complement sum |
| HeaderChecksums.RoutinesAgree | MLNX_DPDK-2.1_1.1/MLNX_DPDK-2.1_1.1/app/test-pmd/icmpecho.c:275-294 | on a 20-byte header the two-fold routine agrees with the other one on the zeroed header, except that it writes zero as all ones |
| HeaderChecksums.IpSumIsAccepted | MLNX_DPDK-2.1_1.1/MLNX_DPDK-2.1_1.1/app/test-pmd/flowgen.c:197-198 | a header of any length that gets this checksum passes a receiver's test |
| HeaderChecksums.RecomputedAcceptedIff | MLNX_DPDK-2.1_1.1/MLNX_DPDK-2.1_1.1/app/test-pmd/icmpecho.c:275-294 | a header with the recomputed checksum passes a receiver's test if and only if its option words sum to zero modulo 65535 |
| EchoReply.IcmpReplyValidIff | MLNX_DPDK-2.1_1.1/MLNX_DPDK-2.1_1.1/app/test-pmd/icmpecho.c:504-510 | for every valid request of any length and either byte order the reply's words sum to zero modulo 65535, and the reply is valid if and only if some byte behind the request's checksum is not zero |
| EchoReply.EmptyEchoIsRejected | MLNX_DPDK-2.1_1.1/MLNX_DPDK-2.1_1.1/app/test-pmd/icmpecho.c:504-510 | a concrete valid request whose reply is not valid |
| EchoReply.IpReplyValidIff | MLNX_DPDK-2.1_1.1/MLNX_DPDK-2.1_1.1/app/test-pmd/icmpecho.c:488-503 | the IP step alone: swapping the addresses leaves a header exactly as valid as it was; the multicast branch makes it valid if and only if its options sum to zero |
| EchoReply.ReplyAddresses | MLNX_DPDK-2.1_1.1/MLNX_DPDK-2.1_1.1/app/test-pmd/icmpecho.c:488-503 | the reply header goes to the requester; it comes from the address asked or, if that is a multicast one, from the requester's address with other last two bits, and only then is the checksum rewritten; nothing else in the header changes |
| EchoReply.PacketMacs | MLNX_DPDK-2.1_1.1/MLNX_DPDK-2.1_1.1/app/test-pmd/icmpecho.c:485-487 | in the whole packet: the two MAC addresses change places and the rest of the link header stays |
| EchoReply.PacketAddresses | MLNX_DPDK-2.1_1.1/MLNX_DPDK-2.1_1.1/app/test-pmd/icmpecho.c:488-503 | in the whole packet: destination is the old source, source is the old destination or, for a multicast one, the old source with other last two bits; the first ten bytes of the header stay, and outside the multicast branch the checksum |
| EchoReply.PacketMessage | MLNX_DPDK-2.1_1.1/MLNX_DPDK-2.1_1.1/app/test-pmd/icmpecho.c:504-510 | in the whole packet: type echo reply, the old code, and every byte behind the checksum as it came |
| EchoReply.ReplyHeaderValidIff | MLNX_DPDK-2.1_1.1/MLNX_DPDK-2.1_1.1/app/test-pmd/icmpecho.c:454-510 | for every packet that gets to the rewrite and every header of 20 to 60 bytes, the header left in the buffer by both steps together: as valid as before when addresses are swapped; in the multicast branch valid if and only if the options that came sum to zero modulo 65535 |
| EchoReply.OptionsShieldMessage | MLNX_DPDK-2.1_1.1/MLNX_DPDK-2.1_1.1/app/test-pmd/icmpecho.c:454-510 | with options in the header, the message behind it is left as it was: the rewrite works on the options |
| EchoReply.MulticastOptionsFail | MLNX_DPDK-2.1_1.1/MLNX_DPDK-2.1_1.1/app/test-pmd/icmpecho.c:454-503 | a concrete packet with a valid header of 24 bytes that is taken for an echo request and leaves with an invalid header |
| EchoReply.EchoReplyInPlace | MLNX_DPDK-2.1_1.1/MLNX_DPDK-2.1_1.1/app/test-pmd/icmpecho.c:485-510 | the rewrite in the packet buffer leaves exactly the packet of which PacketMacs, PacketAddresses and PacketMessage say what each field holds, and ReplyHeaderValidIff and IcmpReplyValidIff when it is valid |
| FlowCounter.NothingSkippedOrRepeated | MLNX_DPDK-2.1_1.1/MLNX_DPDK-2.1_1.1/app/test-pmd/flowgen.c:150-231 | over any run of calls with any allocation failures and partial transmits, the j-th packet sent carries flow j modulo n |
| FlowCounter.SendsAllItCan | MLNX_DPDK-2.1_1.1/MLNX_DPDK-2.1_1.1/app/test-pmd/flowgen.c:169-219 | a call sends no more packets than asked for, than there are buffers for and than the NIC takes, and as many as one of the three |
| FlowCounter.FlowGenerator.BackOut | MLNX_DPDK-2.1_1.1/MLNX_DPDK-2.1_1.1/app/test-pmd/flowgen.c:224-228 | the rollback loop ends with the counter in range, moved back by the packets not sent |
| FlowCounter.FlowGenerator.GenerateBurst | MLNX_DPDK-2.1_1.1/MLNX_DPDK-2.1_1.1/app/test-pmd/flowgen.c:169-231 | a call appends to what was sent the next flows in turn, as many as were built and accepted, and leaves the counter behind them |
| MulticastPool.ApplyRefinesSet | MLNX_DPDK-2.1_1.1/MLNX_DPDK-2.1_1.1/app/test-pmd/config.c:2259-2312 | an add or remove does to the pool, seen as a set, what its name says (or nothing, when a needed allocation fails), and no address is held twice |
| MulticastPool.ApplyKeepsOrder | MLNX_DPDK-2.1_1.1/MLNX_DPDK-2.1_1.1/app/test-pmd/config.c:2226-2242 | addresses that stay in the pool stay in order |
| MulticastPool.AddOutcome | MLNX_DPDK-2.1_1.1/MLNX_DPDK-2.1_1.1/app/test-pmd/config.c:2259-2284 | an added address is in the pool afterwards if and only if it was before, the last chunk of 32 had room, or memory could be had; a new one comes last and all others stay |
| MulticastPool.RemoveOutcome | MLNX_DPDK-2.1_1.1/MLNX_DPDK-2.1_1.1/app/test-pmd/config.c:2226-2242 | a removed address is gone; those before it stay where they were, those behind it move up by one |
| MulticastPool.PoolIsSet | MLNX_DPDK-2.1_1.1/MLNX_DPDK-2.1_1.1/app/test-pmd/config.c:2259-2312 | over any sequence of commands the pool is a duplicate-free list of exactly the addresses a set would hold |
| MulticastPool.Port.Extend | MLNX_DPDK-2.1_1.1/MLNX_DPDK-2.1_1.1/app/test-pmd/config.c:2190-2224 | room for one more address unless an allocation was needed and failed; the addresses stay, and the allocation covers the count rounded up to 32 |
| MulticastPool.Port.PoolRemove | MLNX_DPDK-2.1_1.1/MLNX_DPDK-2.1_1.1/app/test-pmd/config.c:2226-2242 | the addresses behind the removed one move up by one, and the pool is null exactly when it is empty |
| MulticastPool.Port.AddAddress | MLNX_DPDK-2.1_1.1/MLNX_DPDK-2.1_1.1/app/test-pmd/config.c:2259-2284 | a new address goes to the end of the contiguous array, which is large enough for the count rounded up; a known one, or a failed allocation, changes nothing |
| MulticastPool.Port.RemoveAddress | MLNX_DPDK-2.1_1.1/MLNX_DPDK-2.1_1.1/app/test-pmd/config.c:2287-2312 | the address is gone from the contiguous array and the others stay in order; an unknown one changes nothing |
| StreamShares.TilesIff | MLNX_DPDK-2.1_1.1/MLNX_DPDK-2.1_1.1/app/test-pmd/config.c:972-1010 | every stream is run by exactly one core and no core runs a stream that is not there, if and only if there are no more cores than streams |
| StreamShares.SharesAreEven | MLNX_DPDK-2.1_1.1/MLNX_DPDK-2.1_1.1/app/test-pmd/config.c:972-1010 | every core has a stream, none has more than one stream more than another, and the larger shares go to the later cores |
| StreamShares.CoreTable.SetupEach | MLNX_DPDK-2.1_1.1/MLNX_DPDK-2.1_1.1/app/test-pmd/config.c:972-1010 | the two loops fill exactly these shares, and the 16-bit running index never wraps |
| StreamSetups.IcmpPollsOnce | MLNX_DPDK-2.1_1.1/MLNX_DPDK-2.1_1.1/app/test-pmd/config.c:1285-1310 | every receive queue of every forwarding port is polled by exactly one stream of exactly one core, which answers on the same port, on the transmit queue of its own number |
| StreamSetups.IcmpCoresIsLeast | MLNX_DPDK-2.1_1.1/MLNX_DPDK-2.1_1.1/app/test-pmd/config.c:1266-1277 | the number of cores is no more than asked for, than the receive queues and than the transmit queues of all ports together, and is one of the three |
| StreamSetups.IcmpTxQueuesExistIff | MLNX_DPDK-2.1_1.1/MLNX_DPDK-2.1_1.1/app/test-pmd/config.c:1266-1297 | cores never share a transmit queue, and all queues used exist if and only if the cores asked for, or the streams, are no more than the transmit queues of a port, or there is one port |
| StreamSetups.IcmpQueueMissing | MLNX_DPDK-2.1_1.1/MLNX_DPDK-2.1_1.1/app/test-pmd/config.c:1266-1297 | two ports of one receive and one transmit queue each and two cores: the second core answers on transmit queue 1, which no port has |
| StreamSetups.SetupIcmpEcho | MLNX_DPDK-2.1_1.1/MLNX_DPDK-2.1_1.1/app/test-pmd/config.c:1258-1311 | the number of cores is the least of three caps, their shares tile the streams, and the k-th stream polls the k-th queue, port by port, and answers on the port it polls and the queue of its core's number |
| StreamSetups.PartnersListedIff | MLNX_DPDK-2.1_1.1/MLNX_DPDK-2.1_1.1/app/test-pmd/config.c:1117-1126 | partner ports are among the listed ones if and only if the topology is a loop, the number of ports is even, or the last port is not reached |
| StreamSetups.RssDisjoint | MLNX_DPDK-2.1_1.1/MLNX_DPDK-2.1_1.1/app/test-pmd/config.c:1112-1145 | streams of different cores poll different receive queues, and while partner ports are among the listed ones send on different transmit queues |
| StreamSetups.RssPollsIff | MLNX_DPDK-2.1_1.1/MLNX_DPDK-2.1_1.1/app/test-pmd/config.c:1083-1146 | the k-th receive queue, port by port, is polled if and only if there are more than k cores, and then by core k alone, which sends on the same queue of the port paired with it, or of the port itself in a loop |
| StreamSetups.RssTxSharedIff | MLNX_DPDK-2.1_1.1/MLNX_DPDK-2.1_1.1/app/test-pmd/config.c:1112-1145 | for every table with distinct listed ports, no two cores share a transmit queue if and only if partner ports are listed, or the entry behind the list is none of the listed ports but the last |
| StreamSetups.RssClearedTableIff | MLNX_DPDK-2.1_1.1/MLNX_DPDK-2.1_1.1/app/test-pmd/testpmd.c:1524-1530 | with the table cleared behind the list and port 0 at its head, no two cores share a transmit queue if and only if partner ports are listed or there is a single port |
| StreamSetups.OddPortsCollide | MLNX_DPDK-2.1_1.1/MLNX_DPDK-2.1_1.1/app/test-pmd/config.c:1117-1145 | three ports of two queues each and five cores, with the default list: the streams of cores 2 and 4 send on the same queue of the same port |
| StreamSetups.SetupRss | MLNX_DPDK-2.1_1.1/MLNX_DPDK-2.1_1.1/app/test-pmd/config.c:1083-1146 | for any number of ports the table holds: each core runs exactly the stream of its own number, the k-th queue, port by port, sent on the same queue of the entry beside it in the table, or of the port itself in a loop |
| PortCommands.RunInvariant | MLNX_DPDK-2.1_1.1/MLNX_DPDK-2.1_1.1/app/test-pmd/testpmd.c:954-1573 | in every run of the port commands: forwarding is on only while every enabled port that is no slave is started, and a started port has nothing left to configure |
| PortCommands.StopAlwaysWorks | MLNX_DPDK-2.1_1.1/MLNX_DPDK-2.1_1.1/app/test-pmd/testpmd.c:1061-1068 | in every reachable state with forwarding on, stopping it succeeds |
| PortCommands.FrozenWhileForwarding | MLNX_DPDK-2.1_1.1/MLNX_DPDK-2.1_1.1/app/test-pmd/testpmd.c:1254-1573 | while forwarding is on no command changes a port, except that a closed slave port may be detached |
| PortCommands.HandlingIff | MLNX_DPDK-2.1_1.1/MLNX_DPDK-2.1_1.1/app/test-pmd/testpmd.c:1278-1394 | one command: a port is in handling afterwards if and only if the command starts it, gets to its receive queues and finds no memory pool, or it was in handling and no device takes its place |
| PortCommands.HandlingInRunIff | MLNX_DPDK-2.1_1.1/MLNX_DPDK-2.1_1.1/app/test-pmd/testpmd.c:1254-1573 | in every run: a port is in handling if and only if some command lost its pool and no device was attached in its place since |
| PortCommands.NoneInHandling | MLNX_DPDK-2.1_1.1/MLNX_DPDK-2.1_1.1/app/test-pmd/testpmd.c:1337-1348 | a run in which no pool is missing leaves no port in handling |
| PortCommands.HandlingIsForGood | MLNX_DPDK-2.1_1.1/MLNX_DPDK-2.1_1.1/app/test-pmd/testpmd.c:1343-1348 | a port left in handling stays so through every sequence of commands until a device is attached in its place, and forwarding cannot be started meanwhile |
| PortCommands.StartAllIff | MLNX_DPDK-2.1_1.1/MLNX_DPDK-2.1_1.1/app/test-pmd/testpmd.c:1254-1409 | with working devices, starting all ports makes all of them started if and only if none that matters is closed or in handling |
| PortCommands.StopThenStart | MLNX_DPDK-2.1_1.1/MLNX_DPDK-2.1_1.1/app/test-pmd/testpmd.c:1254-1452 | stopping and restarting all ports gives back the same ports |
| PortCommands.SyncKeptIff | MLNX_DPDK-2.1_1.1/MLNX_DPDK-2.1_1.1/app/test-pmd/testpmd.c:1515-1567 | a command keeps the list of forwarding ports and its count in step with the enabled ports unless, and only unless, it attaches a device under an id in use, which the driver never hands out |
| PortCommands.ForwardedPortsRun | MLNX_DPDK-2.1_1.1/MLNX_DPDK-2.1_1.1/app/test-pmd/testpmd.c:1522-1532 | in every run whose new devices get free ids: exactly the enabled ports are listed for forwarding, and while forwarding is on each of them is started or a slave |
| PortOutcomes.ClosesIff | MLNX_DPDK-2.1_1.1/MLNX_DPDK-2.1_1.1/app/test-pmd/testpmd.c:1455-1496 | after a close a port is closed if and only if it was, or forwarding is off and it is enabled, stopped and named by id or as one of all; no other port and no other field changes |
| PortOutcomes.StopsIff | MLNX_DPDK-2.1_1.1/MLNX_DPDK-2.1_1.1/app/test-pmd/testpmd.c:1412-1452 | after a stop a port is stopped if and only if it was, or forwarding is off and it is enabled, started and named; no other port and no other field of a port changes |
| PortOutcomes.StopEndsDcb | MLNX_DPDK-2.1_1.1/MLNX_DPDK-2.1_1.1/app/test-pmd/testpmd.c:1419-1429 | a stop ends a DCB test together with its configuration, even for an invalid id, but not while forwarding |
| PortOutcomes.StartsIff | MLNX_DPDK-2.1_1.1/MLNX_DPDK-2.1_1.1/app/test-pmd/testpmd.c:1254-1393 | after a start a port is started if and only if it was, or the command comes to it while it is stopped and neither its configuration nor its start fails; the command comes to it unless it is refused or an earlier port it names fails to configure |
| PortOutcomes.LeftToConfigure | MLNX_DPDK-2.1_1.1/MLNX_DPDK-2.1_1.1/app/test-pmd/testpmd.c:1292-1375 | the device is left to configure exactly if configuring it failed, its queues exactly if that, a transmit queue, or a receive queue refused by the driver before any missing pool failed; a port the command does not come to is left as it is |
| PortOutcomes.StartKeepsRest | MLNX_DPDK-2.1_1.1/MLNX_DPDK-2.1_1.1/app/test-pmd/testpmd.c:1276-1277 | apart from statuses and the two reconfigure flags a start only turns the DCB test on, exactly if it is configured and the command is not refused |
| PortOutcomes.StartCodeIs | MLNX_DPDK-2.1_1.1/MLNX_DPDK-2.1_1.1/app/test-pmd/testpmd.c:1265-1408 | the command returns -1 exactly while forwarding is on or, for a valid id, when there is no room for the streams or some port it names fails to configure; 0 otherwise, also for an invalid id |
| PortOutcomes.AttachLeaves | MLNX_DPDK-2.1_1.1/MLNX_DPDK-2.1_1.1/app/test-pmd/testpmd.c:1498-1538 | an attached port is enabled and stopped with everything left to configure, no other port changes, the list holds the enabled ports in increasing order and zeros behind them, and the 8-bit count goes up by one; a refused attach changes nothing |
| PortOutcomes.DetachLeaves | MLNX_DPDK-2.1_1.1/MLNX_DPDK-2.1_1.1/app/test-pmd/testpmd.c:1540-1573 | a detach disables the port exactly when it is enabled, closed and released by the driver, and makes list and count anew; otherwise it changes nothing |
| PortOutcomes.ForwardingStartsIff | MLNX_DPDK-2.1_1.1/MLNX_DPDK-2.1_1.1/app/test-pmd/testpmd.c:954-988 | forwarding is on afterwards if and only if it was, or every enabled port that is no slave is started and a DCB test finds more than one core and all listed ports in DCB mode; which refusal comes when, and that nothing else changes |
| PortOutcomes.ForwardingStopsIff | MLNX_DPDK-2.1_1.1/MLNX_DPDK-2.1_1.1/app/test-pmd/testpmd.c:1061-1068 | forwarding is off afterwards if and only if it was, or every enabled port that is no slave is started; nothing else changes |
| PortConsole.Console.constructor | MLNX_DPDK-2.1_1.1/MLNX_DPDK-2.1_1.1/app/test-pmd/testpmd.c:1966-1979 | the first ports enabled and listed, the others free: a start from which the run theorems apply |
| PortConsole.Console.StartOne | MLNX_DPDK-2.1_1.1/MLNX_DPDK-2.1_1.1/app/test-pmd/testpmd.c:1283-1393 | the start of one port with all its failure exits, through the loops over its queues, ends as specified and tells whether the command ends there |
| PortConsole.Console.Start | MLNX_DPDK-2.1_1.1/MLNX_DPDK-2.1_1.1/app/test-pmd/testpmd.c:1254-1409 | refused while forwarding, for an unknown port or too few streams; otherwise each selected port in turn is started as far as its driver lets it, up to the first port that ends the command, and a DCB configuration comes into force; the code returned tells which |
| PortConsole.Console.Stop | MLNX_DPDK-2.1_1.1/MLNX_DPDK-2.1_1.1/app/test-pmd/testpmd.c:1412-1452 | refused while forwarding; otherwise the selected started ports, and no others, are stopped, and a DCB test is given up, also for an unknown port |
| PortConsole.Console.Close | MLNX_DPDK-2.1_1.1/MLNX_DPDK-2.1_1.1/app/test-pmd/testpmd.c:1455-1496 | refused while forwarding; otherwise the selected stopped ports, and no others, are closed: the table ends as in the step of which ClosesIff says what it closes |
| PortConsole.Console.Attach | MLNX_DPDK-2.1_1.1/MLNX_DPDK-2.1_1.1/app/test-pmd/testpmd.c:1498-1538 | refused while forwarding or without a device; otherwise the port is enabled, stopped, waits for both reconfigurations, and the list of forwarding ports and its count are made anew |
| PortConsole.Console.Detach | MLNX_DPDK-2.1_1.1/MLNX_DPDK-2.1_1.1/app/test-pmd/testpmd.c:1540-1573 | only an enabled and closed port that the driver releases is disabled, and the list of forwarding ports and its count are made anew; nothing else changes |
| PortConsole.Console.BeginForwarding | MLNX_DPDK-2.1_1.1/MLNX_DPDK-2.1_1.1/app/test-pmd/testpmd.c:954-988 | each refusal in its order, and forwarding on exactly when there is none |
| PortConsole.Console.EndForwarding | MLNX_DPDK-2.1_1.1/MLNX_DPDK-2.1_1.1/app/test-pmd/testpmd.c:1061-1179 | each refusal in its order, and forwarding off exactly when there is none |
| TunnelHeaders.InnerSmall | MLNX_DPDK-2.1_1.1/MLNX_DPDK-2.1_1.1/app/test-pmd/csumonly.c:171-329 | wherever the inner header lies, it begins at most 112 bytes into the packet and behind the outer one, and no length exceeds 60 |
| TunnelPackets.OuterFound | MLNX_DPDK-2.1_1.1/MLNX_DPDK-2.1_1.1/app/test-pmd/csumonly.c:131-203 | in every packet built from a link header, with or without a VLAN tag, an IPv4 header of any length or an IPv6 header, and a payload: the offset, ethertype, length and protocol found are those it was built with, and the length of a TCP header behind it |
| TunnelPackets.VxlanFound | MLNX_DPDK-2.1_1.1/MLNX_DPDK-2.1_1.1/app/test-pmd/csumonly.c:205-241 | in every packet built as a frame in VXLAN in UDP in a frame: the inner header found is the one it was built with, behind 8 bytes of UDP and 8 of VXLAN, if and only if the port is 4789 or the NIC flags a tunnel |
| TunnelPackets.GreIpFound | MLNX_DPDK-2.1_1.1/MLNX_DPDK-2.1_1.1/app/test-pmd/csumonly.c:243-286 | in every packet built with IPv4 or IPv6 in GRE, with or without a key: the inner header found is the one behind the GRE header |
| TunnelPackets.GreFrameFound | MLNX_DPDK-2.1_1.1/MLNX_DPDK-2.1_1.1/app/test-pmd/csumonly.c:286-299 | in every packet built with a frame in GRE, with or without a key: the inner header found is the one in that frame |
| TunnelPackets.GreRefused | MLNX_DPDK-2.1_1.1/MLNX_DPDK-2.1_1.1/app/test-pmd/csumonly.c:251-297 | no inner header is found behind GRE if and only if a flag other than the key flag is set or the protocol is none of the three |
| TunnelPackets.EncapsulatedFound | MLNX_DPDK-2.1_1.1/MLNX_DPDK-2.1_1.1/app/test-pmd/csumonly.c:304-329 | in every packet built with IP in IP the inner header found, by its own version, is the one it was built with |
| TunnelPackets.EncapsulatedRefused | MLNX_DPDK-2.1_1.1/MLNX_DPDK-2.1_1.1/app/test-pmd/csumonly.c:311-314 | no inner header is found there if and only if the version is neither 4 nor 6 |
| ChecksumOffsets.OffloadInfo.ParseEthernet | MLNX_DPDK-2.1_1.1/MLNX_DPDK-2.1_1.1/app/test-pmd/csumonly.c:170-203 | with or without a VLAN tag, the record describes the layer-3 header behind the Ethernet header |
| ChecksumOffsets.OffloadInfo.ParseGre | MLNX_DPDK-2.1_1.1/MLNX_DPDK-2.1_1.1/app/test-pmd/csumonly.c:243-300 | for every flag and protocol the record describes the inner header, or is unchanged; the outer fields are the former inner ones |
| ChecksumOffsets.OffloadInfo.Dissect | MLNX_DPDK-2.1_1.1/MLNX_DPDK-2.1_1.1/app/test-pmd/csumonly.c:539-583 | the recomputed inner layer-3 pointer is the offset at which the inner header was parsed, for plain, VXLAN, GRE and IP-in-IP packets |
| ChecksumOffsets.LengthsLeadToInner | MLNX_DPDK-2.1_1.1/MLNX_DPDK-2.1_1.1/app/test-pmd/csumonly.c:608-636 | in the split, merged and plain branch the length fields add up to the offsets of the inner layers 3 and 4, and no bit field loses a bit |
| ChecksumOffsets.HistoryForgotten | MLNX_DPDK-2.1_1.1/MLNX_DPDK-2.1_1.1/app/test-pmd/csumonly.c:535-583 | the lengths do not depend on the packets before; the outer protocol does, exactly for IP-in-IP |
| ChecksumOffsets.RecordIs | MLNX_DPDK-2.1_1.1/MLNX_DPDK-2.1_1.1/app/test-pmd/csumonly.c:535-583 | the record holds the protocols and lengths of the header to checksum and, for a tunnel, of the outer header, whose protocol IP-in-IP does not record |
| ChecksumOffsets.FillMeta | MLNX_DPDK-2.1_1.1/MLNX_DPDK-2.1_1.1/app/test-pmd/csumonly.c:610-636 | after the dissection of any packet the lengths lead to its headers, whatever the record and the buffer held before; the outer fields change in the split branch alone |
| ChecksumOffsets.ProcessPacket | MLNX_DPDK-2.1_1.1/MLNX_DPDK-2.1_1.1/app/test-pmd/csumonly.c:539-636 | one packet through the parsers and the length fields: the recomputed pointer, the sum of the lengths and the offset the header was read at are the same |
| TopMerge.MergeCorrectIff | dpdk-graph/exec/src/ceMaster.cpp:266-306 | for all descending lists the n printed entries are descending and no entry left in a queue beats the last one, if and only if there are n positive entries or what the first list adds is no smaller than what any other has left |
| TopMerge.NonNegativeSuffices | dpdk-graph/exec/src/ceMaster.cpp:269-276 | lists without negative values meet that condition |
| TopMerge.NegativeValuesFail | dpdk-graph/exec/src/ceMaster.cpp:288-296 | two lists of one negative value each for which the smaller one is printed |
| TopMerge.NothingLargerMissed | dpdk-graph/exec/src/ceMaster.cpp:213-306 | when every list is its worker's top n, no vertex of any worker that is not printed has a larger value than the last one printed |
| TopMerge.Merge | dpdk-graph/exec/src/ceMaster.cpp:266-306 | the loops print n entries, in every turn the front that the scan ends on, pop just those entries, and never look at an empty queue |

## Left out

- Engine.InMemoryEngine.ExecUpdates: `repeat_updates` is taken to return false; updates of a pass are atomic and in some order, without threads, data races or the branch for vertices that are not parallel-safe.
- Engine.InMemoryEngine.ExecUpdatesInMemoryMode: without the early stop at `last_iteration`, the counters of updates and work, and the callbacks around an iteration; takes the program as a function, where the loops in `EngineRuns` call its class.
- Shards, intervals, files, and the variants `run` and `crucial_updates` of the loop.
- `bitset_scheduler`: sets stand for the bitsets; adding a task to the current iteration, removing tasks and adding all are not used by the four programs.
- EdgeComponents.ConnectedComponentsProgram.UpdateAt: without the writes to the convergence bitset `prev_bitset`, which nothing in the modelled loop reads.
- Sssp.SsspProgram.UpdateAt: without that bitset; values are integers where the program stores floats, the source is a parameter, and its flag, set already without a scheduler, is not set again.
- Vertex ids are unbounded.
- `communitydetection`: that it comes to rest is not claimed; the program bounds it only by a number of iterations.
- `pagerank`: sums of floats, for which nothing exact can be stated.
- `determine_next_window`: it leaves out the cost of the last vertex, so a window has no bound to prove.
- PipelineCores.App.WorkerStep: one size for the worker's reads and writes, which are equal in the built-in settings; the rings have no watermark.
- The inside of `rte_ring`, `rte_mbuf`, `rte_malloc` and the drivers; what a driver answers is a parameter.
- `icmpecho`: the ARP branch, the loop over a burst and the parsing in front of the rewrite; a burst index of 8 bits is not modelled.
- `flowgen`: the packet contents other than the flow and the header checksum; the counter is shared between cores, one caller at a time is modelled.
- The notice to the driver after each change of the multicast pool, and its identity check of ports.
- StreamSetups.SetupRss: without the NUMA stride of the port index.
- `simple_fwd_config_setup`, and the DCB setup with its finite queue table.
- PortConsole.Console.Close: the extra test for a port that is closed already, whose effect is that of the test behind it.
- Commands that set the reconfigure flags, slave flags or DCB flags of ports, or the list of forwarding ports by hand; they are what a run starts with.
- PortConsole.Console.Start: the check of the links after the last port.
- PortConsole.Console.BeginForwarding: a forwarding list that points outside the port table, which the default list never does.
- PortConsole.Console.Detach: the id that stands for all ports, for which the program looks outside its table.
- Checksum values in `csumonly`, and the address changes; offsets and lengths are modelled.
- TopMerge.Merge: values are integers for both value types, since only comparisons matter; the lookup of reordered vertex ids is left out.
- The wire messages between master and workers, sockets, timing, the RDMA paths, displays and command-line parsing.
