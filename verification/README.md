# Proofs about the flashnext bench, offload, probe, sharding and receipt code

A Dafny model of the parts of the repository whose correctness rests on an argument rather than on a run:
two-party byte protocols, an all-or-nothing offload budget, GPU-to-host publication, a measurement window and
its memo, a barrier-released worker pool, tensor-parallel sharding guards, and a two-root receipt store with
its gate. `dafny verify dfyconfig.toml` checks everything. `Division.dfy`, `Decimals.dfy`, `Bits.dfy` and
`Optional.dfy` hold what several modules share.

## The modules

**Two programs over two bounded pipes** (`Duplex.dfy`). A side is a list of one-byte puts and gets; a step moves
any number of bytes the pipe allows, so every fragmentation and interleaving is a run. A schedule is a list of
phases (one way, the other way, or an exchange in which both write and then read). A schedule never sticks exactly
when in every exchange one half fits the pipe; every run is bounded, and a run that cannot go on has delivered
every byte and left both pipes empty.

- `Usb4Schedule.dfy`: the first-light bench. `write_all` and `read_exact` are loops over a stream object; the two
  mirrored schedules are methods proved to perform exactly their side of one list of phases. With the bench's
  constants, 64 KiB per direction is enough and one byte less is not.
- `OpenBarrier.dfy`: the wire drops bytes sent before the far end opens, and either side may abort at any time.
  Under the barrier the opens are ordered and nothing is lost, exactly because the coordinator speaks first;
  without it the handshake can be lost and both ends wait for ever.
- `SocketTransport.dfy`: the TCP bench. The server is driven only by the bytes it receives; it is proved to do, on
  a whole session, exactly the mirrored schedule, over any pipe of at least one byte. The eight-digit header
  carries a body exactly when the body is under 10^8 bytes.

**The bench around its one open** (`Usb4Guards.dfy`, `Usb4Resolution.dfy`, `Usb4Bound.dfy`, `Usb4Run.dfy`). What a
node resolves, by the searches of the code and by position in the node's tables; whether a different machine
answers, whether a live serve shares the hardware, whether the two ends agree; then one run, and any number of
retries. In a fixed topology a cleared run has both ends on one cable, at most one open is attempted per side over
all completed runs, a run says ok exactly when it went well on both sides, and the gate accepts every receipt a run
writes unless it says ok over a clock that stood still. A topology is fixed where it has to be: the address of the
worker's netdev is on one netdev only, and the live neighbour entries of our own netdev are true far ends.

**The offload budget** (`OffloadBudget.dfy`) in exact rationals, and the store loop its documentation describes.

**Publication and measurement.** `Doorbell.dfy` has threads, per-thread fence, block barrier, flag, and a host that
polls or gives up and drains. `SiteCache.dfy` and `AllreduceTimer.dfy` are the timer: its object-identity memo, its
wrapper, its window, its log. `WorkerPool.dfy` and `Fingerprint.dfy` are the load client's pool and hash input.

**Sharding** (`TpSharding.dfy`, `ShardPlan.dfy`). What the divisibility checks mean: slicing commutes with block
dequantisation, heads stay with their groups, experts partition, bytes are conserved.

**Receipts** (`Json.dfy`, `ReceiptStore.dfy`, `ReceiptGate.dfy`, `ReceiptLife.dfy`). The store compares modulo time
stamps and places durably first; the gate grades both roots. Together: mirror, discard the worktree, and the gate
exits as before.

## What turned out otherwise than documented

- The mirror can bring an older receipt back. A crash between the two placements loses "only the disposable" copy
  until the next mirror, which copies the older receipt still in the repository over the newer durable one
  (`ReceiptStore.CrashThenMirrorRestoresTheOlder`); a worktree discarded for a checkout with an older receipt does
  the same (`ReceiptStore.DiscardThenMirrorRestoresTheOlder`). `ReceiptStore.MirrorKeepsIff` is the exact condition.
- Quarantined receipts can redden the gate. `_names` calls `.get` on whatever the file holds, so a quarantined file
  that parses to something truthy that is no object ends the gate with an uncaught error
  (`ReceiptGate.QuarantinedListReddens`); `ReceiptGate.QuarantineNeverDecidesIff` is the exact condition.
- An unparseable receipt in the repository is a violation, is not mirrored, and so is no violation any more once
  the worktree is gone (`ReceiptLife.UnparsedViolationVanishesIff`). `ReceiptLife.CleanBeforeIff` says exactly what a
  clean gate after the discard is worth.
- A durable copy without a ts is kept over a repository copy with one, since they are equal modulo ts; once the
  worktree is gone the gate misses the key (`ReceiptLife.BareCopyTurnsTheExit`). A kept copy is graded as the other
  was, under every bounds table, exactly when the two agree on having a ts or fail anyway, and agree in the data a bound
  would see down to the last ts (`ReceiptLife.GradedAlikeIff`, and over the whole disk `ReceiptLife.EveryVerdictKeptIff`).
- A divergent completion does not always change its fingerprint: over text tokens the hash input is ambiguous exactly
  where `Fingerprint.TextsCollideIff` says. Integer ids are never ambiguous.
- The floor of the store budget is documented as what keeps cursors from rewinding. Less is enough for that: the
  largest block less what it shares with another's (`OffloadBudget.NoRewindIff`), so one finest block less where sizes
  nest (`OffloadBudget.NoRewindNestedIff`); it is progress that needs all of it (`OffloadBudget.LoopLeavesZeroIff`).
- A probe of the worker that times out raises out of the coordinator, which then leaves no receipt, so the next retry
  starts afresh; nothing has been opened by then (`Usb4Run.RunCoordinator`).
- The barrier alone does not prevent loss: a schedule whose peer wrote first would lose its first byte under it
  (`OpenBarrier.PeerFirstLoses`). The shipped schedule does not.
- The residency prediction is no upper bound in general: three equal experts over two ranks exceed it, and so do two of
  unequal size, one a rank (`ShardPlan.ThreeExpertsOverTwoRanks`, `ShardPlan.TwoUnequalExperts`). It covers every rank
  exactly when the ranks' stretches of the header weigh the same (`ShardPlan.PredictionCoversIffBalanced`).

## Model

| member | source | states |
|---|---|---|
| Duplex.Balanced | bench/usb4stream-bench.py:884-980 | over any list of phases each side reads exactly as many bytes as the other writes |
| Duplex.RunInv | bench/usb4stream-bench.py:853-868 | wherever a run stops, what was received, in flight and unsent is what the schedule fixed; steps are bounded by bytes |
| Duplex.SomeoneMoves | bench/usb4stream-bench.py:884-980 | between two phase boundaries, if exchanges fit, one of the two sides can move |
| Duplex.InvNotStuck | bench/usb4stream-bench.py:884-980 | no state a fitting schedule can be in has both sides blocked |
| Duplex.FinishedIsClean | bench/usb4stream-bench.py:975-980 | when both sides have finished, both pipes are empty and each side holds exactly the other's bytes |
| Duplex.BoundaryA | bench/usb4stream-bench.py:884-980 | a side that stands at a boundary alone has already received all the phases before send it, and no more |
| Duplex.BoundaryIsClean | bench/usb4stream-bench.py:884-980 | where both sides stand at the same boundary between phases, both pipes are empty and each holds exactly what the phases before sent it |
| Duplex.EveryRunCompletes | bench/usb4stream-bench.py:884-980 | every run of a fitting schedule is bounded, never sticks, and can only rest complete and drained |
| Duplex.RunToEnd | bench/usb4stream-bench.py:884-980 | from any reachable state of a fitting schedule the end is reachable |
| Duplex.OverfullExchangeSticks | bench/usb4stream-bench.py:211-216 | an exchange with neither half fitting the pipe has a reachable state with both sides blocked |
| Duplex.NeverSticksIffAllFit | bench/usb4stream-bench.py:211-216 | no reachable state is stuck if and only if in every exchange one half fits |
| Usb4Schedule.Stream.OsWrite | bench/usb4stream-bench.py:857 | one write call takes any non-empty part of its slice |
| Usb4Schedule.Stream.OsRead | bench/usb4stream-bench.py:865-867 | one read call gives any non-empty part of what is coming, or nothing once the peer has closed |
| Usb4Schedule.Stream.WriteAll | bench/usb4stream-bench.py:853-857 | however the kernel splits it, the whole buffer is written, in order, once |
| Usb4Schedule.Stream.ReadExact | bench/usb4stream-bench.py:860-868 | reads exactly the size asked for, or fails having met the end of the stream inside it |
| Usb4Schedule.Rounds | bench/usb4stream-bench.py:892-931 | a loop of equal write-then-read (or answering) rounds performs that round so many times |
| Usb4Schedule.RoundsPerSize | bench/usb4stream-bench.py:897-931 | the loop over sizes performs the rounds of each size in turn |
| Usb4Schedule.SendChunks | bench/usb4stream-bench.py:933-938 | the chunk loop writes the chunk the given number of times |
| Usb4Schedule.CoordinatorThroughput | bench/usb4stream-bench.py:933-947 | sends the whole total in chunks, then reads the same total |
| Usb4Schedule.PeerThroughput | bench/usb4stream-bench.py:973-976 | reads the whole total, then sends it in chunks |
| Usb4Schedule.RunCoordinatorSchedule | bench/usb4stream-bench.py:884-952 | performs exactly the coordinator's side of the phases, or stops inside it when the peer closes |
| Usb4Schedule.RunPeerSchedule | bench/usb4stream-bench.py:955-980 | performs exactly the peer's side of the same phases, or stops inside it |
| Usb4Schedule.ScheduleSides | bench/usb4stream-bench.py:884-980 | the two programs as written, transfer by transfer, are the two sides of one list of phases |
| Usb4Schedule.ScheduleNeverSticksIff | bench/usb4stream-bench.py:211-216 | for any constants, the two schedules never jam if and only if the pipe holds the largest exchange |
| Usb4Schedule.FirstLightNeedsExactly64KiB | bench/usb4stream-bench.py:208-220 | with the shipped constants the bound is 64 KiB, and it is tight |
| Usb4Schedule.ScheduleRunsComplete | bench/usb4stream-bench.py:884-980 | every run of a schedule whose exchanges fit ends with each side holding the other's bytes and empty pipes |
| Usb4Schedule.BufferIsSound | bench/usb4stream-bench.py:1018-1025 | the one payload buffer is long enough for every transfer of the schedule |
| OpenBarrier.WireInv | bench/usb4stream-bench.py:1123-1162 | in every run under the barrier, aborts included, the opens are ordered and nothing has been lost |
| OpenBarrier.BarrierOrdersEverything | bench/usb4stream-bench.py:1077-1089 | peer open before marker before coordinator open before any byte; no loss; what is received is a prefix of what is sent |
| OpenBarrier.PeerFirstLoses | bench/usb4stream-bench.py:955-960 | a peer that wrote before reading would lose its first byte even under the barrier |
| OpenBarrier.NoLossIffCoordinatorSpeaksFirst | bench/usb4stream-bench.py:1123-1162 | the barrier loses nothing in any run if and only if the peer does not write first |
| OpenBarrier.BarrierRunsComplete | bench/usb4stream-bench.py:1340-1351 | every run is bounded, and one without aborts rests only complete, delivered and drained |
| OpenBarrier.WithoutBarrierHandshakeSticks | bench/usb4stream-bench.py:223-230 | without the barrier some run loses the whole handshake and leaves both sides waiting |
| OpenBarrier.FirstLightSpeaksFirst | bench/usb4stream-bench.py:888-890 | the shipped schedule begins with the coordinator, and without the barrier would jam over a pipe of any capacity |
| SocketTransport.FrameRoundTripIff | bench/socket-transport-bench.py:67-87 | a frame is taken off the stream exactly, whatever follows, if and only if its body is under 10^8 bytes |
| SocketTransport.ServeIsCausal | bench/socket-transport-bench.py:133-177 | more input only extends what the server does |
| SocketTransport.ServeWaits | bench/socket-transport-bench.py:133-177 | the server stops only to wait for bytes it does not have |
| SocketTransport.ServeCommand | bench/socket-transport-bench.py:146-173 | a framed command decodes to what was sent and is carried out |
| SocketTransport.ServerStaysInStep | bench/socket-transport-bench.py:133-177 | fed a whole session, the data-driven server performs exactly the mirrored schedule |
| SocketTransport.NextActionIsDecidedByReceivedBytes | bench/socket-transport-bench.py:133-177 | in any state of a run the server's next action follows from the bytes it has received so far |
| SocketTransport.SessionFits | bench/socket-transport-bench.py:205-277 | no operation has an exchange, so any capacity of at least one byte will do |
| SocketTransport.SessionCompletes | bench/socket-transport-bench.py:205-277 | any session under any interleaving and fragmentation is bounded, never jams, and rests only done and drained, each end holding all the other sent |
| SocketTransport.EveryOperationEndsClean | bench/socket-transport-bench.py:205-277 | for any split of the operations and any run, an end that is back from the first part has received exactly what the other sends in it, and with both back both pipes are empty at a frame boundary |
| SocketTransport.RecvExact | bench/socket-transport-bench.py:72-82 | fills exactly the first n bytes of the reused buffer in place and leaves the rest |
| SocketTransport.EchoOnce | bench/socket-transport-bench.py:152-155 | one echo sends back what was received and leaves the remaining rounds to do |
| SocketTransport.EchoLoop | bench/socket-transport-bench.py:152-155 | the echo loop does the rounds it was told to |
| SocketTransport.Carry | bench/socket-transport-bench.py:146-173 | one command is carried out and the rest of the input left for the next |
| SocketTransport.RunServer | bench/socket-transport-bench.py:133-177 | the server does a prefix of what its input commits it to, and all of it when it returns |
| SocketTransport.SendZeros | bench/socket-transport-bench.py:250-261 | the chunked sender sends exactly the total, last short chunk included |
| SocketTransport.ClientTx | bench/socket-transport-bench.py:250-261 | sends the total and reads the acknowledgement |
| SocketTransport.ClientRx | bench/socket-transport-bench.py:264-277 | reads exactly the total and acknowledges |
| SocketTransport.OpSides | bench/socket-transport-bench.py:205-277 | the client's side of an operation is its framed command followed by the operation's transfers |
| SocketTransport.PerformOp | bench/socket-transport-bench.py:205-277 | each client operation performs its side of the operation's phases |
| Usb4Guards.GuardIsSymmetric | bench/usb4stream-bench.py:642-692 | the mismatch guard passes one way exactly when it passes the other, and passing means same label and interlocked hop ids |
| Usb4Guards.RefusalIsExact | bench/usb4stream-bench.py:1208-1283 | a refusal has exactly one reason, and excludes going ahead and being ended by a probe that raises |
| Usb4Guards.Process.ServeCheck | bench/usb4stream-bench.py:740-797 | says whether a live serve forbids the cable and keeps what was recorded |
| Usb4Guards.Process.Preconditions | bench/usb4stream-bench.py:1208-1283 | goes ahead only with every check passed and both devices recorded, refuses with the first reason, or is ended by a probe that raises, exactly then; opens nothing |
| Usb4Guards.ResolvedHolds | bench/usb4stream-bench.py:397-439 | a resolved end's address is held by its own netdev |
| Usb4Guards.ClearedMeansSameCable | bench/usb4stream-bench.py:507-556 | if the peer netdev's address is held once on the worker and the live neighbours of our netdev are true far ends, a cleared run has the peer's netdev at the far end of ours, hop ids interlocked |
| Usb4Guards.TwinsAreCleared | bench/usb4stream-bench.py:507-556 | two hosts with loopbacks, a LAN and a stranger on it are cleared and meet those conditions |
| Usb4Guards.ClearedMeansServeIsSafe | bench/usb4stream-bench.py:740-797 | with a serve up, a cleared run is on cable B and both routers are fully measured and differ |
| Usb4Guards.PeerIsNotOurselves | bench/usb4stream-bench.py:507-556 | whoever was reached is held by no netdev of this node |
| Usb4Guards.RailPeerFacts | bench/usb4stream-bench.py:442-460 | the octet swap never names its own argument, stays in the /30, and undoes itself exactly for hosts .1 and .2 |
| Usb4Guards.PeerReachableIff | bench/usb4stream-bench.py:507-556 | a peer counts as reached exactly when it is nobody on this node, the ping was answered, and its first neighbour entry is usable and not under our own link-layer address |
| Usb4Guards.ClearedMeansAnswered | bench/usb4stream-bench.py:1241-1250 | a cleared run pinged its peer, was answered, and has its entry under a link-layer address that is not our own |
| Usb4Resolution.RailNetIff | bench/usb4stream-bench.py:149 | an address is on the rail exactly when its first 30 bits are those of 10.99.0.0 |
| Usb4Resolution.CableAIff | bench/usb4stream-bench.py:344-349 | cable A is the first netdev with an address on the rail |
| Usb4Resolution.CableBIff | bench/usb4stream-bench.py:397-439 | cable B is the one Thunderbolt netdev with a carrier besides the rail's, if there is exactly one and it has an address |
| Usb4Resolution.PeerAddressIff | bench/usb4stream-bench.py:487-504 | on the rail the peer is the other host of the /30, elsewhere the first live station heard on the netdev that is not this node, or nobody |
| Usb4Resolution.ResolutionIff | bench/usb4stream-bench.py:598-639 | a device, a missing group or no service: exactly as far as the chain got |
| Usb4Resolution.ResolvedSays | bench/usb4stream-bench.py:598-639 | what a resolved end says is what its node's tables say of that netdev |
| Usb4Resolution.GuardPassesIff | bench/usb4stream-bench.py:642-692 | the guard passes exactly when label, hop ids both ways and every known peer address agree |
| Usb4Resolution.ServeBlocksIff | bench/usb4stream-bench.py:723-797 | no serve stands in the way exactly when none is seen anywhere, or the run is on cable B behind a measured router that is not the serving rail's |
| Usb4Resolution.ClearedIff | bench/usb4stream-bench.py:1208-1283 | a run is cleared exactly when no serve is in the way, both ends resolve, the peer answers on our netdev and on the control wire, and the ends interlock |
| Usb4Resolution.RefusesIff | bench/usb4stream-bench.py:1208-1283 | whichever check fails first decides the one reason given |
| Usb4Bound.SizesPresentIff | scripts/receipts-verify.py:114-119 | the size check passes exactly when every demanded size has an entry |
| Usb4Bound.TypedOutcomePasses | scripts/receipts-verify.py:97-102 | a skip or abort passes exactly when its reason is more than white space |
| Usb4Bound.EvidenceIff | scripts/receipts-verify.py:105-136 | the checks on an ok receipt pass exactly when both percentiles are in every cell and every demanded size has one, rates run both ways, every open counted is 1, both devices are named, ring and throttling recorded, the loop python |
| Usb4Bound.BoundPassesIff | scripts/receipts-verify.py:75-136 | a receipt's data passes exactly when it records the serve state and is a typed skip or abort with a reason, or ok with all that evidence |
| Usb4Run.Cells | bench/usb4stream-bench.py:897-931 | the loop over sizes leaves one full cell per size, under the size's decimal form, holding that size's own figures |
| Usb4Run.OkPassesIff | scripts/receipts-verify.py:103-136 | the gate passes an ok receipt if and only if the schedule measured every demanded size and the clock moved in both throughput phases |
| Usb4Run.FirstLightCovers | scripts/receipts-verify.py:114-119 | the shipped schedule measures every size the gate demands |
| Usb4Run.TypedReceiptPasses | scripts/receipts-verify.py:75-102 | any receipt with a typed skip or abort and a recorded serve state passes the bound |
| Usb4Run.AbortPasses | bench/usb4stream-bench.py:1010-1011 | every abort type is accepted, whatever phase and error it names |
| Usb4Run.SkipPasses | bench/usb4stream-bench.py:238-245 | each of the four skip types is accepted |
| Usb4Run.GateFollowsTheBound | scripts/receipts-verify.py:287-309 | whatever the other bounds, the whole gate has nothing against a receipt the bound passes |
| Usb4Run.Opener.Open | bench/usb4stream-bench.py:830-846 | the first call counts before it attempts; any later call attempts nothing |
| Usb4Run.RunPeer | bench/usb4stream-bench.py:1048-1101 | opens, once, if and only if the cable resolves here and to the device named; the marker if and only if that open succeeds; ok if and only if it is marked and finishes |
| Usb4Run.Finish | bench/usb4stream-bench.py:1376-1389 | writes ok if and only if the peer reports ok with one open, a typed abort otherwise; the figures in the receipt are the clock's either way; and says when the gate accepts it |
| Usb4Run.RunCoordinator | bench/usb4stream-bench.py:1320-1389 | from no receipt: ok if and only if the run is cleared, its schedule finishes, the report survives, and the peer resolves to the probed device and finishes; a refusal gives its reason and opens nothing; an abort names phase and error; ours opens if and only if both are through the barrier; a probe that raises leaves everything as it was, as a banked receipt does |
| Usb4Run.Retry | bench/usb4stream-bench.py:270-288 | over any number of completed runs, at most one peer launched and one open a side in all; the receipt is that of the first run whose probe did not raise, and says ok if and only if that run went well on both sides |
| Usb4Run.TwinsSayOk | bench/usb4stream-bench.py:1380-1389 | between two such hosts, with a peer that finishes and a report that survives, the run says ok |
| OffloadBudget.StoreBatchTokens | container/rootfs/fn_offload_batch.py:145-160 | unbounded exactly on an unsized tier, no usable group or a fraction switched off; otherwise never below the coarsest block |
| OffloadBudget.PromoteBlockBudget | container/rootfs/fn_offload_batch.py:119-142 | unbounded exactly on an unsized tier or a fraction switched off; otherwise between one and the tier |
| OffloadBudget.BudgetIsTheMost | container/rootfs/fn_offload_batch.py:156-160 | a number of tokens is within the budget if and only if its keys fit the share or one coarsest block holds it |
| OffloadBudget.OneMoreIsTooMany | container/rootfs/fn_offload_batch.py:156-160 | one token more than the budget makes more keys than the share |
| OffloadBudget.ShareIsTheMost | container/rootfs/fn_offload_batch.py:156 | a number of blocks is within the share if and only if it is at most one or within the fraction of the tier |
| OffloadBudget.StoreBudgetIsTheMost | container/rootfs/fn_offload_batch.py:87-160 | the same of the resolver: within the budget if and only if the keys fit blocks that may be spent, or one coarsest block holds them |
| OffloadBudget.PromoteBudgetIsTheMost | container/rootfs/fn_offload_batch.py:119-142 | within the promotion budget if and only if at most one block or within the fraction of the tier |
| OffloadBudget.UsableIff | container/rootfs/fn_offload_batch.py:148 | the usable sizes are the positive ones, each as often as it was given |
| OffloadBudget.FractionRead | container/rootfs/fn_offload_batch.py:75-84 | an explicit fraction silences the environment; otherwise a number there is the fraction, and anything else leaves the default |
| OffloadBudget.LaggardGap | container/rootfs/fn_offload_batch.py:107-111 | with cursors aligned the laggard trails the shared position by less than one coarsest block |
| OffloadBudget.StepNeverRewinds | container/rootfs/fn_offload_batch.py:107-114 | with the floor kept, no cursor goes back and short of the cap every laggard group advances |
| OffloadBudget.TargetAdvances | container/rootfs/fn_offload_batch.py:107-114 | a step's target is at or past the shared position and, short of the cap, a whole budget past the laggard |
| OffloadBudget.TurnGains | container/rootfs/fn_offload_batch.py:11-34 | one turn moves the shared position by nothing if refused, to the token count if not short, by more than the slack otherwise |
| OffloadBudget.RunStaysAligned | container/rootfs/fn_offload_batch.py:11-34 | over any run, refusals included, cursors stay floors of one position, never rewind, never pass the tokens |
| OffloadBudget.RunCompletes | container/rootfs/fn_offload_batch.py:30-34 | in any run, refusals and a growing token count included, every accepted step that stops short gains at least the slack over the floor, so their number is bounded by the tokens gained |
| OffloadBudget.EnoughStepsStoreEverything | container/rootfs/fn_offload_batch.py:30-34 | in any run with more accepted steps than tokens missing, some step has stored all there was at its time |
| OffloadBudget.FixedCountIsStored | container/rootfs/fn_offload_batch.py:30-34 | at a token count that stands still, as many accepted steps as tokens missing store everything, however many refusals come between |
| OffloadBudget.DrainedTierStoresEverything | container/rootfs/fn_offload_batch.py:30-34 | with the resolver's budget and the floor not biting, a tier that drains before every step accepts every step, and such a run stores all there was |
| OffloadBudget.AskNeverExceedsShare | container/rootfs/fn_offload_batch.py:156-160 | when the floor does not bite, the keys asked for, summed over the groups from their own cursors, stay within the share, from any state |
| OffloadBudget.AskNeverExceedsTier | container/rootfs/fn_offload_batch.py:87-116 | so with the resolver's budget a drained tier never refuses |
| OffloadBudget.AskBoundWithinShare | container/rootfs/fn_offload_batch.py:156-160 | when the floor does not bite, the whole budget over all groups fits the share it was cut from |
| OffloadBudget.AskWithinShareIff | container/rootfs/fn_offload_batch.py:156-160 | for any sizes, budget and share: no state and token count makes one step ask for more than the share if and only if the whole blocks of the budget, summed over the groups, are within it |
| OffloadBudget.LoopLeavesZeroIff | container/rootfs/fn_offload_batch.py:107-114 | from the start the laggard leaves zero if and only if the budget reaches the coarsest block |
| OffloadBudget.NoRewindIff | container/rootfs/fn_offload_batch.py:107-114 | for any block sizes no aligned state is ever rewound if and only if the budget reaches, for every two groups, the block of the one less the greatest common divisor of both |
| OffloadBudget.NoRewindNestedIff | container/rootfs/fn_offload_batch.py:107-114 | with nested block sizes no aligned state is ever rewound if and only if the budget reaches the coarsest block less the finest |
| OffloadBudget.UnderTheFloorACursorRewinds | container/rootfs/fn_offload_batch.py:111-114 | an instance: groups of 128 and 16 tokens at position 120 under a budget of 14 |
| OffloadBudget.FloorBitesIffFirstAskIsTooBig | container/rootfs/fn_offload_batch.py:158-160 | with nested block sizes the first ask exceeds its share if and only if the floor bites |
| OffloadBudget.FloorMayBiteHarmlessly | container/rootfs/fn_offload_batch.py:158-160 | an instance where the floor bites and nothing is over-asked: groups of 3 and 2 tokens, a share of two |
| OffloadBudget.UnboundedAskRatchets | container/rootfs/fn_offload_batch.py:18-24 | unbounded, an ask beyond the tier is refused at every later token count and never shrinks |
| Doorbell.EachWordOnce | probes/hip_atomic_doorbell_soak.cpp:44-50 | the strided loops of all threads write every payload word exactly once |
| Doorbell.GatesDiffer | probes/hip_atomic_doorbell_soak.cpp:49 | in one word, two gates have the same pattern if and only if their numbers agree modulo 2^32 |
| Doorbell.GatesOf32BitsDiffer | probes/hip_atomic_doorbell_soak.cpp:49 | no two 32-bit gate numbers share a pattern in any word |
| Doorbell.WordsDiffer | probes/hip_atomic_doorbell_soak.cpp:49 | one gate's pattern is the same in two words if and only if their indices agree modulo 2^32 |
| Doorbell.StaleWordCounts | probes/hip_atomic_doorbell_soak.cpp:155-163 | a checked word that still holds another gate's pattern counts a mismatch and ends the check, one that holds its own does neither |
| Doorbell.RungMeansComplete | probes/hip_atomic_doorbell_soak.cpp:51-55 | with the invariant, and every word stored by the ringing block, a rung flag means every word is visible with its pattern |
| Doorbell.RunKeepsInv | probes/hip_atomic_doorbell_soak.cpp:42-56 | the invariant holds over every run of one block, or of more over a payload the first one covers |
| Doorbell.FlagImpliesPayload | probes/hip_atomic_doorbell_soak.cpp:118-165 | one block, any thread count and payload (or more over a payload the first covers), any run: a host that sees its gate reads its pattern in every word; no mismatch ever; every finished gate counted once |
| Doorbell.TwoBlocksTear | probes/hip_atomic_doorbell_soak.cpp:122-126 | with two or more blocks some run shows the host a torn payload without a missed gate |
| Doorbell.CanTearIff | probes/hip_atomic_doorbell_soak.cpp:122-126 | some run over some payload shows a torn word if and only if there are two or more blocks and more words than one block has threads |
| Doorbell.TwoBlocksOf256Tear | probes/hip_atomic_doorbell_soak.cpp:122-126 | so it does for two blocks of the probe's own size over a zeroed payload |
| SiteCache.Walker.Walk | container/rootfs/fn_allreduce_timer.py:240-259 | the walk with its memo updated in place, frame by frame, up to its depth |
| SiteCache.WalkAgrees | container/rootfs/fn_allreduce_timer.py:240-259 | while the memo holds its objects alive, the memoised walk answers as the plain one and keeps the memo sound and bounded |
| SiteCache.MemoIsTransparent | container/rootfs/fn_allreduce_timer.py:187-193 | after any history of allocation, collection, id reuse, eviction and reset the memo changes no answer and never outgrows its bound |
| SiteCache.CollectingARememberedObjectMisleads | container/rootfs/fn_allreduce_timer.py:187-193 | were the objects not held, a reused id would be answered for the dead object |
| AllreduceTimer.Timer.Record | container/rootfs/fn_allreduce_timer.py:310-315 | appends one row and closes the window at the limit |
| AllreduceTimer.Timer.Wrapped | container/rootfs/fn_allreduce_timer.py:329-372 | the caller gets what the original returns or raises on the caller's input, whatever the window, probes and memo do; log and memo move as the window and the walk prescribe |
| AllreduceTimer.Timer.Reset | container/rootfs/fn_allreduce_timer.py:300-307 | back to the empty state, the memo emptied too |
| AllreduceTimer.WindowCount | container/rootfs/fn_allreduce_timer.py:310-357 | k returning calls with no failed probe leave exactly min(max(0, k - START), max(1, CALLS)) rows |
| AllreduceTimer.RowsAreTheKeptCalls | container/rootfs/fn_allreduce_timer.py:329-372 | in every run, failed probes and raising calls included, the rows are those of the kept calls in order, each with its own split: entry to detection, detection to exit, last exit to entry |
| AllreduceTimer.KeptIff | container/rootfs/fn_allreduce_timer.py:310-357 | a call is kept if and only if it is past the skip, probed, returns, and fewer such calls than the window takes come before it |
| AllreduceTimer.SplitTotals | container/rootfs/fn_allreduce_timer.py:329-372 | the detect total of a run is what the kept calls spent from entry to detection, the exchange total what they spent from there to exit |
| AllreduceTimer.SplitTelescopes | container/rootfs/fn_allreduce_timer.py:329-372 | in every run the three parts over all rows, with the time of unlogged calls, telescope to last exit minus the start of the window |
| AllreduceTimer.CleanSplitTelescopes | container/rootfs/fn_allreduce_timer.py:329-372 | with no failed probe nothing is missing from that sum |
| AllreduceTimer.BucketsPartition | container/rootfs/fn_allreduce_timer.py:446-470 | the three per-layer buckets hold every row exactly once |
| AllreduceTimer.SelectedAreOfKind | container/rootfs/fn_allreduce_timer.py:446-470 | a bucket holds exactly the rows of its kind |
| AllreduceTimer.TallyFlags | container/rootfs/fn_allreduce_timer.py:439-443 | yes, no and unknown are counted and add up to all |
| AllreduceTimer.Installer.Wrap | container/rootfs/fn_allreduce_timer.py:318-328 | wraps an attribute that exists and is not wrapped yet, and keeps what undoing would restore |
| AllreduceTimer.Installer.Uninstall | container/rootfs/fn_allreduce_timer.py:405-415 | puts every wrapped attribute back, last first |
| AllreduceTimer.WrapAllThenUninstall | container/rootfs/fn_allreduce_timer.py:405-415 | whatever was wrapped in whatever order, uninstalling restores every attribute |
| WorkerPool.Deal | bench/fn-stream-client.py:405-408 | the dealing loop gives worker w the indices w, w + c, w + 2c and so on |
| WorkerPool.DealtExactly | bench/fn-stream-client.py:405-408 | a worker's list holds exactly the indices that fall to it, each once, in order |
| WorkerPool.RunInv | bench/fn-stream-client.py:415-434 | the accounting of attempts, results and errors holds over every interleaving |
| WorkerPool.PoolDiscipline | bench/fn-stream-client.py:410-434 | no request starts before all workers and the releaser are at the barrier, at most `concurrency` are in flight, no index is attempted twice |
| WorkerPool.JoinAccountsForEveryRequest | bench/fn-stream-client.py:434-445 | at join every index was attempted once and has a result or one logged error, never both; successes and errors add up to the requests |
| WorkerPool.PoolNeverStalls | bench/fn-stream-client.py:415-434 | until the join some step is possible |
| WorkerPool.EveryStepCounts | bench/fn-stream-client.py:415-434 | every step brings the join nearer, so every run is bounded |
| WorkerPool.RunsAreBounded | bench/fn-stream-client.py:410-434 | every run has at most three steps a worker, two a request and one for the releaser, and a run to the join exactly these |
| Fingerprint.HashInput | bench/fn-stream-client.py:272-283 | the loop feeds the tagged, separated tokens in order; an empty sequence feeds nothing |
| Fingerprint.DecimalDenotes | bench/fn-stream-client.py:276-281 | the text form of an id denotes it in decimal, with a minus sign for a negative one and no leading zero |
| Fingerprint.IdsDecodeUniquely | bench/fn-stream-client.py:259-283 | two id sequences feed the hash the same bytes only if they are the same |
| Fingerprint.IdsNeverMatchTexts | bench/fn-stream-client.py:262-263 | an id sequence never feeds what a text sequence feeds |
| Fingerprint.TextsCanCollide | bench/fn-stream-client.py:280-282 | text sequences can collide: two texts and their joint reading as one feed the same |
| Fingerprint.TextsCollideIff | bench/fn-stream-client.py:259-283 | some other text sequence feeds the same bytes if and only if there are two tokens or more, or the one token holds that seam |
| Fingerprint.SeamlessTextsDecodeUniquely | bench/fn-stream-client.py:259-283 | text sequences none of whose tokens holds a separator followed by the text tag feed the same bytes only if they are the same |
| TpSharding.RowSliceCommutes | host/fn-tp2-guards.py:435-485 | on the leading dimension, for every rank, dequantising the slice is slicing the dequantised tensor |
| TpSharding.ColSliceCommutes | host/fn-tp2-guards.py:435-485 | the same on the trailing dimension |
| TpSharding.BoundariesWholeIff | host/fn-tp2-guards.py:435-485 | rank boundaries are block edges if and only if the per-rank width is whole blocks |
| TpSharding.NeighbourScaleIff | host/fn-tp2-guards.py:435-485 | some element gets a neighbour's scale if and only if the share starts inside a block and runs past its end |
| TpSharding.MisalignedShareMixesScales | host/fn-tp2-guards.py:435-485 | so a misaligned share of at least one block mixes scales |
| TpSharding.CheckA6 | host/fn-tp2-guards.py:417-500 | the check passes exactly when no tensor is bad and both walks saw some |
| TpSharding.A6Iff | host/fn-tp2-guards.py:417-500 | the check holds if and only if every scale grid is the one the block size makes, every sliced dimension divides by the ranks, no rank boundary cuts a block of an FP8 tensor, and there was something to look at |
| TpSharding.A6MeansSlicingCommutes | host/fn-tp2-guards.py:417-500 | a passing A6 makes slicing commute with dequantising for every sliced FP8 tensor with scales and every rank |
| TpSharding.GdnOkIsGroupsOk | host/fn-tp2-guards.py:406-415 | the GDN check and the attention check ask for the same thing |
| TpSharding.GroupsStayWhole | host/fn-tp2-guards.py:366-377 | a passing A4 or A5 gives each rank's heads exactly its own groups, by the global map shifted |
| TpSharding.NoStraddleIff | host/fn-tp2-guards.py:366-377 | no group straddles a rank boundary if and only if the groups divide by the rank count |
| TpSharding.RankOfHead | host/fn-tp2-guards.py:366-377 | a head's rank is its group's rank |
| ShardPlan.ExpertStacks | host/fn-tp2-guards.py:156-171 | the stacks found are those with an expert tensor, each with exactly its ids |
| ShardPlan.MakePlan | host/fn-tp2-guards.py:231-262 | the plan's lists hold the tensors placed there, in order; no plan exactly when a stack has fewer experts than ranks |
| ShardPlan.PlanHeader | host/fn-tp2-guards.py:156-262 | stacks counted and plan made from one header: the counts are those of the distinct ids it shows |
| ShardPlan.PickedIff | host/fn-tp2-guards.py:231-262 | a tensor is in one list only, as often as in the header |
| ShardPlan.ListsFollowTheHeader | host/fn-tp2-guards.py:231-262 | the table list holds exactly the table tensors of the header, the replicated list those neither table nor expert, each rank's list its stretches of the experts, each as often as in the header |
| ShardPlan.RankOwnsItsRange | host/fn-tp2-guards.py:231-262 | rank r owns exactly experts r*n/tp up to (r+1)*n/tp of every evenly divided stack |
| ShardPlan.HeaderRanges | host/fn-tp2-guards.py:231-262 | read off the header alone: with contiguous ids and counts the ranks divide, rank r owns exactly the ids r*n/tp up to (r+1)*n/tp of every stack |
| ShardPlan.RankIsItsStretches | host/fn-tp2-guards.py:231-262 | whether or not the stacks divide, a rank's bytes are those of its stretch of every stack in the header, the last rank's running to the end |
| ShardPlan.TableBytes | host/fn-tp2-guards.py:231-262 | the bytes at the table are those of the header's table tensors |
| ShardPlan.SharedBytes | host/fn-tp2-guards.py:231-262 | the replicated bytes are those of the tensors that are neither table nor expert |
| ShardPlan.ResidencyFromTheHeader | host/fn-tp2-guards.py:595-599 | the prediction is an even share of the expert bytes, plus the shared bytes, plus the KV pool, all read off the header, and a rank holds its stretches in place of the even share; the table counts in neither |
| ShardPlan.BytesConserved | host/fn-tp2-guards.py:231-262 | every byte is in the table, replicated or at exactly one rank |
| ShardPlan.PredictionCoversIffBalanced | host/fn-tp2-guards.py:568-600 | the prediction under-states no rank if and only if every rank's stretches of the header weigh the same, and then it is exact |
| ShardPlan.ThreeExpertsOverTwoRanks | host/fn-tp2-guards.py:568-600 | three equal experts over two ranks: the last rank is over the prediction by one |
| ShardPlan.TwoUnequalExperts | host/fn-tp2-guards.py:568-600 | one expert a rank but of unequal size: the heavier rank is over the prediction |
| ShardPlan.PredictionIsExact | host/fn-tp2-guards.py:568-600 | with contiguous, even, uniform stacks the prediction is each rank's exact bytes plus the KV pool |
| ShardPlan.HeaderPredictionIsExact | host/fn-tp2-guards.py:568-600 | and with experts of one weight a stack the prediction is each rank's exact bytes plus the KV pool |
| ReceiptStore.StripTsLeavesNone | scripts/receipt-restore.py:48-53 | no ts key is left at any depth |
| ReceiptStore.StripTsKeepsTheRest | scripts/receipt-restore.py:48-53 | a document without ts is left alone, so stripping twice is stripping once |
| ReceiptStore.StripTsDecides | scripts/receipt-restore.py:48-53 | stripped documents are equal if and only if the documents agree everywhere but under ts |
| ReceiptStore.Store.PlaceOne | scripts/receipt-restore.py:62-77 | one placement changes one path of one root, and only if it says something else there |
| ReceiptStore.Store.Write | scripts/receipt-restore.py:140-162 | places durably, then in the repository, in that order, and exits 0, 2 or with an error as the receipt decides |
| ReceiptStore.Store.MirrorOne | scripts/receipt-restore.py:124-136 | one receipt of the repository is placed durably if it parses and is not refused |
| ReceiptStore.Store.Mirror | scripts/receipt-restore.py:112-137 | the loop places each listed receipt durably, counts exactly those it wrote, and never touches the repository |
| ReceiptStore.WriteLands | scripts/receipt-restore.py:140-162 | a complete write leaves both roots saying the receipt |
| ReceiptStore.DurableFirst | scripts/receipt-restore.py:140-162 | stopped anywhere, a write has changed the repository's copy only if the durable one already says the receipt |
| ReceiptStore.RestampSameWhere | scripts/receipt-restore.py:80-87 | receipts that differ only in ts belong at the same place |
| ReceiptStore.RestampChangesNothing | scripts/receipt-restore.py:62-77 | writing again with a fresh ts changes no byte in either root |
| ReceiptStore.MirrorAt | scripts/receipt-restore.py:112-137 | what a mirror leaves at any one durable path, for every listing |
| ReceiptStore.MirrorKeepsIff | scripts/receipt-restore.py:112-137 | a mirror overwrites a durable receipt if and only if the repository offers one that says something else |
| ReceiptStore.MirrorIsIdempotent | scripts/receipt-restore.py:22-27 | mirroring twice is mirroring once, byte for byte |
| ReceiptStore.DurableSaysTheLastPlaced | scripts/receipt-restore.py:112-162 | over any history of writes and mirrors cut anywhere and replaced worktrees, each durable file says the last receipt placed there and no other changes |
| ReceiptStore.UndisturbedKeepsTheLastWritten | scripts/receipt-restore.py:112-162 | from agreeing roots, complete writes and mirrors keep every durable file saying the last receipt written |
| ReceiptStore.CrashThenMirrorRestoresTheOlder | scripts/receipt-restore.py:29-31 | a write cut between its copies over an older receipt is undone by the next mirror |
| ReceiptStore.DiscardThenMirrorRestoresTheOlder | scripts/receipt-restore.py:112-137 | so is a complete write once its worktree is discarded for an older checkout |
| ReceiptGate.FirstWinsIsFirst | scripts/receipts-verify.py:184-192 | the first root that has a name supplies its receipt |
| ReceiptGate.FirstWinsIsSupplied | scripts/receipts-verify.py:184-192 | every graded name was supplied by the first root that has it |
| ReceiptGate.Collect | scripts/receipts-verify.py:184-204 | the accumulating loops over roots and files compute exactly that choice, for graded and quarantined files alike |
| ReceiptGate.GradeOne | scripts/receipts-verify.py:287-309 | one receipt is counted clean, counted bad, or raises, as its fields and its matching bounds decide |
| ReceiptGate.FineIff | scripts/receipts-verify.py:287-309 | a receipt is fine if and only if it is an object with step, ts and a status other than fail, and every bound whose prefix begins its step is met by its data |
| ReceiptGate.CrashIff | scripts/receipts-verify.py:287-309 | grading raises if and only if the text does not decode, the document is no object, or a bound that concerns the step raises |
| ReceiptGate.GradeAll | scripts/receipts-verify.py:285-309 | the walk raises, counts and collects names as each receipt decides, in any order |
| ReceiptGate.ListFailed | scripts/receipts-verify.py:317-321 | listing the quarantine raises exactly on a truthy document that is no object |
| ReceiptGate.ListingCrashesIff | scripts/receipts-verify.py:215-221 | listing raises if and only if some quarantined file holds a document that is neither an object nor falsy |
| ReceiptGate.Expected | scripts/receipts-verify.py:231-251 | nothing is missing exactly when every required name is present |
| ReceiptGate.PresentIff | scripts/receipts-verify.py:215-251 | a required name is present if and only if some graded file that parses is called after it or says it as its step |
| ReceiptGate.Requested | scripts/receipts-verify.py:254-271 | the required set is the non-empty names given, each once |
| ReceiptGate.Gate | scripts/receipts-verify.py:274-324 | exits 0 if and only if nothing raises, the patch parses, every graded receipt is fine and every required name is present; 1 if something raises; 2 otherwise |
| ReceiptGate.QuarantineNeverDecidesIff | scripts/receipts-verify.py:310-321 | the quarantine leaves the exit status alone if and only if grading raises anyway or listing it does not raise |
| ReceiptGate.QuarantinedObjectsAreSilent | scripts/receipts-verify.py:310-321 | any two quarantines whose listing does not raise are the same to the gate |
| ReceiptGate.QuarantinedListReddens | scripts/receipts-verify.py:215-221 | one quarantined file holding a list turns a clean gate into an error |
| ReceiptGate.ShadowedReceiptIsIgnored | scripts/receipts-verify.py:184-192 | what a later root says under a name an earlier root has never matters |
| ReceiptGate.DurableSurvivorsCount | scripts/receipts-verify.py:10-14 | a receipt that survives only in the durable root counts as it did in the repository |
| ReceiptLife.MirrorThenDiscardKeepsTheExit | scripts/receipt-restore.py:15-27 | mirror, then discard the worktree: the gate exits as before, if every graded receipt of the repository parses and every copy the mirror keeps is interchangeable with the repository's |
| ReceiptLife.TopIff | scripts/receipt-restore.py:80-87 | a receipt belongs directly under the root if and only if it did not fail and its name has no slash; a failed one belongs in the quarantine under the same name |
| ReceiptLife.PlacedIff | scripts/receipt-restore.py:80-87 | a receipt is placed if and only if it is an object and a name is given or its step is non-empty text; a name given counts as its step would |
| ReceiptLife.PassingIsGraded | scripts/receipt-restore.py:140-162 | after a complete write of a receipt that did not fail, both roots grade it, under a file whose stem is its name |
| ReceiptLife.FailedIsQuarantined | scripts/receipt-restore.py:140-162 | a failed one is in both quarantines, and what either root grades is as it was |
| ReceiptLife.WrittenIsPresent | scripts/receipt-restore.py:140-162 | so a required name whose receipt was just written and did not fail is present |
| ReceiptLife.GradedAlikeIff | scripts/receipts-verify.py:287-309 | two receipts equal modulo ts get the same verdict under every bounds table if and only if they agree on having a ts or fail for another reason, and, where the step is text, have the same data |
| ReceiptLife.EveryVerdictKeptIff | scripts/receipt-restore.py:62-77 | every graded receipt keeps its verdict through mirror and discard, under every bounds table, if and only if every copy the mirror keeps is interchangeable with the repository's |
| ReceiptLife.DiscardForgetsTheUnparsed | scripts/receipt-restore.py:112-137 | with nothing assumed of what parses, the gate exits as if the receipts that do not had not been there |
| ReceiptLife.StampedGradeAlike | scripts/receipts-verify.py:287-309 | receipts equal modulo ts that each carry a ts at the top and none below get the same verdict from every bounds table |
| ReceiptLife.StampedAreKeptAlike | scripts/receipt-restore.py:48-53 | receipts stamped at the top and nowhere below are always interchangeable |
| ReceiptLife.CleanBeforeIff | scripts/receipt-restore.py:112-137 | with nothing assumed of what parses, and kept copies interchangeable: clean before if and only if clean after and every graded receipt of the repository parses |
| ReceiptLife.UnparsedViolationVanishesIff | scripts/receipt-restore.py:127-128 | where some receipt does not parse the gate is not clean before, and is clean after if and only if it would be clean without those |
| ReceiptLife.BareCopyTurnsTheExit | scripts/receipt-restore.py:62-77 | a durable copy that lacks only its ts is kept by the mirror, and a clean gate then reports a violation |
| ReceiptLife.UnparsedViolationVanishes | scripts/receipt-restore.py:127-128 | an instance: an unparseable receipt's violation is gone with the worktree |

## Left out

- Write errors, signals and alarms in the transfer loops: `OpenBarrier` has them as aborts at any point; the stream
  class knows only the peer closing.
- One step of `Duplex` may cross the boundary between two transfers of a side, which a real call does not; the
  theorems hold of more runs than the programs have.
- Devices, ssh, subprocesses, sysfs and configfs are records of what they would read (`Usb4Guards.Node`); a probe
  answers with the worker's own resolution, or not at all, or raises. Other calls that could raise before the launch,
  such as a missing `ip`, are not modelled. Message texts are shortened.
- Usb4Run.Retry: counts completed runs; a process killed between its open and its receipt leaves nothing behind, and
  the next run opens again.
- Usb4Bound.Usb4stream: when one cell lacks a percentile and another is no object, Python's answer depends on the
  order of the entries; the model calls it a violation. Both are non-zero exits.
- The other six bound checkers of the gate are parameters; the theorems hold for any table. A step that is not text
  matches no bound, because no prefix begins like the text form of another JSON value.
- JSON text, SHA-256 and git: a parser is any function from text to an optional document, NaN is not modelled, true
  and 1 are one value as Python's comparisons have it. A torn single write is not modelled.
- ReceiptStore.Store.Mirror: takes the directory listing as given; names are not normalised, and an unreadable file
  is not told apart from an unparseable one.
- `restore` in scripts/receipt-restore.py, which needs a HEAD map and only undoes changes of ts.
- ReceiptGate.Requested: splitting at commas and trimming happen before it.
- Rounding of floating-point numbers, everywhere: times, fractions and budgets are reals. A NaN fraction is left out.
- The engine behind the offload budget is not in the repository; the loop modelled is the one its documentation
  states.
- The classification of a layer is a fixed property of its object, read once; the regular expressions over tensor
  names are fields of the tensor.
- ReceiptLife.MirrorThenDiscardKeepsTheExit: both roots without quarantine, which `ReceiptGate` shows not to matter
  for objects. The exit can also stay the same because another receipt fails either way; what is exact is each verdict.
- Doorbell and WorkerPool are step relations over all interleavings, not loops: threads that fail to start, a broken
  barrier and the probe's latency statistics are not in them.
- AllreduceTimer.Timer.Wrapped: a probe that fails does so before it walks the frames; the original is a function of
  its input.
- AllreduceTimer: writing the receipt, percentiles and the CSV are not modelled.
- Assertions S2 and S3 compare lists and digests; bench/run-matrix.sh, the gloo bench, container and Nix files and
  the report tables would add only easy members.
