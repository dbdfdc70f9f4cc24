# Entropy Hunt: a verified model

Entropy Hunt coordinates a swarm of drones that search a grid: they claim cells, settle contested
claims by an auction put to a vote, share what they know of the grid, watch each other's heartbeats
and hand the cells of silent drones to others. This project models the decisive steps in Dafny and
proves what the design promises of them over every input and every run.

`dafny verify dfyconfig.toml` checks everything.

## The parts

| file | what it models |
|---|---|
| `Voronoi.dfy`, `Partition.dfy` | the breadth-first search that divides the grid among the drones, the partitions and their boundaries |
| `Auction.dfy` | the choice of the next cell, and the auction with its fallbacks for the losers |
| `Consensus.dfy` | the vote on a contested auction: majority, quorum, window of seen votes |
| `Certainty.dfy`, `MapSync.dfy` | the certainty map, its merges, snapshots and deltas, the HTTP merger |
| `Drones.dfy`, `StartingPositions.dfy`, `PeerSearch.dfy` | one drone: assignment, movement, where it starts, how long a search takes |
| `Rounds.dfy`, `SwarmRuns.dfy`, `DoubleBooking.dfy` | assignment rounds and whole runs of the swarm: who holds which cell, and a run in which two drones do |
| `Heartbeats.dfy`, `FailureDetector.dfy` | heartbeats and the declaration of silent drones |
| `Simulation.dfy` | the simulation object itself, method by method down to `Tick`, proved to perform only the steps of `SwarmRuns` and `FailureDetector` |
| `ClaimLedger.dfy`, `ClaimSteps.dfy`, `ClaimRuns.dfy`, `ClaimManager.dfy` | the claim manager of a peer: three redundant indexes, round numbers, lifetimes, returning and silent peers |
| `ClaimSafety.dfy`, `PeerWitness.dfy` | when a pass over claims keeps a peer's view free of double bookings; two runs that do not end as one might expect |
| `Windows.dfy`, `Mailboxes.dfy`, `SeenWindow.dfy`, `Mesh.dfy` | the mesh buses: bounded inboxes, polling by pattern, the window of seen message ids |
| `Console.dfy` | the console engine's iterated auction |
| `Basics.dfy`, `Sorting.dfy` | coordinates, distances, sets and sorted lists |

## How the model represents the system

- Ids of drones, peers and voters are integers that stand for the rank of the id string; claim ids
  likewise. Times are integers (milliseconds), certainties are reals.
- The entropy of a cell is an arbitrary real per cell, so what is proved of selection and auction holds
  for any entropy function and any map contents.
- Euclidean distances are compared by their squares, in integers. Two distances count as equal when the
  squares are equal; the source compares floating-point square roots with a tolerance.
- Published certainties: `round(x, 4)` is rounding of a real to four decimals, halves to even.
- A contest id is the triple of round, cell and time; a nonce is a parameter. Message ids stamped by a
  bus and ids given by a publisher are kept apart.
- Vote threads, timeouts and lost messages become an arbitrary list of polls with arbitrary votes. Each
  locked region is one step.
- What other parts supply is a parameter: the peers' maps and search results in the simulation, the
  merged map in the claim manager, packets read from the network in the peer bus.
- The order in which a dictionary or set is walked is arbitrary, except where the source sorts.

## Findings

Some things one might expect do not hold. Each finding below names the concrete run or input that shows
it, where there is one, and the statement that says for all inputs exactly when the expectation holds.

- The two priority queues of the simulation hand out a cell without asking who holds it. From the swarm
  as constructed, a drone drops out, another claims its cell, and the release queue then books the cell
  a second time (`LateReclaimDoubleBooks`, a run of eight steps). One step is safe exactly when its cell
  is free (`PriorityExact`), a whole assignment pass exactly when the cells at the fronts of the queues
  are pairwise different and held by nobody, which shows before the pass (`Simulation.PassSafeExactly`).
- The claim manager of a peer resolves the claims of a pass cell by cell. A loser may fall back to a cell
  that another claim of the same pass then wins (`FallbackTakesContestedCell`, a run of three claims heard
  and one pass). One contest is safe exactly when no working drone outside it holds the cell
  (`SettlingSafeExactly`), a pass exactly when that is so of each contest at its turn
  (`ClaimSafety.PassSafeExactly`). When all contested cells are free at first, the pass is safe on every
  map exactly when no contest with losers precedes a contest for a cell that nobody holds yet
  (`PassSafeOnAllMaps`).
- A round is ignored exactly when its number is remembered (`IgnoredExactly`), so two peers that use one
  number for different rounds ignore each other's (`SameNumberIgnored`).
- A drone is released by a published round at most once in a peer's life. In a run of claim, silence,
  return, claim, silence the second silence releases nothing (`SecondSilenceReleasesNothing`). A drone
  found silent is released exactly when it is another one, alive on record, holds a cell and was never
  released before (`ReleasedOnceExactly`).
- A receiver that lets its copy of a peer's map decay stamps it with its own time and then ignores deltas
  that are older than the stamp: a concrete one in `ReceiverDecayLosesDelta`, exactly which in
  `DeltaSurvivesDecay`.
- Each search also sends its cell unrounded. A receiver may so hold more than the row published last says
  (`RawPassesRow`), exactly when rounding took something off (`RawPassesRowExactly`); to four decimals the
  two agree (`SnapshotAndDeltasSuffice`).
- The vote never changes anybody's assignment, whatever votes arrive: it can only change the order in
  which assignments are listed (`VotesKeepAssignments`). Below the quorum a round still decides as soon as
  a single new vote has arrived, and reports a vote of every peer, cast or not: with two peers and one
  vote in `TwoPeersOneVote`. It reports votes it has received exactly when more than half of the peers
  were heard as new voters (`ResolveClaims`, `CollectedExactly`), as two of three in `ThreePeersTwoVotes`.
- Publishing a message under an id that is still in the window breaks the window; under any other id it
  does not (`AdmittedExactly`).
- A cell below the completion level whose loss per tick is less than the whole is completed eventually
  exactly when the gain per tick exceeds the decay at the completion level (`CompletesExactly`).

## Model

| member | source | states |
|---|---|---|
| Voronoi.OwnershipGrid | auction/voronoi.py:23-64 | the queue-driven search ends with every cell owned by its brute-force owner, or by nobody when no seed is inside; every claimed cell is queued exactly once and there are at most size² of them |
| Voronoi.OwnerUnique | auction/voronoi.py:23-64 | a cell has only one brute-force owner, so the search result is determined |
| Voronoi.BestWins | auction/voronoi.py:27-62 | the least (distance, rank) label is that of the nearest seed, smaller ids winning ties |
| Voronoi.HeadIsLeast | auction/voronoi.py:48-62 | when a label is popped, every cell still unclaimed is at least one step farther from its owner: the queue never has to reorder |
| Voronoi.FrontierBefore | auction/voronoi.py:48-62 | on the way from any unclaimed cell to its owner some cell of the same owner waits in the queue |
| Voronoi.NeighbourLabel | auction/voronoi.py:52-62 | an unclaimed neighbour of the popped cell has exactly the label handed on |
| Voronoi.NeighbourKeepsLabel | auction/voronoi.py:52-62 | a claimed neighbour is never overwritten |
| Voronoi.SeedKeepsCell | auction/voronoi.py:34-46 | two seeds on one cell leave it with the smaller id |
| Voronoi.PlantSeeds | auction/voronoi.py:34-46 | the state before the search: exactly the seeds' cells are claimed, each for the smallest id |
| Voronoi.ExpandHead | auction/voronoi.py:49-62 | one turn of the loop claims exactly the unclaimed neighbours, with their best labels |
| Voronoi.Flood | auction/voronoi.py:48-62 | the loop ends, and then no reachable cell is unclaimed |
| Voronoi.BestTowardWinner | auction/voronoi.py:52-62 | the neighbour one step nearer to a cell's owner has the same owner |
| Voronoi.RegionPath | auction/voronoi.py:23-64 | from any owned cell a path of strictly decreasing distance inside the region leads to the owner: regions are 4-connected |
| Partition.PartitionGrid | auction/voronoi.py:66-83 | one partition per drone in id order, listing in row-major order exactly the cells it owns |
| Partition.PartitionInWords | auction/voronoi.py:66-83 | a drone's partition lists row by row exactly the cells nearer to it than to every other drone inside the grid, ties going to the smaller id |
| Partition.PartitionCovers | auction/voronoi.py:66-83 | partitions are disjoint, and cover the grid whenever some drone is inside it |
| Partition.OwnerExists | auction/voronoi.py:23-64 | every cell has an owner, or no drone is inside the grid |
| Partition.GroupByOwner | auction/voronoi.py:66-83 | the cells of each owner, in row-major order |
| Partition.GridFromPartitions | auction/voronoi.py:85-94 | the grid shows for each cell the last partition that writes it, negative indices counting from the end; a cell out of reach is an error |
| Partition.LastWritingExactly | auction/voronoi.py:85-94 | of several partitions that write a cell the last one is seen, whatever the others list |
| Partition.NegativeIndices | auction/voronoi.py:85-94 | a cell is in reach exactly when its coordinates are at least -size and below size, and it stands for the remainders by the size |
| Partition.PartitionRoundTrip | auction/voronoi.py:66-94 | rebuilding a grid from the partitions gives back the owners of the search |
| Partition.BoundaryOfGrid | auction/voronoi.py:106-129 | exactly the cells with a differing 4-neighbour, ascending, without repetition |
| Partition.BoundaryCells | auction/voronoi.py:96-129 | the same from either form of input; partitions without a size, or with a cell out of reach, are an error |
| Partition.BoundariesAgree | auction/voronoi.py:96-129 | boundaries computed from the grid and from its partitions are the same list |
| Auction.SelectNextZone | core/selector.py:39-64 | a free cell of the grid, or none exactly when every cell is taken |
| Auction.SelectionIsBest | core/selector.py:20-64 | the selected cell precedes every other free cell by entropy, distance, row, column |
| Basics.RightAngle | core/selector.py:34-34 | squared distances obey the right-angle law, and along a row or column are squares of Manhattan distances, which determines them |
| Auction.FallbackAssignments | auction/protocol.py:36-64 | the loop over the losers computes the serial choice of each from what the earlier ones left |
| Auction.FallbackShape | auction/protocol.py:36-64 | the first losers, as many as there are free cells, get pairwise different free cells; only the others stay idle |
| Auction.FallbackIsBest | auction/protocol.py:36-64 | each fallback is the loser's best cell among those nobody before it received |
| Auction.ResolveIgnoresOrder | auction/protocol.py:66-127 | the outcome does not depend on the order of the claims |
| Auction.DecisionShape | auction/protocol.py:66-127 | a winner, or a left/right pair on an exact tie, followed by the fallbacks of the rest |
| Auction.ServedInOrder | auction/protocol.py:66-127 | of two claimants the one listed earlier claimed earlier, or at the same time from nearer, or then has the smaller id |
| Auction.EveryClaimantServed | auction/protocol.py:66-127 | every claimant is in the list |
| Auction.SplitExactly | auction/protocol.py:88-112 | the first two share the cell, left half and right half, exactly when their times and distances are equal; otherwise the first has it alone |
| Auction.AssignmentsFollowRanking | auction/protocol.py:66-127 | one assignment per claim, in ranking order |
| Auction.AuctionOutcome | auction/protocol.py:66-127 | the contested cell goes to one drone or a pair; nobody else shares a cell or gets a claimed one |
| Auction.IdleAfterExhaustion | auction/protocol.py:36-127 | a claimant is idle only when every cell is claimed or handed out before it |
| Auction.LeadIgnoresMap | auction/protocol.py:66-127 | peers with different maps and claimed zones put the same drone first |
| Consensus.MajorityIsPlurality | core/consensus.py:174-186 | a choice strictly ahead of all others wins, otherwise the fallback |
| Consensus.CountAppend | core/consensus.py:174-186 | a choice has one vote more after a vote for it, and as many after any other |
| Consensus.UnanimousVotesConfirm | core/consensus.py:303-342 | votes for the lead change nothing, whoever's they are |
| Consensus.MinorityCannotOverride | core/consensus.py:303-342 | false votes short of half change nothing |
| Consensus.VotesKeepAssignments | core/consensus.py:303-342 | whatever the votes, every drone keeps the assignment of the auction |
| Consensus.MajorityPutFirst | core/consensus.py:330-342 | a quorum that prefers another drone than the lead puts its assignment first and keeps the order of the others |
| Consensus.DecisionKept | core/consensus.py:303-342 | without a quorum, or with no other drone ahead, the decision stays as it is |
| Consensus.VotesForBest | core/consensus.py:111-172 | a peer votes for the claimant that was first, then nearest, then has the smallest id, and for a split exactly when another one is as early and as near |
| Consensus.HonestVotesAgree | core/consensus.py:111-172 | peers with any maps vote for the initiator's own decision |
| Consensus.AssigneesDistinct | auction/protocol.py:66-127 | claims of different drones give assignments of different drones |
| Consensus.DeterministicResolver.AcceptVote | core/consensus.py:222-231 | a vote counts exactly when it is not in the window; the window holds the last accepted keys, each once, and no more than its cap |
| Consensus.DeterministicResolver.CollectQuorumVotes | core/consensus.py:188-232 | exactly the votes heard by the poll that ends the wait, the first with a quorum of new voters or else the last: the last new vote of each voter, in id order |
| Consensus.CollectedExactly | core/consensus.py:188-232 | the collected votes are a quorum exactly when all polls together bring a quorum of new voters, and none exactly when every vote that arrives is in the window |
| Consensus.StopsAtQuorum | core/consensus.py:188-232 | the wait ends with the first poll that brings the new voters to the quorum, or at the deadline: the votes are those heard until then |
| Consensus.FreshContestHearsAll | core/consensus.py:188-232 | on a contest that the window has not seen, the new voters are all voters |
| Consensus.FirstVoteCounts | core/consensus.py:188-232 | on a contest that the window has not seen, and with room in the window, the first vote of each voter counts |
| Consensus.DeterministicResolver.CollectPeerVotes | core/consensus.py:111-172 | each responding peer votes for the lead it computes on its own map |
| Consensus.DeterministicResolver.ResolveClaims | core/consensus.py:234-370 | errors exactly when there is no claim, no peer, or the peers are asked and no vote with an unseen key arrives; a decided round reports the received votes exactly when more than half of the peers are new voters and else one lead vote per peer; with honest votes the decision is the initiator's, and with any votes the assignments are |
| Consensus.TwoPeersOneVote | core/consensus.py:310-331 | two peers, one vote: the round is decided and reports two votes, one of them never cast |
| Consensus.ThreePeersTwoVotes | core/consensus.py:302-370 | three peers, the votes of two: the round reports exactly these two |
| Consensus.DecidedIsSound | core/consensus.py:303-370 | a quorum of received votes decides soundly |
| Consensus.ByVoter | core/consensus.py:232-232 | the received votes in the order of their voters, one per voter |
| Consensus.DeterministicResolver.SyncRoundId | core/consensus.py:376-377 | the round counter never goes back |
| Consensus.DeterministicResolver.ConfirmRelease | core/consensus.py:382-410 | a release opens a round of its own, with a release vote of every peer |
| Certainty.MergeIsJoin | core/certainty.py:232-244 | merging leaves the later of two (time, certainty) keys |
| Certainty.MergedAllIsLatest | core/certainty.py:266-288 | after any list of payloads a cell carries the latest key among them and its own |
| Certainty.MergeConverges | core/certainty.py:266-288 | receivers that hear the same payloads in any order and number agree on every cell |
| Certainty.JoinedAllIsLatest | simulation/mesh_handler.py:113-125 | each cell of the merged map carries the latest key among the maps |
| Certainty.PeerOrderIrrelevant | simulation/mesh_handler.py:113-125 | the merged map depends neither on the order of the peers nor on repetition |
| Certainty.CertaintyMap.SetCertainty | core/certainty.py:109-121 | writes one cell, clamped and stamped; outside the grid an error and no change |
| Certainty.CertaintyMap.UpdateCell | core/certainty.py:123-137 | adds an increment to one cell and stamps it |
| Certainty.CertaintyMap.DecayAll | core/certainty.py:139-155 | every cell not skipped keeps the share 1 - rate × seconds of its certainty and is stamped; skipped cells stay as they are |
| Certainty.DecayInWords | core/certainty.py:139-155 | the same of the map as a value, on which the progress theorems rest |
| Certainty.CertaintyMap.ResetFrom | core/certainty.py:194-200 | every cell that the other map has becomes the other map's; a larger map is an error at its first cell outside |
| Certainty.CertaintyMap.MergeTimestampedFrom | core/certainty.py:232-244 | every cell that the other map has becomes the join of the two; a larger map is an error at its first cell outside |
| Certainty.CertaintyMap.MergeRowsTimestamped | core/certainty.py:266-288 | payloads are merged in turn up to the first one outside the grid, which is an error |
| MapSync.Round4Monotone | simulation/mesh_handler.py:175-208 | rounding to four decimals never reverses the order of two certainties |
| MapSync.Round4Nearest | simulation/mesh_handler.py:175-208 | rounding gives a multiple of 1/10000 within half of one, the even one when two are as near |
| MapSync.EventsGrowKeys | core/certainty.py:123-155 | decay and search only ever advance a cell's key |
| MapSync.RunKeepsSenderInv | simulation/mesh_handler.py:175-226 | over every run, searches with their unrounded message included, the last rows were published, and to four decimals nothing sent is newer than they are or than the map |
| MapSync.SnapshotAndDeltasSuffice | simulation/mesh_handler.py:175-226 | everything sent leaves a receiver with the same timestamps, and to four decimals the same certainties, as the last full rows alone |
| MapSync.LossyReceiverStaysBehind | simulation/mesh_handler.py:264-327 | under loss, repetition and reordering a receiver never passes the sender's last rows, to four decimals, and holds only sent or initial values |
| MapSync.RawPassesRowExactly | simulation/mesh_handler.py:210-226 | having heard a search and the row that follows it, an older copy is past the row exactly when rounding took something off |
| MapSync.RawPassesRow | simulation/runtime.py:485-499 | such a search, of a fresh sender |
| MapSync.ReceiverDecayLosesDelta | simulation/runtime.py:574-581 | a concrete delta is lost to the receiver's own decay |
| MapSync.DeltaSurvivesDecay | simulation/mesh_handler.py:264-304 | a stamped copy takes a delta exactly when the delta's key is not earlier |
| MapSync.ToRows | core/certainty.py:246-264 | all cells in row-major order, certainties rounded |
| MapSync.PeerMeshHandler.PublishLocalMapSnapshot | simulation/mesh_handler.py:175-208 | everything the first time, afterwards the changed rows, nothing when nothing changed |
| MapSync.MessageExactly | simulation/mesh_handler.py:175-208 | the row of a cell is sent exactly when it is the first message or the rounded certainty or the time differs from the last row |
| MapSync.PeerMeshHandler.EnsurePeerMap | simulation/mesh_handler.py:101-111 | a peer's copy is made on first contact and kept afterwards |
| MapSync.PeerMeshHandler.HandleCertaintyUpdate | simulation/mesh_handler.py:264-304 | a snapshot or delta changes the sender's copy and no other; the copy under the peer's own id is its local map |
| MapSync.PeerMeshHandler.HandleCellUpdate | simulation/mesh_handler.py:306-327 | a single cell goes to its searcher's copy, or to the local map when the searcher is this peer, and joins the visited and completed cells by its own certainty |
| MapSync.PeerMeshHandler.RecomputeMergedMap | simulation/mesh_handler.py:113-125 | the merged map is the local one joined with every copy, or is left alone when nothing changed |
| MapSync.PeerMeshHandler.UpdateVisitedCompleted | simulation/mesh_handler.py:134-139 | cells past the thresholds join the visited and completed sets |
| MapSync.BestCell | scripts/serve_live_runtime.py:168-191 | the entry with the latest (time, certainty) among the exported grids, or the default |
| MapSync.HttpAgreesWithMerge | scripts/serve_live_runtime.py:168-191 | from the exported rows the HTTP merger shows the row that the merged map itself would publish |
| Drones.DroneState.SetAssignment | roles/drone.py:58-63 | target, claim, half and status of the new assignment |
| Drones.DroneState.ClearAssignment | roles/drone.py:65-70 | nothing is held, status by whether the drone is alive |
| Drones.DroneState.MarkStale | roles/drone.py:72-79 | off the mesh, holding nothing |
| Drones.DroneState.Revive | roles/drone.py:81-89 | back, idle, holding nothing, at the given cell |
| Drones.DroneState.StepTowardsTarget | roles/drone.py:91-102 | one cell towards the target, along the row first |
| Drones.ArrivesInDistanceMoves | roles/drone.py:91-102 | the target is reached after exactly as many moves as the Manhattan distance, without leaving the spanned rectangle |
| StartingPositions.RingIsBorder | roles/drone.py:35-39 | the perimeter list has 4(grid-1) distinct border cells, all of them, each next to the following one, and closes |
| StartingPositions.PlaceByRank | roles/drone.py:27-41 | a peer stands as many steps along the ring as there are peers with smaller ids, a step being the ring shared out among the peers |
| StartingPositions.StrangerInCorner | roles/drone.py:27-41 | a drone not on the list of peers, and every drone on a grid without a border, starts in the corner |
| StartingPositions.EvenlySpread | roles/drone.py:27-41 | with room on the border any two drones are at least floor(ring / drones) places apart, both ways around |
| StartingPositions.StartApartExactly | roles/drone.py:27-41 | all peers start on different cells exactly when there are at most 4(grid-1) of them, or one on a grid without a border |
| PeerSearch.PeerRuntime.MoveAndSearch | simulation/runtime.py:467-520 | moves, or searches: gain, completion, release of the drone, visited cells, survivor |
| PeerSearch.PeerRuntime.Tick | simulation/runtime.py:533-589 | the part of a tick that moves time, decays the local map and then moves or searches |
| PeerSearch.ArrivesOnTime | simulation/runtime.py:484-487 | a peer at distance D stands on its target after exactly D ticks and completes nothing before |
| PeerSearch.CompletesInTime | simulation/runtime.py:467-520 | it completes within D ticks plus the search ticks that gain the completion level at the increment less rate × seconds, the worst loss |
| PeerSearch.CompletesExactly | simulation/runtime.py:467-520 | a cell below the completion level is ever completed exactly when the increment exceeds completion × rate × seconds, its loss at that level |
| Rounds.ClaimFacts | simulation/stub.py:430-513 | each claim of a round comes from an idle drone, one per drone, for a cell not taken |
| Rounds.NextClaim | simulation/stub.py:471-486 | the next idle drone claims the cell selected for it among those neither taken, blocked nor, unless the view is shared, claimed before it, and claims nothing when there is none |
| Rounds.SharedClaims | simulation/stub.py:430-513 | with a shared view and equal maps every idle drone claims the same cell |
| Rounds.ApplyAllAt | simulation/stub.py:348-375 | applying the assignments of a round gives each drone its own and changes nobody else |
| Rounds.OrderlyRoundHarmless | simulation/stub.py:430-513 | when all claims are for one cell or all for different ones, the assignments conflict neither with each other nor with held cells |
| Rounds.HarmlessKeepsSafe | simulation/stub.py:348-375 | such assignments keep the swarm safe |
| Rounds.AtMostTwo | simulation/stub.py:226-231 | safety leaves at most two drones on a cell |
| SwarmRuns.SafeInWords | simulation/stub.py:226-231 | safe means that two working drones on one cell hold its two halves |
| SwarmRuns.RoundKeepsSafe | simulation/stub.py:430-513 | an assignment round keeps the swarm safe at every point at which it may stop |
| Rounds.CompleteRoundServes | simulation/stub.py:495-513 | when every contest is carried out, every claimant is given an assignment |
| SwarmRuns.RoundServesAll | simulation/stub.py:430-513 | a finished round overlooks no idle drone: each that found a cell gets what the auction of that cell decides for it, each other one stays idle |
| SwarmRuns.PriorityExact | simulation/stub.py:377-428 | a priority step keeps the swarm safe exactly when the cell it hands out is free |
| SwarmRuns.PrioritiesSafeExactly | simulation/stub.py:377-428 | a list of priority steps keeps the swarm safe exactly when the cells handed out are pairwise different and held by nobody, and exactly when each step is careful |
| SwarmRuns.UnsafeStays | simulation/stub.py:377-513 | neither a priority step nor a round mends a double booking |
| SwarmRuns.StepKeepsInv | simulation/stub.py:805-814 | every step other than a careless priority step keeps the invariant |
| SwarmRuns.CarefulRunKeepsInv | simulation/stub.py:805-814 | so does every run of such steps |
| SwarmRuns.FirstRoundInv | simulation/stub.py:430-513 | the first round, on equal maps, establishes the invariant |
| SwarmRuns.RunsAreSafe | simulation/stub.py:226-231 | over every run from the initial swarm no two working drones hold one cell unless they are the halves of a split, as long as the priority queues hand out free cells |
| DoubleBooking.LateReclaimDoubleBooks | simulation/stub.py:377-458 | from the swarm as constructed, a run of a round, a failure, two completions, a second round, the detection of the silence, which queues the cell, one more completion and a priority step ends with two drones on one cell |
| Heartbeats.HeartbeatRegistry.Register | core/heartbeat.py:21-24 | a beat is recorded and ends staleness |
| Heartbeats.HeartbeatRegistry.MarkStale | core/heartbeat.py:29-31 | staleness is recorded without touching the beats |
| Heartbeats.HeartbeatRegistry.IsStale | core/heartbeat.py:33-38 | known, and overdue or marked |
| Heartbeats.HeartbeatRegistry.DetectStale | core/heartbeat.py:40-53 | the late are the overdue and those late before; all other known drones are active |
| FailureDetector.BeatingDroneKept | simulation/stub.py:576-599 | a drone that works at a heartbeat step is not declared stale by it |
| FailureDetector.SilentDroneStep | simulation/stub.py:576-599 | a silent drone is declared stale by a step exactly when somebody works and its last beat is overdue |
| FailureDetector.NoFalseAlarm | simulation/stub.py:576-599 | over every run a drone that works at each heartbeat step is never declared stale |
| FailureDetector.SilenceDetectedExactly | simulation/stub.py:576-599 | a silent drone is declared stale by exactly the first heartbeat step later than its last beat plus the timeout |
| FailureDetector.WatchedThen | simulation/stub.py:805-814 | runs of the detector follow one another, so what holds over its runs holds over runs of ticks |
| Simulation.EntropyHuntSimulation.ApplyAssignment | simulation/stub.py:348-375 | one drone takes its assignment, all others stay; a released cell taken again is noted once |
| Simulation.EntropyHuntSimulation.ServeQueue | simulation/stub.py:405-413 | queued cells go from the front to the idle drones in order, until one of the two runs out |
| Simulation.EntropyHuntSimulation.ProcessPriorityReleaseQueue | simulation/stub.py:377-413 | at most one recall, then the queue is served |
| Simulation.EntropyHuntSimulation.ProcessPriorityTargetQueue | simulation/stub.py:415-428 | the target's queue is served in the same way |
| Simulation.EntropyHuntSimulation.NearestDrone | simulation/stub.py:389-401 | the nearest working drone not planned to fail, ids breaking ties |
| Simulation.EntropyHuntSimulation.RecallForRelease | simulation/stub.py:382-404 | nobody idle, a cell waiting a second and a candidate working: exactly then the nearest one is taken off its cell |
| Simulation.EntropyHuntSimulation.QueuePriorities | simulation/stub.py:438-458 | exactly when a released cell or the target joins its queue |
| Simulation.EntropyHuntSimulation.GatherRoundClaims | simulation/stub.py:471-486 | the claims of the round, and the status each idle drone shows |
| Simulation.EntropyHuntSimulation.ResolveContest | simulation/stub.py:495-513 | a contest carries out exactly the auction's assignments, or changes nothing when no vote arrives |
| Simulation.EntropyHuntSimulation.HoldRound | simulation/stub.py:465-513 | the loop over the contests performs one round step, finished unless a vote fails |
| Simulation.EntropyHuntSimulation.AssignIdleDrones | simulation/stub.py:430-513 | the pass serves the queues, then holds a round exactly when somebody is still idle, and finishes it unless a vote fails |
| Simulation.ServingSafeExactly | simulation/stub.py:377-428 | serving the queues keeps the swarm safe exactly when the cells at their fronts, as many as there are idle drones, are pairwise different and held by nobody |
| Simulation.PassSafeExactly | simulation/stub.py:430-513 | a whole assignment pass, round included, keeps the swarm safe exactly under the same condition |
| Simulation.EntropyHuntSimulation.MarkDroneStale | simulation/stub.py:515-571 | the drone lets go of its cell, and the cell is queued once and released by a round |
| Simulation.EntropyHuntSimulation.CollectVotes | simulation/stub.py:576-599 | with equal records every observer finds exactly the overdue drones late |
| Simulation.EntropyHuntSimulation.HeartbeatTick | simulation/stub.py:576-599 | the heartbeat step of the failure detector, declared by majority of the working drones |
| Simulation.EntropyHuntSimulation.InjectFailure | simulation/stub.py:601-621 | at its time, once, the planned drone leaves the mesh; nothing else fails |
| Simulation.EntropyHuntSimulation.MoveAndSearch | simulation/stub.py:629-733 | every working drone moves, or searches and lets go of a completed cell; exactly those cells are completed, and the survivor is found exactly when it was before or a drone searched the target with certainty after the unlock time |
| Simulation.EntropyHuntSimulation.FoundExactly | simulation/stub.py:691-696 | the outcome of a turn of searches, drone by drone: when the survivor is found and which cells are completed |
| Simulation.EntropyHuntSimulation.CheckRecovery | simulation/stub.py:786-803 | exactly the failed drone returns, once, at its time, where it was |
| Simulation.EntropyHuntSimulation.FailAndRecover | simulation/stub.py:601-621 | only the drone planned to fail leaves the mesh or returns: steps of the swarm and of the failure detector |
| Simulation.EntropyHuntSimulation.FailAndBeat | simulation/stub.py:805-810 | failure, recovery and the heartbeat step on what was heard |
| Simulation.EntropyHuntSimulation.AssignUnlessFound | simulation/stub.py:812-814 | the assignment pass is held exactly when the survivor has not been found |
| Simulation.EntropyHuntSimulation.Act | simulation/stub.py:805-811 | failure and recovery, the detector's heartbeat step on what was heard, everybody's move or search; every other working drone goes on working |
| Simulation.EntropyHuntSimulation.Tick | simulation/stub.py:805-814 | failure and recovery, the heartbeat step, everybody's move or search, then the assignment pass unless the survivor was found: a run of the swarm's steps that is safe exactly when the cells handed out are free and different, and a run of the failure detector with one beat, from its state before the tick to its state after it; a working drone that is not planned to fail goes on working |
| Simulation.VotesMakeStep | simulation/stub.py:576-599 | with equal records the majority vote is the overdue test |
| ClaimLedger.FiledAgrees | simulation/claim_manager.py:60-77 | filing a claim, again or under another cell, keeps the indexes in agreement |
| ClaimLedger.EvictedAgrees | simulation/claim_manager.py:297-301 | eviction keeps agreement and leaves no claim on the cell |
| ClaimLedger.DroppedAgrees | simulation/claim_manager.py:170-181 | dropping claims by id keeps agreement |
| ClaimLedger.LargestUnique | simulation/claim_manager.py:231-240 | trimming keeps the largest entries: removed ones are smaller than all kept ones, and that determines the result |
| ClaimSteps.ClaimFiled | simulation/claim_manager.py:60-77 | a filed claim is found by its id, by its time and last under its cell; other cells keep their lists |
| ClaimSteps.EvictedExactly | simulation/claim_manager.py:297-301 | exactly the claims listed under the cell go |
| ClaimSteps.FirstMentionGoes | simulation/claim_manager.py:176-181 | an id taken off a list loses its first mention, everything else keeps its place |
| ClaimSteps.DueExactly | simulation/claim_manager.py:163-187 | a claim is dropped exactly when more than two delays old, and resolved exactly when at least one delay old and new |
| ClaimSteps.SweptExactly | simulation/claim_manager.py:223-240 | exactly the claims not resolved stay, and each memory keeps at most 500 entries |
| ClaimSteps.NewRoundApplied | simulation/claim_manager.py:79-107 | what a new round changes: numbers, auctions, pending claims, the released drone; and that nothing else changes |
| ClaimSteps.AssignedByRound | simulation/claim_manager.py:97-105 | a drone named for a cell heads for it or searches it, and the peer's own drone shows that it won |
| ClaimSteps.ContestPublished | simulation/claim_manager.py:191-222 | a settled contest is published under the next number with the auction's assignments, and exactly its claims join the resolved ones |
| ClaimSteps.SilentDroneReleased | simulation/claim_manager.py:128-158 | a silent drone is off the mesh since now, and a round under the next number releases its cell the first time |
| ClaimSteps.ClaimedExactly | simulation/mesh_handler.py:86-89 | a cell counts as claimed exactly when a working drone holds it |
| ClaimSteps.HeardInWords | simulation/mesh_handler.py:240-349 | who is back on record after a beat or a rejoin, and what stays as it was |
| ClaimSteps.LateExactly | core/heartbeat.py:40-53 | late is who is overdue or was found silent and has not beaten since |
| ClaimRuns.IgnoredExactly | simulation/claim_manager.py:79-87 | applying a round changes nothing exactly when its number is remembered |
| ClaimRuns.SameNumberIgnored | simulation/claim_manager.py:79-87 | a second round of the same number is ignored, whatever it says |
| ClaimRuns.OwnRoundApplied | simulation/claim_manager.py:192-222 | a peer's own rounds are new to it and always take effect |
| ClaimRuns.RunKeepsLedger | simulation/claim_manager.py:60-301 | over every run: pending and timestamps have equal keys and times, pending claims are listed under their cells, processed numbers do not exceed the counter, own numbers ascend, a drone is on record as released exactly when a published round released it, and no two rounds release one drone |
| ClaimRuns.SilenceReleasesExactly | simulation/claim_manager.py:117-158 | a search for silent drones publishes a release for exactly those other drones that are alive on record, hold a cell and were never released |
| ClaimRuns.ReleasedOnceExactly | simulation/claim_manager.py:117-158 | over every run, returns included: a new round releases a drone found silent exactly when it is another one, alive on record, holds a cell and no round published in the run has released it |
| ClaimRuns.ResolvedOnTime | simulation/claim_manager.py:163-240 | every claim sent to resolution is between one and two delays old and new; afterwards none of that age is left waiting |
| ClaimRuns.RunRemembers | simulation/claim_manager.py:223-240 | over every run a resolved claim or applied round is remembered, or 500 greater ones are |
| ClaimRuns.ClaimHeardOnce | simulation/claim_manager.py:60-77 | until then a late copy of a resolved claim is ignored and the claim is not resolved again |
| ClaimRuns.RoundAppliedOnce | simulation/claim_manager.py:79-107 | until then a round heard again changes nothing |
| ClaimSafety.AssignAllAt | simulation/claim_manager.py:97-105 | each drone named in a round ends with its own assignment, all others as they were |
| ClaimSafety.SettlingSafeExactly | simulation/claim_manager.py:191-222 | resolving a contest of working drones keeps the peer's view safe exactly when nobody outside the contest holds the cell |
| ClaimSafety.PassKeepsSafe | simulation/claim_manager.py:191-223 | a pass keeps the view safe when each cell is free at its turn |
| ClaimSafety.PassSafeExactly | simulation/claim_manager.py:191-223 | a pass over contests of working drones leaves the view safe after each contest exactly when the view is safe at first and each contest finds its cell free |
| ClaimSafety.PassSafeOnAllMaps | simulation/claim_manager.py:163-223 | told before the pass: with separate contests for free cells, the view ends safe on every map exactly when no contest with losers precedes a contest for a cell that nobody holds |
| PeerWitness.FallbackTakesContestedCell | simulation/claim_manager.py:163-223 | three claims heard for two free cells and one pass: a possible run that ends with two drones on one cell |
| PeerWitness.SecondSilenceReleasesNothing | simulation/claim_manager.py:117-158 | a possible run in which a drone wins a cell, falls silent, returns, wins it again and falls silent again, with one release |
| ClaimManager.TrimSet | simulation/claim_manager.py:231-240 | keeps exactly the largest entries |
| ClaimManager.OrderedGroups | simulation/claim_manager.py:188-191 | the claims gathered by cell, cells ascending, none lost or repeated |
| ClaimManager.UnlistOne | simulation/claim_manager.py:176-181 | removing ids one at a time removes the first mention of each |
| ClaimManager.PeerClaimManager.HandleClaim | simulation/claim_manager.py:60-77 | a claim heard is filed unless resolved; invariant kept |
| ClaimManager.PeerClaimManager.ApplyRound | simulation/claim_manager.py:79-107 | the round's whole effect, or none |
| ClaimManager.PeerClaimManager.HandleConsensusRound | simulation/claim_manager.py:109-115 | a round from another peer is applied; invariant kept |
| ClaimManager.PeerClaimManager.SurveyPeers | simulation/runtime.py:628-634 | a survey of silent peers changes nothing but the record of who is silent |
| ClaimManager.PeerClaimManager.PublishHeartbeat | simulation/mesh_handler.py:141-154 | the peer's own beat is recorded exactly when its drone is alive |
| ClaimManager.PeerClaimManager.HandleDroneState | simulation/mesh_handler.py:253-262 | a peer's own account of its drone replaces the record, except the half of a split cell; invariant kept |
| ClaimManager.PeerClaimManager.HandleRejoin | simulation/mesh_handler.py:342-349 | a rejoining peer is back on record; invariant kept |
| ClaimManager.PeerClaimManager.HandleHeartbeat | simulation/mesh_handler.py:240-251 | a beat is recorded and its sender is back on record, alive and reachable; invariant kept |
| ClaimManager.PeerClaimManager.DetectStalePeers | simulation/claim_manager.py:117-158 | exactly the peers overdue or silent before are found late, every live one is marked stale, and its cell is released by a round of its own the first time |
| ClaimManager.PeerClaimManager.BuildAndPublishClaim | simulation/claim_manager.py:242-274 | the peer's own claim is filed; invariant kept |
| ClaimManager.PeerClaimManager.EvictPendingClaimsForCell | simulation/claim_manager.py:297-301 | the loop removes exactly the ids listed under the cell |
| ClaimManager.PeerClaimManager.Drop | simulation/claim_manager.py:176-181 | the loops remove ids from all three indexes |
| ClaimManager.PeerClaimManager.ResolvePendingClaims | simulation/claim_manager.py:163-240 | expiry, grouping, resolution in cell order, cleanup and trimming in one step; invariant kept |
| Mailboxes.NothingVanishes | core/mesh.py:215-287 | over every run each message addressed to a subscriber is delivered, lost to overflow or waiting, and only one of these |
| Mailboxes.InboxBounded | core/mesh.py:229-240 | an inbox never exceeds its cap |
| Mailboxes.InboxInOrder | core/mesh.py:229-287 | the inbox and every poll result are in publication order |
| Mailboxes.SiftSplits | core/mesh.py:277-287 | a poll by pattern takes exactly the matching messages and leaves exactly the others |
| Mailboxes.MatchesExactly | core/mesh.py:125-128 | a pattern that ends in # matches the topics that begin with the rest of it, any other one only itself |
| Mailboxes.AddressedExactly | core/mesh.py:215-240 | a published message is addressed to a subscriber exactly when one of its patterns matches the topic |
| Mailboxes.DeliveredInOrderExactly | core/mesh.py:215-276 | with whole polls, deliveries followed by the inbox are all addressed messages in order exactly when nothing overflowed |
| Mailboxes.LossNeedsOverflow | core/mesh.py:229-240 | nothing is lost before more messages than the cap were addressed |
| Mailboxes.HistoryIsLatest | core/mesh.py:215-227 | the history of a topic is its last messages, up to the cap |
| SeenWindow.AdmittedExactly | core/mesh.py:635-639 | admitting an id keeps set and list in agreement exactly when the id is new |
| SeenWindow.WindowIsLatest | core/mesh.py:635-684 | with fresh published ids the window is exactly the last accepted ids, each once |
| SeenWindow.RepeatsFarApart | core/mesh.py:660-684 | two acceptances of one id are more than the cap apart |
| SeenWindow.AcceptedExactly | core/mesh.py:635-684 | an arrival is accepted exactly when its id is not among the last accepted ids, a sent message always |
| SeenWindow.LetInAccepted | core/mesh.py:660-684 | what a poll lets in is what the run of the window accepts on the traffic so far followed by the packets |
| SeenWindow.LetInExactly | core/mesh.py:660-684 | of the packets of one poll the next is let in exactly when its id is not among the last accepted, those of this poll included |
| Mesh.InMemoryMeshBus.Subscribe | core/mesh.py:190-194 | a pattern is added once, for one subscriber |
| Mesh.InMemoryMeshBus.Remember | core/mesh.py:215-240 | history and every inbox change as the single-mailbox queue says |
| Mesh.InMemoryMeshBus.Publish | core/mesh.py:196-259 | the envelope, its stamped or given id, and its delivery |
| Mesh.InMemoryMeshBus.Poll | core/mesh.py:261-287 | the caller gets and loses what it asked for; no other mailbox changes |
| Mesh.LocalPeerMeshBus.Publish | core/mesh.py:620-658 | a published id enters the window, which stays exact exactly when it was new; the bus's window is the run of the window model over its own traffic |
| Mesh.LocalPeerMeshBus.Poll | core/mesh.py:660-684 | packets whose ids are in the window at their turn are dropped, the others handed out in order; over the bus's own traffic two acceptances of one id are more than the cap apart |
| Mesh.LocalPeerMeshBus.Receive | core/mesh.py:671-684 | the loop over the packets: each new one is remembered and delivered once |
| Console.CandidatesRanked | frontend/src/hooks/useConsoleEngine.ts:249-268 | the candidates are exactly the free cells, in strict order of preference |
| Console.NextCandidate | frontend/src/hooks/useConsoleEngine.ts:315-326 | the best cell of the rest of the list that is not reserved |
| Console.Propose | frontend/src/hooks/useConsoleEngine.ts:315-331 | every waiting drone asks for its best free cell; those without one drop out, nobody else |
| Console.Judge | frontend/src/hooks/useConsoleEngine.ts:343-356 | the winner is nearest, smaller ids first, and all others go on waiting |
| Console.FairInWords | frontend/src/hooks/useConsoleEngine.ts:57-68 | the winner of a contest is nearer than each loser, or as near with an id that is not greater |
| Console.Settle | frontend/src/hooks/useConsoleEngine.ts:333-358 | each proposed cell is granted once; drones neither vanish nor multiply |
| Console.ReassignIdleDrones | frontend/src/hooks/useConsoleEngine.ts:292-360 | the loop ends, every pending drone is granted a cell or finds all its candidates reserved, and the grants are those of a serial dictatorship |
| Console.SerialDistinct | frontend/src/hooks/useConsoleEngine.ts:292-360 | granted cells are pairwise different and were free |
| Console.ParetoOptimal | frontend/src/hooks/useConsoleEngine.ts:292-360 | an assignment every granted drone likes as much is the same assignment |
| Console.NobodyWantsFreeCell | frontend/src/hooks/useConsoleEngine.ts:292-360 | no drone prefers a cell left free to the one it was granted |
| Console.PassInWords | frontend/src/hooks/useConsoleEngine.ts:292-360 | after a pass: different open cells are granted, nobody idles while a cell is open, and each granted cell ranks before every cell left open by entropy, distance, row, column |
| Console.ServedOnce | frontend/src/hooks/useConsoleEngine.ts:292-360 | exactly the idle drones that are not stale are granted a cell or counted as idle, each once |

## Left out

- SwarmRuns.RunsAreSafe: assumes that priority steps hand out free cells, because the code does not check it and safety fails without; the exact condition is `Simulation.PassSafeExactly`.
- ClaimSafety.PassKeepsSafe: one direction only; the exact condition is `ClaimSafety.PassSafeExactly`.
- ClaimSafety.PassSafeOnAllMaps: assumes that no drone claims in two contests of one pass and that the contested cells are free at first; `ClaimSafety.PassSafeExactly` does not.
- Simulation.EntropyHuntSimulation.Tick: maps, votes and search results come from outside, so split progress, map decay and the publication of messages are not part of the tick; delivery of heartbeats is lossless and immediate.
- Simulation.EntropyHuntSimulation.MoveAndSearch: whether a search completes its cell is a parameter, as are certainty and split progress.
- Simulation.EntropyHuntSimulation.MarkDroneStale: does not model the merge of the lost drone's map into the other replicas.
- Simulation.EntropyHuntSimulation.HeartbeatTick: assumes that all drones have heard the same beats, which every step re-establishes.
- ClaimManager.PeerClaimManager.ApplyRound: the drones a peer knows are values in a map rather than shared objects; the proof log and the log function are not modelled.
- ClaimManager.PeerClaimManager.HandleHeartbeat: the handlers of the mesh handler that touch the known peers are methods of the claim manager here; the log function is not modelled.
- PeerSearch.PeerRuntime.MoveAndSearch: does not model what it publishes or the refresh of the merged map.
- PeerSearch.PeerRuntime.Tick: does not model reconnection, quorum bookkeeping, peers' maps or incoming messages; the target is only changed by the drone itself.
- PeerSearch.CompletesInTime: says nothing about a drone that loses its target to a message on the way.
- MapSync.ToRows: does not model a row's entropy, author, decay rate and owner, which no merge of rows reads.
- MapSync.SnapshotAndDeltasSuffice: assumes no decay at the receiver in between, because decay makes it fail (`ReceiverDecayLosesDelta`).
- Mesh.LocalPeerMeshBus.Publish: sockets, encoding and the rate limit of outgoing packets are not modelled.
- Certainty.MergeConverges: the author of a cell is not claimed to converge, because it does not on exact ties.
- `core/selector.py` `top_candidates`: the same order as the selection, cut to a length.
- Shannon entropy values, coverage and averages: only the order of entropies matters to the protocols.
- Floating-point rounding, apart from the rounding of published certainties.
- Vertex and FoxMQ buses, message signing, JSON encoding, discovery, MQTT, HTTP and WebSocket servers: I/O.
- The network injector, peer configuration, proof export, dashboards, ROS and Webots nodes: plumbing.
- Deprecated merges by maximum and the merging of peer staleness in the HTTP merger.
- `make_*` and `parse_*` payload pairs: settled field by field.
