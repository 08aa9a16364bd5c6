# Collectives, cluster scheduling and replica arithmetic: a verified model

This project models three components of the repository and proves their main promises for every size, every input
and every interleaving.

**NCCL collectives.** The free-running ring AllReduce of `nccl-visualizer/main.go` and the barrier-stepped ring and tree
AllReduce of `nccl-visualizer/simulator.go`. One lock-step function per topology (`RingSpec.RingAt`, `TreeSpec.TreeAt`)
gives the meaning; closed forms for every cell show that it ends with the sum over all GPUs. `AsyncRing` is the
free-running ring as a transition system whose steps are single channel operations, and `RingProgram` is the program
itself, over GPU objects and arrays, under any scheduler. `Barrier` is one call of `Simulator.Step` as a transition
system of the coordinator and the goroutines, and `Simulator` is the program: tree construction, channels, in-place
reduction, telemetry and published snapshots. Specifications, transition systems and programs all take the arithmetic
as a parameter (`Arithmetic`): exact, or the binary64 sums of `Float64`. In either, every interleaving of the ring leaves
the same buffers in all GPUs, each block added up in ring order from its own GPU; the tree leaves each block added up
from the leaves. `Exactness` shows that on non-negative whole numbers whose column totals are at most 2^53 no sum is
rounded, so that the programs' own float64 runs end with the exact sums and pass their own comparison; `Sixteen` shows
where that ends. A tree parent adds its two children in the order they arrive: `Racing` shows when that can be seen.

**Slurm simulator.** `Cluster` states the transitions of the store by value: submit, cancel and the two passes of the
scheduler, each visiting the jobs in an arbitrary order, because a map may be walked in any order. `Resources` is what
they do to one node; `Accounting`, `Scheduling`, `PassOrder`, `Draining`, `Ticking`, `Lifecycle`, `Records` and
`WorkConservation` prove conservation, work conservation, order independence of the first pass, draining under the
ticker, and job histories, over whole runs; `Records` shows that the record of every job can be read off the run that
made it, and the other way round. `Witnesses` holds the runs on which a property fails. `ClusterStore` is the program
over node and job objects, each method tied to its transition and to what it promises of the fields, and `SlurmServer`
serves any stream of requests and ticks with it.

**Replica target.** `Replicas` is the operator's reconcile step: a ceiling taken of a float64 quotient is the integer
ceiling for all int32 depths and all positive int32 thresholds, so the target is the least allowed replica count that
keeps up with the queue.

## Where the code falls short of the property, and exactly when

The runs of the Slurm simulator named here start in any store whose first partition is two empty nodes of the larger
kind, as the simulator's own is (`Witnesses.NewClusterHasTwoBigNodes`).

- *The free-running ring passes its own comparison with the sums computed beforehand.* Float64 sums depend on their order.
  On any data, while no sum overflows, and under every schedule the comparison succeeds if and only if adding each block
  up in ring order from its own GPU gives what adding it up from GPU 0 gives (`RingProgram.AllReduce`). On the program's
  own powers-of-ten seeds it succeeds for up to 15 GPUs and fails for 16 (`RingProgram.Demonstrate`,
  `Sixteen.SixteenGPUs`).
- *A barrier step leaves the same buffers under every schedule.* Two schedules of a tree step differ on three GPUs with
  2^53, 1 and 2 in a block (`Racing.ThreeGPUsRace`). All schedules agree if and only if, at every node that adds two
  children's buffers in the step, both orders of the two additions agree in every block (`Racing.OneOutcomeExactly`).
- *Counters are the sums over the running jobs, within capacity.* `SubmitJob` accepts negative requests, and then this
  fails: `Witnesses.NegativeCpus` leaves a node with -5 CPUs in use, `Witnesses.NegativeMemory` leaves memory in use
  where nothing runs. Over whole runs: every run from an empty store whose other submissions are non-negative balances,
  if and only if the request has no negative part or no empty node of its partition would take it (`Lifecycle.ConservesExactly`; for the initial store, `Lifecycle.NewClusterConservesExactly`).
  On a single node: a request can be allocated and released safely on every healthy node that has room if and only if
  none of its parts is negative (`Resources.SafeExactlyWhenNonNegative`).
- *A release leaves a balanced node balanced.* It subtracts the memory request whether or not that was charged, and
  clamps. It balances if and only if no clamp fires and the memory request is not negative
  (`Resources.ReleaseBalancedExactly`).
- *A tick leaves no pending job that fits.* In `Witnesses.LeftBehind` a job of 65 CPUs is visited first and one of -5
  CPUs next, which makes room for it. Over all runs from the initial store whose other submissions are non-negative, every
  tick in every order leaves no such job, if and only if the request's CPU and GPU counts are not negative or no empty
  node of its partition would take it (`WorkConservation.NewClusterConservesWorkExactly`; for other stores with partitions
  of one kind of node, `WorkConservation.ConservesWorkExactly`). Over all stores, reachable or not, the condition is that
  the counts are not negative (`Scheduling.HarmlessExactly`; on one node, `Scheduling.NeverMakesRoomExactly`).
- *A running job ends in the future.* A duration may be zero or negative, or overflow the 64-bit clock:
  `Witnesses.EndsInThePast` runs a job from time 100 with end time 90. After a tick it holds in every order of the second
  pass, if and only if at every turn that pass can come to, a pending job that can then start asks for a positive
  duration that does not overflow (`Scheduling.RunningEndLaterExactly`; over all orders of both passes,
  `PassOrder.AnyCallEndsLaterExactly`). It is not enough to look at the jobs that can start when the pass begins, because
  a negative request may make room for another (`Witnesses.StartedInRoomMade`). Where the jobs that can start take nothing
  negative, it is (`Scheduling.OrderlyEndLaterExactly`); on a balanced store the first pass moreover gives the same result
  in every order, so the condition can be checked before the call (`PassOrder.CallsEndLaterExactly`).
- *COMPLETED and FAILED are final.* `Witnesses.CompletedThenCancelled` cancels a completed job. In any run, the record of
  a completed or failed job stays as it is if and only if the run contains no cancellation of that job
  (`Lifecycle.FinalExactlyUntilCancelled`).
- Allocation charges the first entry named gpu of a resource list, release credits all of them. The nodes the source
  creates have one such entry, so this never shows; on a list with several, release undoes allocation if and only if the
  request has no GPUs or every other such entry is unused (`Resources.GresRoundTripExactly`).
- The comment in `recalculateNodeState` mentions a DOWN label; the code never sets it, and neither does the model.
- When the operator's bounds are crossed (minimum above maximum) the maximum wins; the model follows the code.

## Model

| member | source | states |
|---|---|---|
| Modular.PosModIsEuclidean | nccl-visualizer/simulator.go:9-11 | posMod is the mathematical modulo for every dividend, negative ones included, although it is built from the truncating remainder |
| RingSpec.SendIdxIsPosMod | nccl-visualizer/simulator.go:370-401 | the two index formulas of the two ring phases are one diagonal: in round r GPU i sends block (i - r) mod n |
| RingSpec.ScatterDiagonal | nccl-visualizer/simulator.go:373-392 | the block received in reduce-scatter round r is the one whose owner is r+1 hops behind, and its sender has already gathered r hops of it |
| RingSpec.GatherDiagonal | nccl-visualizer/simulator.go:399-419 | the block received in all-gather round t is the one whose delay is t+1, and its sender already holds it complete |
| RingSpec.RingInPhase | nccl-visualizer/simulator.go:368-424 | in every lock-step state, of either phase and in either arithmetic, every block has its closed form: after s reduce-scatter rounds the sum along GPUs b..i in ring order if that is at most s hops, else its initial value; after t all-gather rounds the sum once around the ring once the delay is at most t |
| RingSpec.RingOutcome | nccl-visualizer/simulator.go:368-424 | in exact and in binary64 arithmetic alike all GPUs end with the same buffer: block b is the sum once around the ring, starting at GPU b |
| RingSpec.PhaseStep | nccl-visualizer/simulator.go:368-424 | one round carries the closed form of each phase to the next, including where the phases meet |
| RingSpec.FullArcIsTotal | nccl-visualizer/simulator.go:389-392 | in exact arithmetic the sum once around the ring, from any start, is the whole column sum |
| RingSpec.RingCorrect | nccl-visualizer/main.go:112-198 | in exact arithmetic, after 2(n-1) rounds every block of every GPU is the sum of that block over all GPUs, for every n and all data |
| AsyncRing.ChunksAgree | nccl-visualizer/main.go:118-170 | the send and receive indices of both loops agree between neighbours: what GPU i expects in round r is what its predecessor sends in round r |
| AsyncRing.SuccessorIsNext | nccl-visualizer/main.go:80-95 | channel (i+1)%N is the successor position on the ring |
| AsyncRing.DeadlockFree | nccl-visualizer/main.go:118-198 | in every reachable unfinished state some GPU can send or receive, although channels hold only one message |
| AsyncRing.StepKeepsControl | nccl-visualizer/main.go:135-142 | every channel operation keeps the send/receive alternation, and channel i holds exactly what the predecessor is ahead by, at most one message |
| AsyncRing.StepKeepsInv | nccl-visualizer/main.go:118-198 | every operation of every goroutine keeps all buffers and messages in step with the lock-step run, and a received message is of the receiver's own round (the sync-error branch is dead) |
| AsyncRing.RunLength | nccl-visualizer/main.go:118-198 | every run performs one counted operation per step, so none is repeated or lost |
| AsyncRing.Refinement | nccl-visualizer/main.go:118-198 | in exact and in binary64 arithmetic alike: in every state reachable under any interleaving, each GPU's data is the lock-step state of its own round, an in-flight message carries the step, chunk and value of the round it was sent in, and neighbours differ by at most one round |
| AsyncRing.EveryScheduleCompletes | nccl-visualizer/main.go:107-202 | no run exceeds 4n(n-1) channel operations; a run that cannot be extended has performed exactly that many, drained every channel and left the same buffer in every GPU, in exact and in binary64 arithmetic: each block summed once around the ring, which in exact arithmetic is the sum over all GPUs |
| AsyncRing.FinishedOutcome | nccl-visualizer/main.go:202-229 | when all goroutines are done, all channels are empty and every GPU holds its part of the last lock-step round |
| AsyncRing.FinishedIsCorrect | nccl-visualizer/main.go:202-229 | that is each block summed once around the ring, the same on every GPU, and in exact arithmetic the sum over all GPUs |
| RingProgram.Ring.constructor | nccl-visualizer/main.go:78-95 | the initial program state is the start state of the transition system: copied seed data, empty channels |
| RingProgram.Ring.Send | nccl-visualizer/main.go:120-139 | a send appends the message of the current round to the successor's channel and changes nothing else: exactly the Send transition |
| RingProgram.Ring.Recv | nccl-visualizer/main.go:141-150 | a receive takes the oldest message, adds or overwrites the expected chunk in place, and counts a sync error exactly when the step differs: the Recv transition |
| RingProgram.Indices | nccl-visualizer/main.go:118-170 | the loop variables step, cSend and cRecv of both phases are the diagonal of the specification |
| RingProgram.ExpectedSum | nccl-visualizer/main.go:58-66 | the sequential reference adds up every column in index order, in either arithmetic |
| RingProgram.Schedule | nccl-visualizer/main.go:104-200 | some goroutine able to move always exists before completion, and whichever moves performs one enabled transition that counts as one operation |
| RingProgram.RunAll | nccl-visualizer/main.go:104-202 | under any scheduler and in either arithmetic the goroutines finish after 4n(n-1) operations with empty channels, no sync error and the ring-order sums in every GPU |
| RingProgram.Verify | nccl-visualizer/main.go:210-221 | the final check succeeds exactly when every GPU holds the expected array |
| RingProgram.AllReduce | nccl-visualizer/main.go:44-235 | the whole program, on any data, in either arithmetic and under any schedule, terminates, reports no sync error and leaves the ring-order sums in every GPU; its own final comparison succeeds if and only if these equal the sums from GPU 0, which they do in exact arithmetic and in binary64 on whole numbers with totals up to 2^53 |
| RingProgram.Demonstrate | nccl-visualizer/main.go:44-235 | the program on its own powers-of-ten seeds in float64, under every schedule: all GPUs end with the same data, and the comparison succeeds for up to 15 GPUs and fails for 16 |
| Sixteen.SixteenGPUs | nccl-visualizer/main.go:45-66 | with 16 GPUs block 8 comes to 10^16 from GPU 0 and to 10^16 - 2 in ring order |
| Seeding.SeedData | nccl-visualizer/main.go:45-56 | the seeding loops fill in the rounded products of j+1 with a scale that is itself multiplied up in float64; for up to 23 GPUs that is (j+1)*10^i rounded once, and wherever that is at most 2^53 it is not rounded |
| Seeding.ScaleIsTen | nccl-visualizer/main.go:48-51 | the scale, multiplied up in float64, is exactly 10^i up to 10^22 |
| HeapTree.DepthIsLog | nccl-visualizer/simulator.go:89-109 | the depth of node i is the integer logarithm of i+1 |
| HeapTree.MaxDepthIsHeight | nccl-visualizer/simulator.go:103-105 | no node is deeper than maxDepth, which is the integer logarithm of n |
| HeapTree.DepthPrefix | nccl-visualizer/simulator.go:99-110 | the nodes of depth at most d are exactly an index prefix of the heap order |
| HeapTree.VisitsOnce | nccl-visualizer/simulator.go:99-110 | the recursive walk visits each of the n nodes exactly once and nothing else |
| HeapTree.LevelsPartition | nccl-visualizer/simulator.go:102-110 | nodesByDepth has an entry for exactly the depths up to the height, and level d lists each node of depth d once and no other |
| HeapTree.LevelsInOrder | nccl-visualizer/simulator.go:102-110 | nodesByDepth lists every level from left to right: level d holds the nodes 2^d - 1, 2^d, ..., 2^d of them except on the last level |
| HeapTree.ChildrenGrow | nccl-visualizer/simulator.go:90-96 | linking node i appends it to its parent's children and to no other list |
| HeapTree.RecordedAll | nccl-visualizer/simulator.go:98-111 | after the walk every node's recorded depth is its depth and the recorded height is the largest one |
| TreeSpec.TreeInPhase | nccl-visualizer/simulator.go:427-494 | in exact and in binary64 arithmetic alike: after s upward steps the nodes of depth at least maxDepth-s hold their subtrees added up from the leaves and all others their initial buffers; after t downward steps the nodes of depth at most t hold what the root holds |
| TreeSpec.TreeOutcome | nccl-visualizer/simulator.go:427-494 | in either arithmetic all nodes end with the same buffer, the root's |
| TreeSpec.LevelUp | nccl-visualizer/simulator.go:430-467 | in either arithmetic one upward step gives exactly the next level its subtree sums |
| TreeSpec.LevelDown | nccl-visualizer/simulator.go:468-492 | in either arithmetic one downward step gives exactly the next level the root's buffer |
| TreeSpec.TreeCorrect | nccl-visualizer/simulator.go:427-494 | in exact arithmetic, after 2*maxDepth steps every block of every node is the sum of that block over all nodes, for every n >= 1 |
| TreeSpec.RootSum | nccl-visualizer/simulator.go:88-96 | the subtree of the root is the whole column |
| TreeSpec.CutHeap | nccl-visualizer/simulator.go:88-96 | cutting the heap after its first k nodes leaves those nodes and the subtrees k..2k, with nothing lost or shared |
| TreeSpec.FrontierConserved | nccl-visualizer/simulator.go:430-467 | in the upward phase the nodes of depth at most maxDepth-s are an index prefix, and in exact arithmetic they together still hold the sum of all initial buffers |
| Collective.LinksMatch | nccl-visualizer/simulator.go:440-487 | j is among the nodes i sends to in a step exactly when i is among the nodes j receives from, and no node appears twice |
| Collective.AnyOrder | nccl-visualizer/simulator.go:459-466 | wherever both orders of two additions agree, a GPU's buffer ends as the lock-step one whatever the order in which it receives the messages of a step |
| Collective.OrderFreeExactly | nccl-visualizer/simulator.go:459-466 | the order of arrival does not matter in a step if and only if both orders agree at every node that adds two children's buffers |
| Collective.ModerateOrderNeverMatters | nccl-visualizer/simulator.go:459-466 | it matters in no step of a ring run, of an exact run, or of a binary64 run on whole numbers with totals up to 2^53 |
| Collective.OrderMatters | nccl-visualizer/simulator.go:465 | in binary64, 2^53 + 1 + 2 and 2^53 + 2 + 1 differ |
| Collective.SomeRoundIsRound | nccl-visualizer/simulator.go:459-466 | hearing in some order is the lock-step round wherever both orders of two additions agree |
| Collective.SourceCount | nccl-visualizer/simulator.go:440-487 | a tree node hears from all its children in exactly one upward step and from its parent in exactly one downward step |
| Collective.OutcomeIsAnswer | nccl-visualizer/simulator.go:368-494 | in either arithmetic and either topology all GPUs end with the same buffer: blocks added up around the ring, or up the tree |
| Collective.AllReduceCorrect | nccl-visualizer/simulator.go:368-494 | both topologies end with the sum over all GPUs everywhere, in exact arithmetic and, with every tree and ring sum rounded, in binary64 on whole numbers with totals up to 2^53 |
| Collective.TopologiesAgree | nccl-visualizer/simulator.go:368-494 | ring and tree then end with identical buffers from the same data |
| Collective.TopologiesAgreeExactly | nccl-visualizer/simulator.go:368-494 | in either arithmetic they do if and only if the two orders of summation come to the same in every block |
| Barrier.PlanIsValid | nccl-visualizer/simulator.go:368-494 | the messages of every step of both topologies form a consistent plan: senders and receivers agree and fit the channels |
| Barrier.StepKeepsInv | nccl-visualizer/simulator.go:212-249 | every channel operation of the coordinator or a goroutine keeps the step invariant: program points, inboxes, buffers and reports all agree |
| Barrier.InboxBounded | nccl-visualizer/simulator.go:58-59 | a GPU never has more messages than its sources, so its channel never overflows its capacity |
| Barrier.MessagesAreGenuine | nccl-visualizer/simulator.go:370-487 | at any time in a step, every message a GPU has received or finds in its channel is addressed to it, of this step, and from a GPU it must hear from; in the ring it carries block (sender - step) mod n of the sender's buffer before the step, in the tree all of it |
| Barrier.NeverBlocksOnSend | nccl-visualizer/simulator.go:378-385 | a goroutine about to send never finds its target's channel full |
| Barrier.NeverBlocksOnReport | nccl-visualizer/simulator.go:247 | a goroutine about to report never finds doneChan full |
| Barrier.Progress | nccl-visualizer/simulator.go:212-249 | until Step returns, the coordinator or some goroutine can move |
| Barrier.CompletedHeard | nccl-visualizer/simulator.go:222-225 | when Step has collected n completions all channels are empty and every GPU has absorbed one message from each of its sources |
| Barrier.CompletedOutcome | nccl-visualizer/simulator.go:222-225 | every buffer is then the lock-step one, wherever both orders of two additions agree |
| Barrier.ChannelsBounded | nccl-visualizer/simulator.go:58-59 | no channel exceeds its capacity |
| Barrier.EachOperationCounts | nccl-visualizer/simulator.go:212-249 | every operation uses up one of the finitely many the step consists of |
| Barrier.StepIsConfluent | nccl-visualizer/simulator.go:212-249 | from empty channels every interleaving is bounded, never exceeds a channel's capacity, and, if it cannot be extended, has made Step return with empty channels and, wherever both orders of two additions agree, the same buffers whatever the interleaving |
| Racing.RunsToCompletion | nccl-visualizer/simulator.go:212-249 | every interleaving can be carried on until Step returns |
| Racing.OneOutcomeExactly | nccl-visualizer/simulator.go:212-249 | from empty channels, all schedules of a step leave the same buffers if and only if both orders of the two additions agree at every node that adds two children's buffers |
| Racing.ThreeGPUsRace | nccl-visualizer/simulator.go:459-466 | with 2^53, 1 and 2 in a block of three GPUs, two schedules of the first tree step leave different buffers |
| Simulator.Simulator.constructor | nccl-visualizer/simulator.go:42-119 | the new simulator has the seeded buffers, a correctly built tree, and publishes its initial state |
| Simulator.Simulator.LinkNode | nccl-visualizer/simulator.go:90-96 | linking one more node sets its parent and extends its parent's children |
| Simulator.Simulator.LinkTree | nccl-visualizer/simulator.go:90-96 | afterwards every node has its heap parent and heap children |
| Simulator.Simulator.RecordNode | nccl-visualizer/simulator.go:101-105 | one visit records the node's depth, appends it to its level and raises the height if needed |
| Simulator.Simulator.ComputeDepth | nccl-visualizer/simulator.go:99-109 | the recursion terminates, visits the subtree in preorder, and records exactly those nodes |
| Simulator.Simulator.Build | nccl-visualizer/simulator.go:88-115 | links, depths, height, level table and step count are the ones of the heap tree, or of the ring |
| Simulator.Simulator.ExpectedCount | nccl-visualizer/simulator.go:452-457 | the number of children recorded at the given depth |
| Simulator.Simulator.FirstAtDepth | nccl-visualizer/simulator.go:330-336 | the first child recorded at the given depth, or -1 when there is none |
| Simulator.Simulator.Outgoing | nccl-visualizer/simulator.go:370-488 | the targets the code addresses in a step are the plan's: the next GPU in the ring; in the tree the parent, for nodes of the reducing level, or the children in increasing order, for nodes of the broadcasting level; none otherwise |
| Simulator.Simulator.Incoming | nccl-visualizer/simulator.go:370-488 | the number of receives the code performs in a step is the number of senders the plan has for it |
| Simulator.Simulator.GuardsAgree | nccl-visualizer/simulator.go:212-249 | the conditions under which the program's channel operations do not block are the transition system's |
| Simulator.Simulator.Trigger | nccl-visualizer/simulator.go:218-220 | triggering a GPU is the Trigger transition |
| Simulator.Simulator.Collect | nccl-visualizer/simulator.go:223-225 | collecting a completion is the Collect transition |
| Simulator.Simulator.Wake | nccl-visualizer/simulator.go:236 | waking is the Wake transition; the goroutine keeps the step received from the start channel, which the branches then use |
| Simulator.Simulator.Send | nccl-visualizer/simulator.go:378-385 | sending is the Send transition: the right message, built from the current buffer, to the right channel |
| Simulator.Simulator.StartsHoldTheStep | nccl-visualizer/simulator.go:218-220 | whatever waits in a start channel is the step the coordinator is in |
| Simulator.Simulator.Recv | nccl-visualizer/simulator.go:389-392 | receiving is the Recv transition: the oldest message, reduced or copied into the buffer in place |
| Simulator.Simulator.Finish | nccl-visualizer/simulator.go:247 | reporting is the Finish transition |
| Simulator.Simulator.MakeMessage | nccl-visualizer/simulator.go:373-385 | the message built by each of the four branches is the plan's message |
| Simulator.Simulator.AbsorbInPlace | nccl-visualizer/simulator.go:462-490 | the in-place update of each of the four branches is the specification's |
| Simulator.Simulator.SomeoneCanMove | nccl-visualizer/simulator.go:212-249 | before Step returns some guard of the program is true |
| Simulator.Simulator.Advance | nccl-visualizer/simulator.go:212-249 | whichever enabled operation the scheduler picks, the step invariant is kept and the remaining work decreases by one |
| Simulator.Simulator.RunStep | nccl-visualizer/simulator.go:217-225 | the channel traffic of a step terminates under every scheduler, leaves all channels empty and turns each buffer into what hearing from its sources in some order makes of it |
| Simulator.Simulator.Step | nccl-visualizer/simulator.go:212-231 | Step returns whether more remains; it changes nothing when finished, and otherwise turns each buffer into what hearing from its sources in some order makes of it, counts the step and republishes |
| Simulator.Simulator.StepInStep | nccl-visualizer/simulator.go:212-231 | Step keeps to the lock-step run from any of its states |
| Simulator.Simulator.UpdateState | nccl-visualizer/simulator.go:172-209 | what is published are fresh copies of the current buffers and of the seeds, with current telemetry, and Finished is set exactly at the last step |
| Simulator.Simulator.LastSentTo | nccl-visualizer/simulator.go:291-317 | names the first GPU messaged in the coming step: (i+1) mod n in the ring, the parent (i-1)/2 of a reducing node, the first child 2i+1 of a broadcasting one, and -1 for every GPU that sends nothing |
| Simulator.Simulator.LastReceivedFrom | nccl-visualizer/simulator.go:320-348 | names the first GPU to be heard from in the coming step: (i-1) mod n in the ring; the first child 2i+1 of a node one level above the reducing one, if it has a child; the parent (i-1)/2 of a node one level below the broadcasting one; and -1 for every other GPU |
| Simulator.Simulator.ActiveBlockIdx | nccl-visualizer/simulator.go:351-365 | names the block of the message the GPU sends in the coming ring step, (i - step) mod n in both phases, and -1 in the tree and after the last step |
| Simulator.Simulator.GetState | nccl-visualizer/simulator.go:148-169 | the snapshot shows the current buffers and the seeds and shares no array with the live ones |
| Simulator.Simulator.RunToEnd | nccl-visualizer/simulator.go:212-231 | stepping until finished terminates, and from any intermediate state of a lock-step run ends in its last state |
| Simulator.Simulator.RunSeeded | nccl-visualizer/simulator.go:212-231 | from the seeds it ends with the buffers of the last lock-step round, as long as the order of arrival matters in no step |
| Simulator.Simulator.SnapshotThenRun | nccl-visualizer/simulator.go:148-231 | a snapshot taken at any step still shows that step's buffers after the rest of the run has updated the live ones in place |
| Simulator.Simulate | nccl-visualizer/simulator.go:42-231 | for both topologies, either arithmetic and every n >= 1: as long as the order of arrival matters in no step, as it never does in the ring, all GPUs publish the topology's sums of the seeds; these are the column sums in exact arithmetic, and in binary64 while 6n^2+5n is at most 2^53; the seeds are still shown as initial buffers |
| Seeding.SeedTotal | nccl-visualizer/simulator.go:61-69 | the answer for the seeds is 5n(n+1) + n(j+1) in block j |
| Float64.RoundIsNearest | k8s-operator/internal/controller/sentineldeployment_controller.go:70 | rounding to nearest: no representable number is closer to the exact result |
| Float64.TiesToEven | k8s-operator/internal/controller/sentineldeployment_controller.go:70 | when another representable number is as close, the significand chosen is even |
| Float64.RoundIsDouble | k8s-operator/internal/controller/sentineldeployment_controller.go:70 | the rounded value is itself representable, for results below 2^1023 |
| Float64.RoundMonotone | k8s-operator/internal/controller/sentineldeployment_controller.go:70 | rounding keeps order |
| Float64.AddExact | nccl-visualizer/simulator.go:392 | a float64 addition of integers is exact while the sum is within 2^53 |
| Float64.MultiplyExact | nccl-visualizer/main.go:48-54 | and so is a multiplication |
| Float64.AddIntegers | nccl-visualizer/main.go:63 | between 2^53 and 2^54 a sum of integers rounds to an even one, ties to a multiple of 4 |
| Exactness.RingWithin | nccl-visualizer/simulator.go:368-424 | on non-negative whole numbers every value a ring run ever holds is a whole number between 0 and its column total |
| Exactness.TreeWithin | nccl-visualizer/simulator.go:427-494 | on non-negative whole numbers every value a tree run ever holds is a whole number between 0 and its column total |
| Exactness.RoundedRingIsExact | nccl-visualizer/simulator.go:368-424 | the binary64 ring run equals the exact run at every round when all column totals are at most 2^53 |
| Exactness.RoundedTreeIsExact | nccl-visualizer/simulator.go:427-494 | and so does the binary64 tree run at every step |
| Exactness.RoundedSumIsExact | nccl-visualizer/main.go:58-66 | and so does the sequential sum |
| Exactness.ModerateOrdersAgree | nccl-visualizer/main.go:58-221 | ring order and sequential order give the same sums, in exact arithmetic and on such data in binary64 |
| Exactness.SeedsAreModerate | nccl-visualizer/simulator.go:61-69 | the simulator's seeds need no rounding while 6n^2+5n is at most 2^53 |
| Exactness.FewGPUs | nccl-visualizer/main.go:45-56 | the powers-of-ten seeds need no rounding for up to 15 GPUs |
| Cluster.SplitRoundTrip | slurm-simulator/scheduler.go:80 | splitting a node list at commas loses nothing and leaves no comma in any part |
| Cluster.FirstFit | slurm-simulator/scheduler.go:83-112 | the result is a listed, existing node that passes every check, or nothing when no listed node does |
| Scheduling.FirstFitIsFirst | slurm-simulator/scheduler.go:83-112 | every earlier entry of the list is unknown or has no room |
| ClusterStore.RecalculateNodeState | slurm-simulator/store.go:338-355 | the label is IDLE exactly when no CPU and no GPU is in use, ALLOCATED exactly when all of both are and not none, else MIXED; nothing else changes |
| ClusterStore.ReleaseOn | slurm-simulator/store.go:313-333 | a release subtracts the request from every counter, clamps each at zero and relabels the node |
| ClusterStore.CheckNode | slurm-simulator/scheduler.go:89-112 | the checks succeed exactly when CPU, memory and GPU room suffices, and find the first gpu entry |
| ClusterStore.AllocateOn | slurm-simulator/scheduler.go:114-120 | an allocation adds the request to the counters and to the first gpu entry, and relabels the node |
| ClusterStore.ClusterStore.constructor | slurm-simulator/store.go:147-206 | four idle nodes of 64, 64, 32 and 32 CPUs with 8, 8, 4 and 4 GPUs, two partitions of two nodes each, no jobs, first id 10001 |
| ClusterStore.ClusterStore.SubmitJob | slurm-simulator/store.go:257-282 | adds a pending job under the next id, with the request as given, submitted now and never started, and changes nothing else |
| ClusterStore.ClusterStore.ReleaseResources | slurm-simulator/store.go:309-335 | releases on the node named by the job if it exists, and touches no other node and no job |
| ClusterStore.ClusterStore.CancelJob | slurm-simulator/store.go:285-306 | whatever state the job is in, its record becomes CANCELLED with the current time as end time and is otherwise unchanged, and that record is returned; no other job changes, and no node unless it was running; an unknown id changes nothing |
| ClusterStore.ClusterStore.FindNode | slurm-simulator/scheduler.go:79-112 | the walk finds the first-fit node |
| ClusterStore.ClusterStore.TryScheduleJob | slurm-simulator/scheduler.go:70-139 | fails the job for an unknown partition, starts it on the first-fit node, or leaves the store unchanged |
| ClusterStore.ClusterStore.StartOn | slurm-simulator/scheduler.go:114-132 | takes the resources, and the job's record says that it runs on that node, from now until its duration has passed, with the request unchanged |
| ClusterStore.ClusterStore.ReconcileJobs | slurm-simulator/scheduler.go:46-67 | a tick is a completing pass followed by a scheduling pass, each visiting every job once in some order |
| Resources.AllocateEffect | slurm-simulator/scheduler.go:114-120 | usage grows by exactly the request, capacity and shape stay |
| Resources.FirstGpuEntry | slurm-simulator/scheduler.go:100-120 | the first gpu entry alone decides whether a job fits, and is the only one an allocation charges |
| Resources.GpuSums | slurm-simulator/store.go:340-347 | the GPU counts behind the label add up all gpu entries and no others |
| Resources.FitsIsRoom | slurm-simulator/scheduler.go:89-112 | on a node with one gpu entry a job fits exactly when, with its request added, no more than the capacity is in use; memory is only looked at when it was asked for |
| Resources.ReleaseEffect | slurm-simulator/store.go:309-335 | CPU and memory usage shrink by the request, each clamped at zero, capacity and shape stay; with one gpu entry so does GPU usage |
| Resources.ReleaseCreditsEveryEntry | slurm-simulator/store.go:323-330 | a release takes the request from every gpu entry, so with several of them their usage shrinks by a multiple of it |
| Resources.GresRoundTripExactly | slurm-simulator/store.go:323-330 | allocation followed by release restores a resource list if and only if the request has no GPUs or every gpu entry but the first is unused |
| Accounting.NewClusterInv | slurm-simulator/store.go:147-206 | the initial store satisfies the accounting invariant |
| Accounting.SubmitKeepsInv | slurm-simulator/store.go:257-282 | a submission keeps it that is non-negative or that no empty node of its partition would take |
| Accounting.CancelKeepsInv | slurm-simulator/store.go:285-306 | a cancellation keeps it, whatever the job's state |
| Accounting.StartKeepsInv | slurm-simulator/scheduler.go:114-132 | starting a pending job on a node it fits keeps it |
| Accounting.StopKeepsInv | slurm-simulator/scheduler.go:53-59 | stopping a running job and releasing its node keeps it |
| Accounting.ReconcileKeepsInv | slurm-simulator/scheduler.go:46-67 | a tick keeps it, for every pair of visiting orders |
| Accounting.ClampsNeverFire | slurm-simulator/store.go:313-330 | under the invariant no clamp changes a value: a running job's request is part of what its node has in use, and the release returns exactly that |
| Resources.RoundTrip | slurm-simulator/scheduler.go:114-120 | allocating and releasing a fitting non-negative request leaves a healthy node exactly as it was, label included |
| Resources.SafeExactlyWhenNonNegative | slurm-simulator/store.go:257-277 | one request on any one node: allocation and release are safe on every healthy node with room if and only if no part of the request is negative |
| Resources.ReleaseBalancedExactly | slurm-simulator/store.go:313-330 | a release leaves a node balanced if and only if no clamp fires and the memory request is not negative |
| Lifecycle.RunKeepsInv | slurm-simulator/store.go:257-306 | every run of cancellations, ticks and submissions that are non-negative or can never be placed keeps the accounting invariant |
| Lifecycle.ResourcesConserved | slurm-simulator/store.go:257-355 | after every such run each node's counters are the sums over the jobs running on it, within 0 and capacity, and its label is IDLE, ALLOCATED or MIXED as nothing, everything or something in between is in use |
| Lifecycle.OneOperation | slurm-simulator/store.go:285-306 | what one operation makes of a job's record: a cancellation of it ends it now; a tick completes a running job exactly if its end time has come, fails a pending one exactly if its partition is unknown, and starts it now or leaves it otherwise; nothing else touches it |
| Lifecycle.JobHistories | slurm-simulator/store.go:257-306 | over every run no job is lost, ids are consecutive, and each job only moves forward: it starts at most once and keeps its node and start time for good |
| Records.JobRecord | slurm-simulator/store.go:257-306 | after every run from any store with consecutive ids, the record of each job submitted in it tells the run: request and submit time are those of the submission its id counts; it has a start time exactly if a tick started it, that tick's; it is CANCELLED, at the time of the last cancellation, exactly if it was cancelled; if not, it is COMPLETED exactly if a tick after its start came at or past its end time, RUNNING if none did, FAILED exactly if its partition is unknown and a tick came after its submission, else PENDING |
| Records.LastCancelled | slurm-simulator/store.go:285-306 | a job that is cancelled, in whatever state, ends as CANCELLED at the time of the last cancellation |
| Records.FromRunning | slurm-simulator/scheduler.go:53-59 | a running job that is not cancelled completes exactly if some tick comes at or past its end time, and its record is otherwise unchanged |
| Records.FromPending | slurm-simulator/scheduler.go:61-132 | a pending job that is not cancelled is pending, failed, running or completed for one reason each |
| Lifecycle.SubmittedIdIsFresh | slurm-simulator/store.go:279-280 | the next id is always new and counts the submissions |
| Lifecycle.ConservesExactly | slurm-simulator/store.go:257-335 | over all runs from an empty store whose other submissions are non-negative: the counters always balance if and only if the request has no negative part or no empty node of its partition would take it |
| Lifecycle.NewClusterConservesExactly | slurm-simulator/store.go:147-335 | the same for the store the simulator starts with |
| Lifecycle.FinalExactlyUntilCancelled | slurm-simulator/store.go:285-306 | in every run the record of a completed or failed job stays as it is if and only if the run does not cancel that job |
| Witnesses.NegativeCpus | slurm-simulator/handlers.go:163-177 | a submission with a negative CPU count, which the handler passes on, and a tick leave a node with fewer than zero CPUs in use |
| Witnesses.NegativeMemory | slurm-simulator/store.go:313-319 | a negative memory request, once cancelled, leaves memory in use on a node where nothing runs |
| Witnesses.EndsInThePast | slurm-simulator/scheduler.go:129-132 | a negative duration leaves a job running whose end time has passed |
| Witnesses.CompletedThenCancelled | slurm-simulator/store.go:285-306 | a completed job becomes cancelled |
| Witnesses.LeftBehind | slurm-simulator/scheduler.go:61-66 | a tick that visits 65 CPUs first and -5 CPUs next leaves a pending job that fits |
| Witnesses.StartedInRoomMade | slurm-simulator/scheduler.go:61-132 | a job that no node has room for before a tick is started by it beside a negative request, and runs with an end time that has passed |
| Scheduling.BlockedPersists | slurm-simulator/scheduler.go:61-66 | a job with no room stays without room while the pass goes on, if the pending jobs that could start take nothing negative |
| Scheduling.NeverMakesRoomExactly | slurm-simulator/scheduler.go:114-119 | on any one node, starting a job makes room for no other if and only if its CPU and GPU counts are not negative |
| Scheduling.HarmlessExactly | slurm-simulator/scheduler.go:61-139 | over all stores and orders of a pass: a pending request leaves the pass work-conserving, beside others that take nothing negative, if and only if its CPU and GPU counts are not negative |
| WorkConservation.ConservesWorkExactly | slurm-simulator/scheduler.go:46-139 | over all runs from an empty store with partitions of one kind of node, whose other submissions are non-negative: every tick in every order leaves no pending job that fits, if and only if the request's CPU and GPU counts are not negative or no empty node of its partition would take it |
| WorkConservation.NewClusterConservesWorkExactly | slurm-simulator/store.go:147-282 | the same for the store the simulator starts with |
| Scheduling.DecidedAtItsTurn | slurm-simulator/scheduler.go:61-66 | each job is decided once, by the store as it is at the job's turn, whatever the order |
| Scheduling.ReconcileJob | slurm-simulator/scheduler.go:50-66 | what one tick does to each job: an expired one is completed, a pending one failed exactly if its partition is unknown, and otherwise left or started with this tick's start and end time; no other changes |
| Scheduling.StartedOnFirstFit | slurm-simulator/scheduler.go:50-132 | each job a tick started sits on the first listed node that fitted in the store at its turn, with its request unchanged, start time now and end time now plus its duration |
| Scheduling.WorkConserving | slurm-simulator/scheduler.go:50-66 | after a tick, in any visiting order, no pending job fits any node of its partition, if the pending jobs that could start take nothing negative |
| Scheduling.TakersAreOrderly | slurm-simulator/scheduler.go:50-66 | it is enough for that hypothesis that no pending request is negative in what it takes |
| Scheduling.BalancedStaysOrderly | slurm-simulator/scheduler.go:50-66 | or that the accounting invariant holds before the tick |
| Scheduling.EndTimeExactly | slurm-simulator/scheduler.go:129-132 | the end time lies in the future if and only if the duration is positive and does not overflow the clock |
| Scheduling.RunningEndLaterExactly | slurm-simulator/scheduler.go:50-132 | for every order of the second pass all running jobs end in the future, if and only if at every turn that pass can come to, a pending job that can then start asks for a positive duration that does not overflow the clock |
| Scheduling.OrderlyEndLaterExactly | slurm-simulator/scheduler.go:50-132 | where the pending jobs that could start take nothing negative, it is enough that those which can start after the first pass ask for such a duration |
| Scheduling.StartedBySomeOrderExactly | slurm-simulator/scheduler.go:61-66 | a pending job is started by some order of the second pass if and only if it can start at some turn of it |
| Scheduling.SomeOrderStarts | slurm-simulator/scheduler.go:61-66 | whatever the others ask for, a job that can start at a turn is started by an order that comes to it then |
| Scheduling.OrderlyTurn | slurm-simulator/scheduler.go:61-66 | where the pending jobs that could start take nothing negative, a job that can start at some turn can start after the first pass |
| PassOrder.FirstPassIsOrderFree | slurm-simulator/scheduler.go:53-59 | on a balanced store the first pass leaves the same store in every order |
| PassOrder.AnyCallEndsLaterExactly | slurm-simulator/scheduler.go:46-132 | on any store, in every order of both passes all running jobs end in the future, if and only if that condition on turns holds after every order of the first pass |
| PassOrder.CallsEndLaterExactly | slurm-simulator/scheduler.go:46-132 | on a balanced store, if and only if the jobs that can start after any one order of the first pass ask for a positive duration that does not overflow |
| Draining.DrainProgress | slurm-simulator/scheduler.go:46-139 | a tick past every running job's end strictly reduces the number of pending jobs, if any of them fits an empty node or names an unknown partition |
| Draining.DrainedPersists | slurm-simulator/scheduler.go:46-139 | once only unplaceable jobs are pending, that stays so |
| Draining.DrainCompletes | slurm-simulator/scheduler.go:46-139 | as many ticks past the running jobs' ends as there are pending jobs leave only jobs that fit no empty node |
| Ticking.BusyUntilDrained | slurm-simulator/scheduler.go:25-67 | after any tick some job runs, or nothing that is pending can ever be placed |
| Ticking.WeightShrinks | slurm-simulator/scheduler.go:50-132 | a tick adds to no job's remaining work, and takes the time that has passed from every running job's |
| Ticking.TicksDrain | slurm-simulator/scheduler.go:25-67 | ticks at any nondecreasing times at most a given gap apart drain the queue, once they have gone on for longer than the remaining run times plus one gap for every unfinished job |
| Ticking.TicksDrainFromAnyStore | slurm-simulator/scheduler.go:25-67 | the same from any balanced store, counting from the first tick |
| SlurmServer.Perform | slurm-simulator/store.go:257-306 | each request performed on the objects is the operation of that request |
| SlurmServer.Serve | slurm-simulator/store.go:257-306 | serving any stream of requests takes the store through the run of exactly these requests, one operation each; when every submission is non-negative or can never be placed, every node object balances, label included, with the jobs running on it |
| Replicas.CeilDivIsLeast | k8s-operator/internal/controller/sentineldeployment_controller.go:69-70 | the integer ceiling is the least multiplier of the threshold that covers the depth |
| Replicas.Separator | k8s-operator/internal/controller/sentineldeployment_controller.go:70 | between an integer and any larger quotient of int32 values lies a float64 number |
| Replicas.CeilExact | k8s-operator/internal/controller/sentineldeployment_controller.go:70 | the ceiling of the rounded float64 quotient is the integer ceiling, for every int32 depth, negative ones included, and every positive int32 threshold |
| Replicas.ClampedCeilingIsTarget | k8s-operator/internal/controller/sentineldeployment_controller.go:71-76 | clamping that ceiling gives the least allowed count that keeps up, or the maximum if none does; the maximum also wins when the bounds are crossed |
| Replicas.TargetIsUnique | k8s-operator/internal/controller/sentineldeployment_controller.go:71-76 | there is only one such count |
| Replicas.TargetOfFields | k8s-operator/internal/controller/sentineldeployment_controller.go:48-76 | absent or non-positive fields mean a minimum of 1, a maximum of 10 and a threshold of 5, and positive ones are used as given; the target is the ceiling of depth over threshold held between the bounds, and at least 1 |
| Replicas.SentinelDeployment.TargetReplicas | k8s-operator/internal/controller/sentineldeployment_controller.go:54-76 | for all field values and depths, the least count that keeps up between the bounds in force: the fields that are positive, and 1, 10 and 5 for the others; it is at least 1 |
| Replicas.SentinelDeployment.Reconcile | k8s-operator/internal/controller/sentineldeployment_controller.go:62-136 | one pass writes the deployment exactly if its replica count, 1 when absent, is not the target, and then to the target; it records queue depth and observed replicas |
| Replicas.ReconcileSettles | k8s-operator/internal/controller/sentineldeployment_controller.go:95-110 | a second pass over the same queue depth scales nothing |

## Left out

- A simulator with zero GPUs: building the tree for it indexes an empty slice; the constructor asks for at least one.
- The free-running ring with one GPU is rejected by the program before anything runs; the model allows it, with no rounds.
- `Stop` and closed start channels: a goroutine that returns does nothing more.
- A goroutine's program point and received step live in a companion object, and its counters are reset when it wakes; the source keeps them on the goroutine's stack.
- Infinities, NaN and overflow: binary64 addition is modelled with its rounding only.
- RingProgram.Demonstrate: for more than 16 GPUs it is not decided on which numbers of them the two orders of summation round alike; the comparison succeeds exactly on those (`RingProgram.AllReduce`).
- Float64.RoundIsDouble: results of 2^1023 and more in size, near overflow to infinity, are not covered.
- Phase and status texts, logs, colours, delays and all rendering: display only.
- Integer widths other than in the end time of a job, the replica arithmetic and float64 significands: Go's `int` and `int64` counters are unbounded here.
- Partition fields other than the node list, and GPU types, gres allocation strings and queue names: no operation reads them.
- The sharing of a node's resource list between `GetNodes` results and the store: node lists are values here, so nothing is said about what such a copy shows later.
- Locks, tickers, HTTP, authentication and JSON: store operations are atomic steps and the clock is a parameter.
- Lifecycle.ResourcesConserved: asks for submissions that are non-negative or can never be placed, which the source does not enforce; the exact condition is `Lifecycle.ConservesExactly`.
- Scheduling.WorkConserving: asks that the pending jobs that could start take nothing negative, which the source does not enforce; the exact condition on a request, over runs, is `WorkConservation.ConservesWorkExactly`.
- WorkConservation.ConservesWorkExactly: for partitions whose nodes are of one kind, as the initial store's are.
- Ticking.TicksDrain: without new submissions; with them the queue need not drain.
- The Kubernetes client, failing reads and writes, requeueing and the scale timestamp: library calls. The queue depth is a parameter, absent when it cannot be read.
- `redfish-simulator`, `mcp-server` and `metaflow-pipeline`: table look-ups, client calls and string formatting, with nothing hard to prove.
