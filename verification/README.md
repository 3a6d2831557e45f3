# Verified model of the mu executor, muDB keyspace and marketplace

mu runs serverless stacks on a cluster of nodes. Each node's *scheduler* decides whether it should run a
stack; the XOR-closest node is meant to end up as the only one that does. Nodes learn about each other
through *membership*, a table of generation-stamped status entries written with compare-and-swap. Stacks keep
their data in *muDB*, which flattens (stack, table, key) into byte strings of one ordered store. Usage is
collected on the nodes and paid for through a *marketplace* program that moves tokens on chain.

This project models these parts in Dafny and proves what they promise over every input, every run or every
interleaving. `dafny verify dfyconfig.toml` checks everything.

## Layout

| files | what they hold |
|---|---|
| `Ids`, `XorMetric` | identifiers; the XOR distance and the search for the closest node |
| `StackMachine`, `SchedulerRuns` | what a scheduler message does to one stack, and what holds after every message sequence |
| `Scheduler` | the scheduler with its mutable maps, each method proved against `StackMachine` for all stacks at once |
| `Cluster`, `ClusterChurn` | a cluster of schedulers exchanging news in rounds: convergence, also when nodes die and join, and how it gets stuck |
| `Membership`, `MembershipListener`, `MembershipState`, `MembershipStore`, `MembershipProto` | the diff of the shared table into notifications, what those who hear them believe, the mutable node index, the compare-and-swap protocol, the stored form |
| `KeyRange`, `Keys`, `Db` | prefix ranges, key codecs and scans, and the client that updates a stack's tables |
| `Billing`, `Ledger`, `LedgerHistory`, `Marketplace`, `Settlement` | pricing and usage aggregation, the on-chain instructions as a state machine, its state told from the instructions that succeeded, the same instructions step by step on mutable accounts, and what a user pays for registered usage |
| `StackIndex` | the blockchain monitor's linked indexes of stacks and owners |
| `Manifest`, `Validation` | stack manifests, their protobuf form, and validation |

## What is modelled how

* A call into the runtime succeeds or fails as the environment chooses; every message carries its outcomes.
* Every scheduler message treats each stack on its own, so runs are studied stack by stack (`StackMachine`)
  and the class is proved to behave that way for all stacks together (`Scheduler.RunMailbox`).
* Clocks are arbitrary inputs. Map and set iteration picks an arbitrary element each time.
* The address hash is any function. No 32-byte hash is injective on all addresses, so the proofs ask only that
  the addresses in use do not collide.
* Chain arithmetic is checked, as the program's manifest asks (`overflow-checks = true`): a product or sum that
  does not fit makes the instruction fail, while `as u64` truncates silently.
* A failed instruction is rolled back as a whole. The token program's own instructions, which anybody may send
  for accounts they control, are part of every run.

## Where a natural property fails

* A cluster does not converge from every state: it converges exactly when it is not `Stuck`
  (`Cluster.ClusterConvergence`). It gets stuck when a deployment fails, which is never tried again
  (`ClusterChurn.FailedDeploymentSticks`), and when a holder that is not the last one dies, which queues nobody
  (`ClusterChurn.LostHolderSticks`); `ClusterChurn.DeathSticksIff` says exactly which deaths do it.
* A scheduler that starts with a definition of a stack nobody runs never looks at it on its own
  (`SchedulerRuns.NoStackForgotten`, `InitialStackIgnoredByTicks`); the executor starts with none.
* A failed undeployment leaves the stack in the published set although it no longer counts as running here
  (`SchedulerRuns.FailedUndeploymentStaysAnnounced`; the exact gap is `SchedulerRuns.EveryRunAnnouncedExactly`).
* Stacks that a node already runs when it is discovered, and keeps running, are never announced, so it can be
  believed to run nothing (`MembershipListener.DiscoveredStacksNeverAnnounced`); changes of a dead node are
  announced, so it can be believed to run something (`MembershipListener.DeadNodeBelieved`). The belief about the
  node known at an endpoint is right exactly when nothing is unheard of (`MembershipListener.BeliefExact`). A
  replaced incarnation is believed to run nothing, for ever, exactly when it was live or had nothing heard of it
  (`MembershipListener.ReplacedForever`).
* For the same reason a settled cluster keeps two holders when a closer node joins and deploys the stack before the
  others see its first entry (`ClusterChurn.BlindJoinSplits`).
* A prefix ending in 0xFF gives a range wider than the prefix (`KeyRange.WiderWithTrailingMax`); for user keys the
  exact condition is `Keys.Leaky` (`Keys.ScanByInnerKeyPrefixExact`).
* Asking for a missing table to be both added and deleted adds it (`Db.PlusAddedMinusDeleted`). After
  every half-way failure a retry completes the update exactly when no table is both added and deleted
  (`Db.RetryCompletesIff`, with the failing retries in `Db.RetryGoesWrong`).
* A price component of 2^64 tokens or more is cut by a cast and undercharged (`Billing.CastLosesValue`).
* Removing an owner's last stack leaves the owner in an index; walking that index then fails
  (`StackIndex.ActiveListing`, `StackIndex.LastRemovalLeavesStaleIndex`).
* A manifest with a missing `delete` flag does not come back unchanged (`Manifest.StackUnchanged`).

## Model

| member | source | states |
|---|---|---|
| `XorMetric.DistanceInjective` | executor/src/stack/scheduler.rs:886-914 | two nodes equally far from a stack are the same node, so the search has no ties |
| `XorMetric.CloserByLastDifference` | executor/src/stack/scheduler.rs:886-914 | who is closer is decided at the last byte in which two hashes differ, by the smaller exclusive or with the stack's byte there |
| `XorMetric.ClosestUnique` | executor/src/stack/scheduler.rs:886-914 | at most one answer meets the promise of the search, so iteration order cannot matter |
| `XorMetric.GetClosestNode` | executor/src/stack/scheduler.rs:886-914 | the loop answers `Me` when nobody is strictly closer and otherwise the closest other node, whatever order the set is visited in |
| `XorMetric.ClosestNodeAgreement` | executor/src/stack/scheduler.rs:886-914 | for every nonempty set of nodes exactly one member answers `Me` and every other member names it |
| `SchedulerRuns.StepKeepsWellPlaced` | executor/src/stack/scheduler.rs:321-816 | every message keeps the shape invariant of a stack's deployment state |
| `SchedulerRuns.EveryRunWellPlaced` | executor/src/stack/scheduler.rs:216-816 | after every message sequence: `DeployedToOthers` is nonempty, a candidate is a known and strictly closer node, a stack running here and not queued has no closer recorded holder, and a held definition has the key's own id |
| `SchedulerRuns.EveryRunAnnouncedExactly` | executor/src/stack/scheduler.rs:535-797 | after every run a stack running here is announced, and an announced stack does not run here exactly when its last decisive runtime call was a failed undeployment |
| `SchedulerRuns.FailedUndeploymentStaysAnnounced` | executor/src/stack/scheduler.rs:669-695 | a run from start-up after which the stack is announced and does not run here |
| `SchedulerRuns.AnnouncedIffRunsHere` | executor/src/stack/scheduler.rs:846-878 | if no undeployment failed, the announced stacks are exactly those running here |
| `SchedulerRuns.EveryRunRunsAsHeld` | executor/src/stack/scheduler.rs:645-797 | after every run a self-deployed stack holds the very definition the runtime was given last, and a pending update is newer than that one |
| `SchedulerRuns.UpdateIsDeployed` | executor/src/stack/scheduler.rs:730-762 | a pending update with no closer holder is handed to the runtime by the next successful tick |
| `SchedulerRuns.DataOnlyDestroyedOnRequest` | executor/src/stack/scheduler.rs:535-573 | in every run the runtime is asked to destroy a stack's data only if a permanent removal of that stack was received |
| `SchedulerRuns.RemovalReachesRuntime` | executor/src/stack/scheduler.rs:535-573 | a removal of a stack that runs here undeploys it in the mode asked for and forgets it |
| `SchedulerRuns.NothingBeforeGoAhead` | executor/src/stack/scheduler.rs:612-616 | before the go-ahead no runtime call is made, however often the scheduler ticks |
| `SchedulerRuns.NoStackForgotten` | executor/src/stack/scheduler.rs:333-816 | in all runs an undeployed or pending-update stack is queued or its latest deployment failed, if and only if the scheduler did not start with a definition that runs nowhere |
| `SchedulerRuns.InitialStackIgnoredByTicks` | executor/src/stack/scheduler.rs:612-623 | a stack that is not queued is untouched by any number of ticks |
| `SchedulerRuns.EveryRunHoldsNewest` | executor/src/stack/scheduler.rs:471-533 | the definition held after every run is one received since the last removal and has the highest revision among them |
| `SchedulerRuns.RevisionIndependentOfOrder` | executor/src/stack/scheduler.rs:471-533 | two runs that received the same definitions, in any order and amid any other messages, hold the same revision |
| `SchedulerRuns.EveryRunRecordsNews` | executor/src/stack/scheduler.rs:333-573 | after every run the holders recorded for a stack are exactly the replay of deaths, deployments, undeployments and removals, whatever the scheduler decided in between |
| `Scheduler.Scheduler.constructor` | executor/src/stack/scheduler.rs:216-304 | the initial maps give every stack the start state the specification says |
| `Scheduler.Scheduler.Step` | executor/src/stack/scheduler.rs:321-610 | one message on the mutable maps changes every stack as the single-stack machine says, including runtime calls and notifications |
| `Scheduler.Scheduler.RemoveNode` | executor/src/stack/scheduler.rs:333-383 | a dead node is forgotten and dropped from every stack's record, with the exact re-evaluation rule of each state |
| `Scheduler.Scheduler.RecordDeployments` | executor/src/stack/scheduler.rs:385-419 | every listed stack records the new holder and is queued |
| `Scheduler.Scheduler.RecordUndeployments` | executor/src/stack/scheduler.rs:421-469 | every listed stack loses the holder and is queued |
| `Scheduler.Scheduler.AddStacks` | executor/src/stack/scheduler.rs:471-533 | every listed definition is taken in turn: newer revisions replace older ones, and the stack is queued |
| `Scheduler.Scheduler.RemoveStacks` | executor/src/stack/scheduler.rs:535-573 | every listed stack is undeployed if it runs here and forgotten |
| `Scheduler.Scheduler.TickAll` | executor/src/stack/scheduler.rs:612-816 | a tick re-evaluates exactly the queued stacks, each as specified, and clears the queue |
| `Scheduler.Scheduler.TickOne` | executor/src/stack/scheduler.rs:623-797 | one queued stack moves to the specified state with the specified runtime call, and no other stack changes |
| `Scheduler.Scheduler.CheckCloserRemote` | executor/src/stack/scheduler.rs:818-832 | finds a recorded holder strictly closer than this node exactly when there is one |
| `Scheduler.PublishedIsAnnounced` | executor/src/network/membership.rs:310-324 | membership's set, obtained by replaying the notifications, holds exactly the stacks announced last |
| `Scheduler.RunMailbox` | executor/src/stack/scheduler.rs:216-926 | for every start and every mailbox, all stacks of the running scheduler behave as their single-stack runs, keep the shape invariant, hold what the runtime runs and no placeholder, and are published exactly as stated above |
| `Cluster.TickEffect` | executor/src/stack/scheduler.rs:612-816 | in a cluster in sync, a tick leaves a node running the stack exactly when the next-holder rule says so |
| `Cluster.RoundEffect` | executor/src/stack/scheduler.rs:385-469 | a round of ticks and truthful news, in any order and with repeats, leaves the cluster in sync with the next holders, and queues exactly the nodes that heard of a change |
| `Cluster.NeverDroppedByAll` | executor/src/stack/scheduler.rs:669-797 | a stack somebody runs still has one of its holders after a round |
| `Cluster.StuckMeansStill` | executor/src/stack/scheduler.rs:373-379 | being stuck, a condition on queues and holders, is exactly that the closest node does not run the stack and nothing moves |
| `Cluster.ClusterConvergence` | README.md:161-163 | after any three or more rounds the XOR-closest node is the only holder if and only if the cluster was not stuck |
| `Cluster.TwoRoundsWhenAllQueued` | executor/src/stack/scheduler.rs:669-797 | if every node re-evaluates, two rounds make the closest node the only holder |
| `Cluster.SettledStays` | executor/src/stack/scheduler.rs:669-797 | once the closest node is the only holder it stays so in every later round |
| `Cluster.StartedInSync` | executor/src/stack/scheduler.rs:216-304 | nodes that start knowing each other and receive a new stack are in sync, with every node about to re-evaluate it |
| `Cluster.FaithfulNewsExist` | executor/src/network/membership.rs:407-421 | in every state there is truthful news to deliver, so rounds never block |
| `Cluster.NewStackConverges` | README.md:159-163 | from start-up, a new stack runs on the XOR-closest node and only there after two rounds and ever after |
| `Cluster.HandOffOnlyToCloser` | executor/src/stack/scheduler.rs:818-832 | with any stale view a tick gives a stack up only to a strictly closer recorded holder |
| `ClusterChurn.FailedDeploymentSticks` | executor/src/stack/scheduler.rs:641-643 | a single node whose deployment failed, reached by a run from start-up, is in sync and stuck |
| `ClusterChurn.LostHolderSticks` | executor/src/stack/scheduler.rs:372-380 | after the death of a closer holder beside a farther one, reached by runs from start-up, the cluster is in sync and stuck |
| `ClusterChurn.DeathEffect` | executor/src/stack/scheduler.rs:333-383 | a death keeps the other nodes in sync and queues exactly those that waited for the dead node, ran the stack beside it or recorded it as the only holder |
| `ClusterChurn.DeathSticksIff` | executor/src/stack/scheduler.rs:333-383 | the exact condition, on the cluster before it, under which a death leaves the cluster stuck |
| `ClusterChurn.SettledSurvivesDeath` | executor/src/stack/scheduler.rs:333-383 | whoever dies, a settled cluster is not stuck afterwards |
| `ClusterChurn.JoinSticksIff` | executor/src/stack/scheduler.rs:329-331 | the exact condition under which a cluster is stuck after a node joined |
| `ClusterChurn.HistoryInSync` | executor/src/stack/scheduler.rs:321-816 | through every history of rounds, deaths and joins the nodes' records stay true |
| `ClusterChurn.ConvergenceAfterHistory` | README.md:159-163 | after every such history, three or more rounds settle on the closest node if and only if the history did not leave the cluster stuck |
| `ClusterChurn.BlindJoinSplits` | executor/src/network/membership.rs:474-485 | a settled cluster joined by a node that acts before the others see it has two holders in every later round if and only if the newcomer is closer than the old holder, and one otherwise |
| `Membership.UpdateReplays` | executor/src/network/membership.rs:342-485 | for every table entry, known or not, replaying its notifications turns the live nodes before into the live nodes after, and never rediscovers a live node |
| `Membership.KnownAfterEntry` | executor/src/network/membership.rs:377-503 | told from an entry: who is known afterwards, with which stacks, and with which dead reason, if any |
| `Membership.AtStartMirrors` | executor/src/network/membership.rs:196-221 | told from an entry: who is known at start-up, with which stacks, and live exactly when alive and fresh |
| `MembershipListener.SchedulerFollowsReplay` | executor/src/lib.rs:358-391 | for every mailbox whose membership messages are those posted for the notifications, amid any ticks, definitions and removals, the scheduler's known nodes equal the replay of the notifications |
| `MembershipListener.SchedulerRecordsBelief` | executor/src/lib.rs:372-390 | until a stack is removed, the scheduler records a node as its holder exactly when the notifications say that the node runs it |
| `MembershipListener.BeliefAfterUpdates` | executor/src/network/membership.rs:342-485 | after every sequence of updates of an endpoint and for every incarnation of it: the known one is believed to run its stacks minus the unheard ones, any other what lingers of it |
| `MembershipListener.BeliefExact` | executor/src/network/membership.rs:377-485 | the believed stacks of the node known at an endpoint, live or dead, are its stacks minus the unheard ones, hence right if and only if nothing is unheard of |
| `MembershipListener.ReplacedForever` | executor/src/network/membership.rs:442-462 | from the update that replaces an incarnation on, through every further run, it is believed to run what it ran minus the unheard if it was dead and nothing otherwise; so nothing if and only if it was live or all of it was unheard |
| `MembershipListener.UnheardMeaning` | executor/src/network/membership.rs:395-485 | a stack is unheard of if and only if it has been in every entry since some discovery or death of the node |
| `MembershipListener.DiscoveredStacksNeverAnnounced` | executor/src/network/membership.rs:474-485 | a node found running stacks, and found so again, is live and believed to run nothing |
| `MembershipListener.DeadNodeBelieved` | executor/src/network/membership.rs:407-421 | a run after which a node is dead and believed to run a stack that its entry gained after its death |
| `MembershipListener.BeliefRightOnReturn` | executor/src/network/membership.rs:395-405 | when that node comes back running the stack, the belief is right |
| `MembershipListener.BeliefLeftBehind` | executor/src/network/membership.rs:442-462 | when a newer incarnation replaces it, the belief about the old one is left behind |
| `MembershipState.NodeCollection.constructor` | executor/src/network/membership/node_collection.rs:14-30 | the two indexes get one entry per node and agree, so the size assertion holds |
| `MembershipState.NodeCollection.Insert` | executor/src/network/membership/node_collection.rs:46-62 | adds a node to both indexes or refuses it, and keeps them in step |
| `MembershipState.NodeCollection.UpdateInPlace` | executor/src/network/membership/node_collection.rs:81-98 | changes one node and keeps the indexes in step |
| `MembershipState.NodeCollection.Remove` | executor/src/network/membership/node_collection.rs:100-110 | removes a node from both indexes; the "out of sync" panic cannot happen |
| `MembershipState.StacksMissingFrom` | executor/src/network/membership.rs:607-626 | lists each stack of one set missing from the other exactly once |
| `MembershipState.State.constructor` | executor/src/network/membership.rs:196-258 | start-up keeps exactly the entries of the region that are not at this node's endpoint, with their dead reasons, and hands out exactly those without one |
| `MembershipState.State.SchedulerKnowsLive` | executor/src/lib.rs:118-180 | a scheduler started with the initial live nodes and fed the notifications, amid anything else, knows exactly the nodes with no dead reason |
| `MembershipState.State.PerformUpdate` | executor/src/network/membership.rs:342-472 | every endpoint ends up as the per-entry comparison says; an endpoint in the table is known exactly when its entry is alive and fresh or its incarnation was known, with the entry's stacks, and live exactly when alive and fresh; and replaying all notifications ever sent gives exactly the live nodes with no rediscovery |
| `MembershipState.State.ForgetMissing` | executor/src/network/membership.rs:357-375 | nodes missing from the table are reported dead and removed, others stay |
| `MembershipState.State.ProcessSameGeneration` | executor/src/network/membership.rs:390-440 | one entry of the known generation updates the index and sends the notifications of the comparison, in order |
| `MembershipState.State.ProcessNewGeneration` | executor/src/network/membership.rs:442-462 | a newer incarnation replaces the old one, which is reported dead if it was live |
| `MembershipState.State.OnNodeDiscovered` | executor/src/network/membership.rs:474-485 | a discovered node is announced and inserted; the insert assertion cannot fire |
| `MembershipStore.StepAdvances` | executor/src/network/membership.rs:553-591 | no step of any writer or observer lowers a stored generation |
| `MembershipStore.GenerationsNeverGoBack` | executor/src/network/membership.rs:553-591 | under every interleaving of any number of write loops, stored generations never go down and entries never vanish |
| `MembershipStore.OldIncarnationNeverOverwrites` | executor/src/network/membership.rs:504-515 | once a newer incarnation is stored, no swap of an older one, its dead mark included, changes the table |
| `MembershipStore.EveryRunWritten` | executor/src/network/membership.rs:553-591 | under every interleaving that starts with no writers, a writer that reports success has its status, or something at least as new, in the table |
| `MembershipStore.SuccessIsTheWrite` | executor/src/network/membership.rs:571-589 | the step in which a writer succeeds stores exactly its status and keeps every other entry, and no other step changes the table |
| `MembershipStore.UndisturbedWrite` | executor/src/network/membership.rs:553-591 | a write that nobody disturbs succeeds and is stored exactly when nothing newer is stored, and otherwise gives up and changes nothing |
| `MembershipStore.ObserverNeverGoesBack` | executor/src/network/membership.rs:377-469 | the generation any observer holds for an endpoint never goes back under every interleaving, even after it forgot the endpoint |
| `MembershipStore.ObserverBeliefExact` | executor/src/network/membership.rs:342-485 | under every interleaving of writers and observers, what all of an observer's notifications make a listener believe of any address is its entry's stacks minus the unheard ones if it is known, and what lingers otherwise |
| `MembershipStore.SchedulerFollowsTable` | executor/src/lib.rs:358-391 | from the shared table to the scheduler: under every interleaving and amid any other messages except a removal of the stack, a node is recorded as holder exactly when the stack is in its entry as last seen and not unheard of, or lingers |
| `MembershipProto.GenerationRoundTrip` | executor/src/network/membership/protos.rs:62-135 | splitting a 128-bit generation into two halves and joining them are inverse |
| `MembershipProto.SplitMeaning` | executor/src/network/membership/protos.rs:62-77 | the two halves of a generation are its high and its low 64 bits |
| `MembershipProto.StatusRoundTrip` | executor/src/network/membership/protos.rs:60-203 | a status read back is the status written, for every order the stacks are listed in |
| `KeyRange.MakeSubsetRange` | rust-libs/db/src/types.rs:113-145 | the carry loop computes the prefix plus one as upper bound, and none exactly for an all-0xFF prefix |
| `KeyRange.CarriedShape` | rust-libs/db/src/types.rs:113-145 | the upper bound keeps the bytes before the last non-0xFF one, adds one there and zeroes the rest |
| `KeyRange.PrefixRangeExact` | rust-libs/db/src/types.rs:113-145 | a key is in the range of a prefix if and only if it has the prefix or is the carried bound cut short after the carry |
| `KeyRange.ExactWithoutTrailingMax` | rust-libs/db/src/types.rs:113-145 | the range is exactly the prefix when the prefix does not end in 0xFF or is all 0xFF |
| `KeyRange.WiderWithTrailingMax` | rust-libs/db/src/types.rs:120-131 | every other prefix has a key in its range that lacks the prefix |
| `Keys.Utf8HasNoMax` | rust-libs/db/src/types.rs:162-178 | UTF-8 (section 4 of RFC 3629) never contains 0xFF |
| `Keys.StackIdRoundTrip` | rust-libs/mu_stack/src/lib.rs:37-59 | stack id bytes decode to the id and only to it |
| `Keys.Encode3RoundTrip` | rust-libs/db/src/types.rs:13-45 | decoding an encoded triple gives the triple |
| `Keys.Decode3RoundTrip` | rust-libs/db/src/types.rs:25-45 | encoding a decoded byte string gives the byte string |
| `Keys.KeyRoundTrip` | rust-libs/db/src/types.rs:205-246 | user keys round trip both ways |
| `Keys.TableListKeyRoundTrip` | rust-libs/db/src/types.rs:48-85 | table-list keys round trip both ways |
| `Keys.KeyLayout` | rust-libs/db/src/types.rs:13-23 | user keys and table-list keys byte by byte |
| `Keys.FirstByte` | executor/src/network/membership.rs:34-38 | the first byte separates user, table-list and membership keys |
| `Keys.ScanByTableNameExact` | rust-libs/db/src/types.rs:277-298 | the range of a table selects exactly that stack's and table's keys among all byte strings |
| `Keys.ScanTableListExact` | rust-libs/db/src/types.rs:250-275 | the range of a table-list scan selects exactly the entries asked for among well-formed keys, even when the public key ends in 0xFF |
| `Keys.ScanByInnerKeyPrefixExact` | rust-libs/db/src/types.rs:282-298 | a prefix scan selects exactly the matching keys of every well-formed store if and only if the prefix is not leaky |
| `Keys.LeakWithinTable` | rust-libs/db/src/types.rs:103-131 | for a leaky prefix that is not all 0xFF, another key of the same table in its range |
| `Keys.MembershipScanExact` | executor/src/network/membership.rs:538-551 | the membership scan selects exactly the membership keys |
| `Db.UpdateMeansTables` | rust-libs/db/src/lib.rs:134-172 | after an update the stack has its tables minus deleted plus added ones, deleted tables are empty, and no other table or stack changes |
| `Db.PlusAddedMinusDeleted` | rust-libs/db/src/lib.rs:148-166 | after an update the registered tables are "existing plus added, minus deleted" if and only if tables both added and deleted existed |
| `Db.RetryCompletesIff` | rust-libs/db/src/lib.rs:134-172 | a successful retry after every possible half-way failure gives what one success would have given, if and only if no table is both added and deleted |
| `Db.RetryGoesWrong` | rust-libs/db/src/lib.rs:150-169 | for every table both added and deleted, a failure after which the retry leaves it as it was before the update |
| `Db.DbClient.UpdateUntilDone` | rust-libs/db/src/lib.rs:134-172 | sending an update again through any number of failures ends as one success would, when nothing is both added and deleted and one scan has room for all entries; and it does succeed if some attempt has enough working calls |
| `Db.StoreStaysWellFormed` | rust-libs/db/src/lib.rs:134-172 | an update keeps every stored key well formed |
| `Db.DbClient.UpdateStackTables` | rust-libs/db/src/lib.rs:134-172 | succeeds on a well-formed store when enough store calls work; on success the store changed key by key as stated; if any store call fails, even in the middle of a batch, only a part of that happened and no table lost its entry while it had rows |
| `Db.DbClient.DropRows` | rust-libs/db/src/lib.rs:157-164 | the scan-and-delete loop ends with the table's range empty and nothing else changed, within two calls per key and one more, or fails for lack of calls having removed only rows of the table |
| `Db.DbClient.ExistingTables` | rust-libs/db/src/lib.rs:139-147 | lists registered tables only, and all of them within the scan limit |
| `Db.DbClient.ScanKeys` | rust-libs/db/src/lib.rs:252-264 | the first keys of a range in order, up to the limit |
| `Db.DbClient.PutCell` | rust-libs/db/src/lib.rs:213-223 | writes a cell exactly when its table is registered |
| `Db.DbClient.DeleteByPrefix` | rust-libs/db/src/lib.rs:236-245 | removes the prefix's range, which is exactly the matching cells unless the prefix is leaky |
| `Db.DbClient.ClearTable` | rust-libs/db/src/lib.rs:247-250 | empties one table and changes nothing else |
| `Billing.CalcUsageExact` | marketplace/programs/marketplace/src/lib.rs:9-18 | the computed charge is the unbounded price exactly when every product fits its type and the price fits 64 bits |
| `Billing.WholeUnits` | marketplace/programs/marketplace/src/lib.rs:9-18 | n whole units of a service, in literal amounts, cost exactly n times that service's own rate, for each of the six |
| `Billing.LessThanWholeUnits` | marketplace/programs/marketplace/src/lib.rs:9-18 | the smallest amount less costs less, when the rate is positive |
| `Billing.WholeUnitsCharged` | marketplace/programs/marketplace/src/lib.rs:9-18 | and that is what the program charges, exactly where its arithmetic has room |
| `Billing.PriceByService` | marketplace/programs/marketplace/src/lib.rs:9-18 | a price is the sum of what each service costs on its own |
| `Billing.CastLosesValue` | marketplace/programs/marketplace/src/lib.rs:10-13 | a concrete usage priced at 2^64 tokens is charged nothing |
| `Billing.PriceInParts` | marketplace/programs/marketplace/src/lib.rs:9-18 | billing n parts separately charges at most the price of the total and at most 6(n-1) less |
| `Billing.UsageAggregator.RegisterUsage` | executor/src/stack/usage_aggregator.rs:153-170 | adds each usage to its stack and category and changes no other amount |
| `Billing.RunAggregator` | executor/src/stack/usage_aggregator.rs:153-178 | over every mailbox, drained plus pending amounts equal what was registered, per stack and category |
| `Billing.RegisteredByFields` | executor/src/stack/usage_aggregator.rs:59-95 | what is registered in the six categories is what the usages' own fields say, a strong read or write counting twice |
| `Billing.ReportedTotal` | executor/src/stack/blockchain_monitor.rs:891-907 | reported usages add up to what was drained when the totals fit the chain's types |
| `Billing.NeverOvercharged` | marketplace/programs/marketplace/src/lib.rs:9-18 | whatever the amounts and rates, what the program takes for all reports is at most the price of everything drained |
| `Billing.NeverOverchargedWrapping` | marketplace/programs/marketplace/src/lib.rs:9-18 | the same if products and sums wrap around instead of failing |
| `Billing.BillingBound` | executor/src/stack/blockchain_monitor.rs:891-907 | when the drained total fits, the program charges every report, and the charges of n reports fall short of the price of everything drained by at most 6(n-1) tokens |
| `Billing.BillAggregator` | executor/src/stack/usage_aggregator.rs:153-178 | for every mailbox, the charges of its drains never exceed the price of what was registered, and if that fits they all succeed within the same bound |
| `Ledger.ExecConserves` | marketplace/programs/marketplace/src/lib.rs:78-304 | no instruction changes the total of any mint, whichever accounts coincide |
| `Ledger.RunConserves` | marketplace/programs/marketplace/src/lib.rs:36-304 | every instruction sequence conserves the total of every mint |
| `Ledger.RunKeepsSound` | marketplace/programs/marketplace/src/lib.rs:36-96 | over every sequence the commission rate stays at most 1,000,000 and the deposit account covers the sum of recorded deposits |
| `Ledger.CommissionAtMostPrice` | marketplace/programs/marketplace/src/lib.rs:258-260 | with such a rate the commission never exceeds the price, so the provider's share cannot underflow |
| `Ledger.UsagePayment` | marketplace/programs/marketplace/src/lib.rs:250-304 | a successful usage update moves exactly the price out of the escrow, split between provider and commission, even when accounts coincide |
| `Ledger.ChargedAtMostOnce` | marketplace/programs/marketplace/src/lib.rs:832-844 | after one successful update of a (stack, region, seed), every later one fails, whatever happens in between |
| `Ledger.StackLifecycle` | marketplace/programs/marketplace/src/lib.rs:130-184 | over every sequence stacks never vanish or change hands, deleted ones stay deleted, and revisions never go down |
| `LedgerHistory.StackHistory` | marketplace/programs/marketplace/src/lib.rs:130-184 | after every run a stack exists exactly when its creation succeeded, is deleted exactly when a deletion succeeded, and otherwise has one plus the number of its successful updates as revision and the content of the latest one |
| `LedgerHistory.StackInstructionsSucceedIff` | marketplace/programs/marketplace/src/lib.rs:155-184 | after every run its user can delete a stack exactly when it was created and not deleted, and update it unless the revision has run out |
| `LedgerHistory.CreationSucceedsIff` | marketplace/programs/marketplace/src/lib.rs:130-153 | a stack can be created exactly once, in a region of an authorized provider |
| `LedgerHistory.SetupSucceedsIff` | marketplace/programs/marketplace/src/lib.rs:36-128 | exactly when the instructions that set up the program, providers, regions, signers and escrows succeed |
| `LedgerHistory.Permissions` | marketplace/programs/marketplace/src/lib.rs:36-128 | whose signature such an instruction needs and what it leaves |
| `LedgerHistory.OnlyByPermission` | marketplace/programs/marketplace/src/lib.rs:36-76 | settings and authorizers change in no other way |
| `LedgerHistory.AuthorizedOnlyByPermission` | marketplace/programs/marketplace/src/lib.rs:98-101 | nobody becomes an authorized provider or signer in any other way |
| `LedgerHistory.ProviderPays` | marketplace/programs/marketplace/src/lib.rs:78-96 | a new provider is unauthorized and pays exactly the deposit recorded for it |
| `LedgerHistory.EscrowFallsOnlyWithPermission` | marketplace/programs/marketplace/src/lib.rs:230-304 | over every run an escrow falls only by a withdrawal of its user or by an update signed by the region's authorized signer |
| `LedgerHistory.WithdrawalSucceedsIff` | marketplace/programs/marketplace/src/lib.rs:230-248 | after every run the user of an escrow can withdraw any amount that is there into an account of the mint with room for it, and nothing else succeeds |
| `LedgerHistory.WithdrawalMoves` | marketplace/programs/marketplace/src/lib.rs:230-248 | a withdrawal moves exactly its amount |
| `LedgerHistory.CommissionExact` | marketplace/programs/marketplace/src/lib.rs:258-259 | the commission is the rate's share rounded down, all of the price at a rate of one and nothing at zero |
| `LedgerHistory.PaymentSucceedsIff` | marketplace/programs/marketplace/src/lib.rs:272-294 | a payment between different accounts goes through exactly when the escrow covers the price and the receivers have room |
| `LedgerHistory.UsageSucceedsIff` | marketplace/programs/marketplace/src/lib.rs:250-304 | exactly when a usage update succeeds |
| `Marketplace.Marketplace.PayBoth` | marketplace/programs/marketplace/src/lib.rs:272-294 | both payments happen or neither does |
| `Marketplace.Marketplace.Execute` | marketplace/programs/marketplace/src/lib.rs:36-304 | any instruction keeps the object sound, every mint's supply, every recorded update, and lets stacks only move forward |
| `Marketplace.RunInstructions` | marketplace/programs/marketplace/src/lib.rs:36-304 | for every initial token accounts and instruction sequence, the accounts end up sound, with every supply unchanged, escrows held by the program, stacks exactly as the successful instructions made them, and at most one successful usage update per stack, region and seed |
| `Settlement.DebitsAreRecorded` | marketplace/programs/marketplace/src/lib.rs:250-304 | over every run, the tokens that left escrows for a stack are at most what its newly recorded updates took, each counted once |
| `Settlement.EscrowBound` | executor/src/stack/blockchain_monitor.rs:891-925 | if the only usage updates for a stack are reports of its drains, however often repeated, no more leaves escrows for it than the price of everything drained |
| `Settlement.RegisteredBound` | executor/src/stack/blockchain_monitor.rs:891-925 | nor more than the price of everything ever registered for it |
| `StackIndex.LinkedPartitions` | executor/src/stack/blockchain_monitor/stack_collection.rs:31-37 | linked maps are what they should be: the stack map's domain is the disjoint union of the owners' sets |
| `StackIndex.StepKeepsLinked` | executor/src/stack/blockchain_monitor/stack_collection.rs:73-247 | every operation keeps the maps linked if and only if it does not hand a known stack to another owner |
| `StackIndex.EveryRunLinked` | executor/src/stack/blockchain_monitor/stack_collection.rs:73-247 | over every run in which a stack id keeps its owner the maps stay linked |
| `StackIndex.EveryRunHoldsNewest` | executor/src/stack/blockchain_monitor/stack_collection.rs:199-247 | after every run a stack is held exactly when one was received since it was last taken out, and the one held is one of those, with the highest revision |
| `StackIndex.EveryRunIndexed` | executor/src/stack/blockchain_monitor/stack_collection.rs:73-247 | over every run each owner is in the index of its state, the rest of each index is exactly what lingers from removed owners, and the indexes are exact if and only if nothing lingers |
| `StackIndex.ExactUntilLastRemoval` | executor/src/stack/blockchain_monitor/stack_collection.rs:230-247 | until some owner's last stack is removed the indexes are exact |
| `StackIndex.ActiveListing` | executor/src/stack/blockchain_monitor/stack_collection.rs:105-129 | the exact conditions for walking the active index to succeed and to list the active owners' stacks |
| `StackIndex.LastRemovalLeavesStaleIndex` | executor/src/stack/blockchain_monitor/stack_collection.rs:236-246 | one stack received and deleted makes the walk fail, and received again under an inactive owner it is listed as active |
| `StackIndex.FromKnown` | executor/src/stack/blockchain_monitor/stack_collection.rs:44-64 | panics exactly on a repeated id; otherwise, for distinct owners, indexes are exact, and maps are linked if and only if every stack is listed under its own owner |
| `StackIndex.StackCollection.AddStack` | executor/src/stack/blockchain_monitor/stack_collection.rs:199-225 | panics exactly on another owner's stack, reports whether the stack is new or newer, and takes the specified step |
| `StackIndex.StackCollection.InsertFirst` | executor/src/stack/blockchain_monitor/stack_collection.rs:183-193 | opens the owner in the given state and adds the stack |
| `StackIndex.StackCollection.RemoveStack` | executor/src/stack/blockchain_monitor/stack_collection.rs:230-247 | returns true exactly when the owner's last stack goes, and the owner with it |
| `StackIndex.StackCollection.MakeActive` | executor/src/stack/blockchain_monitor/stack_collection.rs:83-91 | a known owner ends up active and, when it was inactive, in the active index only, even if it lingered; no owner's stacks change, and linked maps and exact indexes stay so |
| `StackIndex.StackCollection.MakeInactive` | executor/src/stack/blockchain_monitor/stack_collection.rs:73-81 | the same the other way round |
| `StackIndex.StackCollection.EntryOf` | executor/src/stack/blockchain_monitor/stack_collection.rs:131-141 | answers with the state of the owner that lists the stack; the owner lookup cannot fail |
| `StackIndex.StackCollection.OwnerStacks` | executor/src/stack/blockchain_monitor/stack_collection.rs:253-260 | lists each stack of the owner once; no lookup can fail |
| `StackIndex.StackCollection.AllByOwners` | executor/src/stack/blockchain_monitor/stack_collection.rs:113-129 | fails exactly when the index holds an unknown owner, and otherwise lists each of their stacks once |
| `Manifest.StackRoundTrip` | rust-libs/mu_stack/src/protobuf.rs:7-195 | for every map iteration order, converting to protobuf and back gives the stack with every missing `delete` flag false |
| `Manifest.StackUnchanged` | rust-libs/mu_stack/src/protobuf.rs:36-51 | the stack comes back unchanged if and only if no `delete` flag is missing |
| `Manifest.WireNumbers` | rust-libs/mu_stack/protos/stack.proto:40-58 | the numbers of methods and runtimes on the wire |
| `Manifest.ConvertsIffKnown` | rust-libs/mu_stack/src/protobuf.rs:102-195 | a message converts if and only if no service is blank and every enum number is known |
| `Manifest.MessageRoundTrip` | rust-libs/mu_stack/src/protobuf.rs:102-195 | a message is a form of the stack it converts to if and only if no path, method or variable is listed twice |
| `Validation.EnsureAllUnique` | rust-libs/mu_stack/src/validation.rs:129-141 | finds the first repeated item, exactly when there is one |
| `Validation.EnsureGatewayFunctionsCorrect` | rust-libs/mu_stack/src/validation.rs:113-127 | complains exactly when some endpoint names an undeclared function, and names it with its gateway |
| `Validation.Validate` | rust-libs/mu_stack/src/validation.rs:64-111 | accepts if and only if names are unique per kind and every endpoint names a declared function; an error is true and of the first kind that applies, and the duplicate-endpoint error never occurs |
| `Validation.NamesDistinct` | rust-libs/mu_stack/src/lib.rs:227-253 | listing the services of one kind neither hides nor invents a repeated name |
| `Validation.ConversionKeepsValidity` | rust-libs/mu_stack/src/lib.rs:212-225 | a stack that went through protobuf is accepted if and only if the original is |

## Left out

- Gateways: their deployment, including the redeployment on an older revision, is a call into the gateway manager and touches no scheduler state.
- GetDeploymentStatus, and membership's `GetNodes` and `GetNode`: read-only replies.
- Concurrency inside one mailbox: each message is one atomic step over its queue, as the mailbox processor promises.
- Cluster rounds: one stack, all nodes reachable, successful runtime calls and truthful news in each round, and deaths and joins heard by all between rounds; arbitrary failures and stale news are covered node by node in `SchedulerRuns`.
- write_status: the retry loop is a sequence of steps, and whether it ever wins the race is not claimed.
- Membership wire format and hashing: protobuf bytes are lossless and addresses in use have different hashes.
- Order of added and removed stacks inside one `NodeStacksChanged`: compared as sets.
- TiKV: the store is a map with an ordered scan, and nobody else writes during an update.
- Raw and batch muDB operations, `table_list` and `stack_id_list`: thin wrappers over the same ranges.
- Db.DbClient.UpdateStackTables: a stack with more than 10000 table entries sees only part of them, as in the source; the contract then speaks of the tables seen.
- API request signers, region names and limits, account rent and fees: no effect on tokens, stacks or usage.
- Bump seeds: an address is determined by its seeds, although `update_usage` lets the client choose the escrow's bump.
- Token minting, burning and delegates: token program features the marketplace does not use.
- Aggregator overflow: amounts are unbounded, where the source adds 128-bit numbers.
- Usage lost when a report fails on the way to the chain.
- `overflow-checks` is set in the program's own Cargo.toml, which cargo honours only at the workspace root; the ledger follows the declared intent, and `Billing` bounds the charge without the checks too.
- Iterators of the stack collection are lazy in the source; the model collects them.
- `clone_normalized`, YAML manifests and the textual form of ids and owners.
- Wasm runtime, storage, HTTP gateway, CLI and front end.
