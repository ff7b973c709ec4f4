# Porygon server: a verified model of the round protocol

The server of a sharded blockchain collects proposal blocks from ordering nodes, decides on one per
height, executes the pooled transactions of that height, and collects state roots and relay
transactions from the shards until the next block is committed. This project models that server and
proves what every run of it keeps.

There are two layers.

* **Objects.** Where the program updates maps, slices and accounts in place, the model has classes
  with the same fields and methods with the same branches and loops: `Accounts.State` (two maps that
  share their account objects), `Pools.TransactionPools` (the two global tables of slices),
  `RootCollection.ShardStruct` (a shard's votes and latch), `Controllers.TallyMap` (a tally that a
  request may still hold after a commit replaced it), `Controllers.Controller` (the handlers),
  `ConcurrentMap.MyConcurrentMap` (the blocking map). Go's iteration over maps is a loop that picks
  the next key in an order the model leaves open.
* **Runs.** `Server` is a machine on plain values: an event is an upload of a proposal block (with the
  tally it captured) or of a state root; a run is any sequence of possible events. Each handler of
  `Controllers.Controller` is proved to be exactly one step of the machine, start-up
  (`StartUp.InitController`) to end in its initial state, and the theorems in the modules `Server*`
  hold of every run: commits (`ServerCommits`), the order of the scan (`ServerOrder`), uploads behind a
  decision (`ServerTotals`), rounds and throughput (`ServerAccounting`), the ledger (`ServerLedger`), the
  fatal exit (`ServerExit`), the schedule of pooled transactions (`ServerSchedule`) and of relays
  (`ServerRelays`), balances (`ServerBalances`). `RoundInterleaving` and `ConcurrentMap` split handlers further, at their locks, and
  quantify over all interleavings; `ServerRounds` relates the first to the server's runs.

Files by topic: `Windows` (cyclic windows), `PoolSpec`/`Pools`/`Footprint` (transaction pools and
batches), `Postings`/`MapSums`/`BlockExecution`/`Accounts` (ledger), `Rounds`/`RoundInterleaving`/
`RootCollection` (root votes), `Consensus` (tally and decision), `Server*` (all runs), `Controllers`/
`Requests`/`StartUp` (the objects composed), `ConcurrentMap`.

## Assumptions

* Batch size V > 0 divides the pool length L > 0. `Windows.WindowsFullIffDivides` shows that this is
  exactly when every height selects V entries, and `Windows.WindowsOrderedIffDivides` that, for V
  up to L, it is exactly when no slice expression is invalid.
* At least two shards, no more than the pool tables have rows (start-up allocates rows 0 to 2,
  structure/controller.go:196-197), at least two accounts per shard, as many accounts per shard as
  the constant used to index the address list (structure/state.go:195-197), and enough distinct
  addresses. Under these start-up is proved to establish everything the run theorems assume about
  the pools (`StartUp.InitController`).
* Insertions into the block table succeed. A failed one is only logged (structure/block.go:176-180).
* The tally key, the digest of a transaction list and the transaction root are arbitrary functions.
  Counts are per key, and a decided block is one uploaded with the counted key. Where the key tells the
  uploaded blocks apart, they are counts per block (`ServerCommits.VoteCountsBlock`).
* A request may hold any tally that was ever in use. Every shard's reset creates a tally
  (model/block.go:249 replaces it once per shard), so
  this includes some that no request can have seen.
* Integers are unbounded.

## Where code and expectation differ

The model follows the code.

* `VerifyGSRoot` is described as adopting the new accounts once enough roots agree. Both maps hold the
  same account objects, so balances change at execution whatever the votes say; only the transaction
  count depends on them (`Accounts.State.Promote`, `Controllers.VerifyGSRoot`).
* The decided block can depend on the order in which the tally is scanned. It does so exactly when the
  upload makes the server decide while two keys share the highest count, at the quorum, and one of them
  holds a block of the next height (`ServerOrder.OneDecisionIff`). At most as many uploads as proposers
  rule this out unless there are 2 or 4 proposers (`ServerOrder.UncontestedWithin`,
  `Consensus.QuorumUniqueIff`), and only a rejected decision, which keeps its tally, leads to more
  (`ServerTotals.TotalBelow`). Then such a tie is reachable for every number of proposers
  (`ServerOrder.ContestIsReachable`); with 2 or 4 it is reachable without any rejection
  (`ServerOrder.SplitVoteIsReachable`).
* A round that is accepted after a commit has read its shard and before it resets it is lost
  (`RoundInterleaving.LossIsPossible`), and nothing else is: with non-negative reports the accounting is
  exact if and only if all such rounds report nothing (`RoundInterleaving.NothingLostIff`). No round is
  ever counted twice.
* The relay batching loop flushes after indices 0, V, 2V, ...; the first batch has one entry, and
  entries after the last flush are pooled but belong to no batch (`RootCollection.FlushedPrefix`). So the
  relay batch that a proposal carries need not be what a commit executes; exactly when it is says
  `RootCollection.RelayBatchAgrees`.
* The number of uploads that opens a decision is read from the captured tally, the decision from the live
  one. A late upload to a retired tally commits a block with fewer than n live uploads
  (`ServerTotals.StaleCommitIsReachable`); through the live tally there are always n
  (`ServerTotals.LiveCommitIsBacked`).
* The server process ends if a selected relay entry does not target an account of the uploading shard
  (`ServerLedger.ExitIffMisplacedRelay`), and uploads can bring that about (`ServerExit.ExitIsReachable`).
* Relay entries are selected again at later heights, or never, so totals are not globally conserved.
  `ServerRelays.RelaysExecuted` says how often each accepted relay is executed, and
  `ServerLedger.LedgerTotal` what each shard's total is.

## Model

| member | source | states |
|---|---|---|
| Windows.Aligned | structure/controller.go:456-460 | in a pool of m whole batches, height h selects exactly entries (h mod m)·v up to (h mod m + 1)·v |
| Windows.WindowsFullIffDivides | structure/controller.go:456-460 | every height selects exactly v entries if and only if v divides the pool length |
| Windows.WindowsOrderedIffDivides | structure/controller.go:456-470 | the slice bounds are ordered at every height if and only if v divides the pool length (v at most the length) |
| Windows.FairRoundRobin | structure/controller.go:456-470 | over h heights index j is selected h/m times, once more if its batch precedes h mod m |
| Windows.OncePerPeriod | structure/controller.go:456-470 | any m consecutive heights select every index exactly once |
| Windows.CycleExecutions | structure/controller.go:456-470 | reading a pool cyclically for h windows meets index j as often as windows cover it |
| PoolSpec.WindowIsChunk | structure/controller.go:436-470 | the slice taken at height h is batch h mod m of the pool, inside its bounds |
| PoolSpec.DigestAgreement | structure/controller.go:436-470 | at every height the batch selected by one window scheme digests exactly the v raw entries selected by the other, those from (h mod m)·v on |
| PoolSpec.FieldsKept | structure/controller.go:471-498 | the conversions keep every field: shards, payer, beneficiary and value of each entry, in order |
| PoolSpec.StoredFields | model/block.go:377-391 | stored relays keep every field of the upload and are marked as relays |
| PoolSpec.ExecutedAsStored | structure/controller.go:471-498 | converting pool entries to transactions keeps what the executors book: accounts, direction and value |
| PoolSpec.RelayRoundTrip | structure/controller.go:490-498 | storing uploaded relays and packing the last v gives back the last v uploads unchanged, or none when there are fewer |
| PoolSpec.StreamCycles | structure/controller.go:452-470 | the windows of successive heights, one after the other, read the pool over and over again without gap or overlap |
| PoolSpec.StreamPeriod | structure/controller.go:452-470 | m further windows read every entry of the pool exactly once |
| Pools.GetTwoRand | structure/controller.go:292-302 | the two drawn indices are in range and different |
| Pools.GenerateInterTrans | structure/controller.go:505-510 | an internal entry moves one unit between two different addresses of the shard |
| Pools.GenerateCrossTrans | structure/controller.go:512-519 | a cross-shard entry moves one unit from an address of the shard to one of the target shard |
| Pools.TransactionPools.AppendWitnessTrans | structure/controller.go:373-375 | one entry joins one pool; no other cell changes |
| Pools.TransactionPools.AppendBatchTrans | structure/controller.go:377-390 | one batch joins one cell, holding the digest of the list and the ids of exactly the accounts it touches, without duplicates; no other cell changes |
| Pools.TransactionPools.FillShard | structure/controller.go:330-345 | the loop over one shard leaves l generated entries and m batches, batch k digesting entries k·v to (k+1)·v, with the carried counter and list back at zero and empty |
| Pools.TransactionPools.InitializeTransactions | structure/controller.go:304-371 | every shard gets whole batches of internal entries, and, with two or more shards, of cross-shard entries to the next shard; relay pools stay empty |
| Pools.TransactionPools.PackBatchTrans | structure/controller.go:436-450 | returns internal and cross batch number height mod m, and the last relay batch or none |
| Pools.TransactionPools.PackValidateTrans | structure/controller.go:452-503 | returns entries (height mod m)·v on of both start-up pools and the last v relays (none when fewer), field by field, and their numbers |
| Footprint.FindAccountIds | structure/controller.go:392-434 | returns each id of the list's footprint once and no other: payer and beneficiary for internal, payer for cross, beneficiary for relay entries |
| Footprint.FootprintSound | structure/controller.go:392-434 | what the executors book for a list adds up to nothing on every account outside its declared ids |
| Footprint.ListsCommute | structure/state.go:70-88 | executing two lists commutes, whether or not their footprints are disjoint |
| Footprint.DisjointBatches | structure/controller.go:392-434 | with disjoint footprints each balance ends as the one list that declares the account leaves it, as if the other had not been executed |
| Accounts.FootprintExact | structure/controller.go:392-434 | with distinct addresses an id is declared if and only if executing some entry debits or credits that account |
| Accounts.BatchDeclares | structure/controller.go:406-423 | a batch declares payers and beneficiaries of internal entries, payers of cross-shard entries, beneficiaries of relays, and no other account |
| Accounts.State.InitAccountList | structure/state.go:183-205 | ids are a bijection onto 0..n·shards-1 with a block of ids per shard; addresses are all different; every account starts at 100000 and both maps share it |
| Accounts.State.GetAccountList | structure/state.go:159-172 | whatever the map order, the result is the list of all accounts with entry k having id k |
| Accounts.CanonicalOrder | structure/state.go:43-45 | a list ascending by id over accounts with ids 0..n-1 is the canonical list |
| Accounts.State.GetAddressList | structure/state.go:174-180 | exactly the shard's addresses, each once |
| Accounts.State.ExecuteInternal | structure/state.go:92-118 | succeeds exactly when the shard is right and both accounts exist; then the payer has the value less, the beneficiary the value more, and no other balance moved; a transfer to oneself changes nothing because reads and writes meet in one object |
| Accounts.State.ExecuteCross | structure/state.go:120-141 | succeeds exactly when the shard is right and the payer exists; then only the payer has the value less, and the relay to send is returned |
| Accounts.State.ExecuteRelay | structure/state.go:143-156 | succeeds exactly when the shard is right and the beneficiary exists; then only the beneficiary has the value more |
| Accounts.State.ExecuteInternals | structure/state.go:77-81 | all transfers of a shard succeed exactly when every guard holds; every balance moves by what it receives minus what it pays, and none outside the footprint of the pool entries they came from |
| Accounts.State.ExecuteCrosses | structure/state.go:82-88 | all debits of a shard, with the same exact guard, sum and footprint |
| Accounts.State.ExecuteRelays | structure/state.go:70-76 | all credits of a shard, with the same exact guard, sum and footprint |
| Accounts.State.UpdateAccount | structure/state.go:65-90 | succeeds exactly when every transaction passes its guard; then every balance has moved by the relays and internal transfers it receives minus the internal and cross-shard transfers it pays, for every iteration order |
| BlockExecution.BlockMovement | structure/state.go:65-156 | what a block books on an account is the sum of values naming it as beneficiary minus the sum naming it as payer, over the three lists |
| Accounts.State.Promote | structure/state.go:309 | adopting a shard's new accounts changes no account map and no balance |
| Postings.AppliedConcat | structure/state.go:70-88 | the closed form of two lists executed one after the other is that of the joined list, in either order |
| Postings.TotalAfter | structure/state.go:92-156 | a shard's total moves by credits minus debits, so internal transfers preserve it |
| BlockExecution.BlockPostingsKnown | structure/state.go:92-156 | an allowed block books only accounts of the shard |
| Rounds.CollectedLatched | model/block.go:362-400 | a vote keeps: latch closed exactly when some root has enough votes, nothing reported while open |
| Rounds.MinVoteIsTwoThirds | structure/state.go:294 | n votes reach the threshold exactly when 3n + 2 >= 2·clients |
| Rounds.RootUniqueIff | model/block.go:367-371 | with at most one vote per client two roots cannot both have enough if and only if there are neither 2 nor 4 clients |
| RootCollection.AnyQuorum | model/block.go:367-371 | true exactly when some root has the votes, for every order |
| RootCollection.FlushPartition | model/block.go:377-391 | flushed batches and the open rest concatenate to the upload, in order |
| RootCollection.FlushedPrefix | model/block.go:377-391 | the batches of an m-entry upload concatenate to its first v·((m-1)/v)+1 entries; the first has one entry, all others v |
| RootCollection.RelayBatchAgrees | model/block.go:377-391 | where the digest tells lists apart, the last relay batch digests the last v pool entries if and only if v is 1 or the upload, longer than v, repeats itself across its unbatched rest; for different entries: if and only if v is 1 or m > 1 and v divides m-1 |
| RootCollection.RelayBatchDiffers | structure/controller.go:442-448 | a single uploaded relay with v > 1 is batched alone, but never is what a commit executes |
| RootCollection.StoreRelays | model/block.go:374-393 | all uploaded entries join the shard's relay pool in order, and the flushed lists its batches; no other cell changes |
| RootCollection.CollectRoot | model/block.go:356-406 | the root gains one vote; the latch is closed afterwards exactly if it was or some root has two thirds of the clients (3n + 2 >= 2·clients); only the vote that closes it stores the uploaded relays, batches them and adds the transaction count |
| RootCollection.ShardStruct.Reset | model/block.go:249-255 | the shard starts a fresh round |
| RoundInterleaving.Accounting | structure/state.go:292-316 | over every interleaving of votes with the commit's reads and resets: total, in flight, waiting and wiped add up to exactly what was accepted |
| RoundInterleaving.NeverOvercounts | structure/state.go:292-316 | with non-negative reports the total never exceeds what was accepted |
| RoundInterleaving.AtomicLosesNothing | model/block.go:246-257 | if no vote arrives during a commit, total plus pending is exactly what was accepted |
| RoundInterleaving.LateAccounting | model/block.go:246-257 | in every reachable state the rounds accepted between the read and the reset of their shard are exactly those wiped or about to be wiped |
| RoundInterleaving.NothingLostIff | structure/state.go:292-316 | between commits, what was lost is what those late rounds reported; with non-negative reports total plus pending is what was accepted if and only if every late round reports zero |
| RoundInterleaving.LossIsPossible | model/block.go:247-257 | with two shards and any number of clients a run accepts a round after its shard was read, and a reset wipes it uncounted |
| RoundInterleaving.OncePerRound | model/block.go:373-400 | since its last reset a shard accepted exactly one round if its latch is closed, none otherwise |
| ServerRounds.AtomicCommit | structure/state.go:292-316 | the reads, the count and the resets of a commit with no vote in between have the effect of the one step that stands for them: the same sum counted, every round fresh |
| ServerRounds.Refines | model/block.go:246-257 | every run of the server is a run of the lock-by-lock machine with undisturbed commits: the same rounds, the same total |
| Consensus.CountUploads | model/block.go:235-237 | the sum of all counts of the tally, for every order |
| Consensus.FindLeader | model/block.go:461-466 | a key with the highest count and its block, for every order; nothing for an empty tally |
| Consensus.QuorumIsTwoThirds | model/block.go:468 | a count reaches the quorum exactly when 3·count + 2 >= 2n |
| Consensus.VerifyRejectsOnlyHeight | structure/block.go:136-141 | a count that reached the quorum passes the vote check of the verification |
| Consensus.QuorumUniqueIff | model/block.go:468 | with at most n uploads, each block under its own key, two blocks cannot both reach the quorum if and only if n is neither 2 nor 4 |
| Consensus.ScanDeterministic | model/block.go:461-468 | the highest count never depends on the order, and with at most n uploads and n not 2 or 4 neither does the block at the quorum |
| Consensus.ChainedHeight | structure/block.go:186-193 | when block i has height i+1 the highest row equals the chain's length |
| Controllers.TallyMap.Record | model/block.go:222-233 | the upload's key gains one count; a new key gets its block, a known key keeps the one it has; no other key changes |
| Controllers.GetHeight | structure/block.go:186-193 | the height of the highest row, zero for an empty table |
| Controllers.VerifyBlock | structure/block.go:134-145 | accepts exactly the next height with at least 2·(n/3) votes |
| Controllers.PackTx4ServerUpdate | structure/state.go:273-290 | for every shard and no other the transactions of the height just reached: the pool entries of its window and the last relays, field by field |
| Controllers.VerifyGSRoot | structure/state.go:292-320 | adds up the counts of exactly the shards with enough root votes and leaves the accounts as they are |
| Controllers.Controller.UpdateChainWithBlock | structure/state.go:264-271 | executes the transactions of the height just reached and adds the counted rounds; ends the server exactly when a guard fails |
| Controllers.Controller.CheckLeaderProblocks | model/block.go:452-486 | commits exactly when the winner of the live tally has two thirds of the proposers and the next height, and then appends a block with that proposal's height, lists, accounts and roots, its count as vote and the time; otherwise nothing changes |
| Controllers.Controller.ResetRounds | model/block.go:246-257 | every shard gets a fresh round, every reset a fresh tally, and no older tally changes |
| Controllers.Controller.CaptureTally | model/block.go:212-216 | the captured tally is the live one, one of those ever in use |
| Controllers.Controller.AppendBlock | model/block.go:211-263 | with any tally the request captured, live or retired, the locked body is exactly one step of the machine, with exact failure and commit results; every tally ever in use stays among them |
| Controllers.Controller.CollectRoot | model/block.go:356-406 | an uploaded root is exactly one step of the machine; a completing vote appends the flushed relay batches, any other none |
| Server.RunShape | model/block.go:476-481 | in every reachable state block i has height i+1, row i has the height, vote and time of block i, and no account, pool or shard appears or disappears |
| ServerCommits.TalliesFaithful | model/block.go:222-233 | on every run every tally, live or retired, counts exactly the uploads recorded in it, and stores under each key an uploaded block with that key |
| ServerCommits.CommitHasOrigin | model/block.go:468-481 | a commit's block carries, field by field, a proposal uploaded to the tally live then, and its vote is the number of uploads of that proposal's key there, at least two thirds of the proposers |
| ServerCommits.CommitSafety | model/block.go:211-263 | in every reachable state, stale captures included: block i has height i+1, the table's height is the chain's length, and every block has such an origin |
| ServerCommits.VoteCountsBlock | model/block.go:468-476 | where keys tell uploaded blocks apart, the vote is the number of uploads of exactly the committed block |
| ServerOrder.OneDecisionIff | model/block.go:461-476 | in every reachable state and for every upload, all orders of the scan give the same decision unless, and only unless, the server decides while two keys share the highest count at the quorum, one of them with the next height |
| ServerOrder.UncontestedIsUnique | model/block.go:461-476 | then the winner of a commit and the whole next state are the same too |
| ServerOrder.UncontestedWithin | model/block.go:235-239 | at most n uploads in the live tally and n not 2 or 4 rule such a tie out |
| ServerTotals.TotalIsUploads | model/block.go:222-237 | on every run each tally's total is the number of uploads recorded in it |
| ServerTotals.TotalBelow | model/block.go:239-257 | on every run without a rejected decision the live total stays below n: rejections are the only way past it |
| ServerTotals.UncontestedWithoutRejection | model/block.go:235-257 | after such a run, with n not 2 or 4, no upload's decision depends on the order |
| ServerTotals.CommitsIff | model/block.go:235-240 | an upload commits exactly when its tally has at least n uploads, the winning key at least two thirds of n uploads in the live tally, and its block the next height |
| ServerTotals.LiveCommitIsBacked | model/block.go:213-240 | a commit through the live tally has at least n uploads in it |
| ServerTotals.StaleCommitIsReachable | model/block.go:213-240 | for every n from 2 on a run reaches an upload to a retired tally that commits a block with fewer than n uploads in the live one |
| ServerOrder.ContestIsReachable | model/block.go:239-244 | for every number of proposers a run reaches an upload whose decision depends on the order, after a rejected decision has kept its tally |
| ServerOrder.SplitVoteIsReachable | model/block.go:461-468 | with 2 or 4 proposers a run of exactly that many uploads, all of the next height, reaches one too |
| ServerAccounting.VotesAreUploads | model/block.go:362 | in every reachable state a root has as many votes as it was uploaded for the shard since the last executed commit |
| ServerAccounting.LatchIff | model/block.go:362-400 | in every reachable state a latch is closed exactly when some root was uploaded at least two thirds of the number of clients since the last executed commit |
| ServerAccounting.RunLatched | model/block.go:362-400 | in every reachable state a latch is closed exactly when some root has enough votes, and an open round reports nothing |
| ServerAccounting.Throughput | structure/state.go:292-316 | on every run the total plus all pending counts equals the counts of all accepted rounds |
| ServerAccounting.RelayPool | model/block.go:374-393 | on every run a relay pool is the concatenation of all accepted uploads, and the next commit executes the last v of them or none |
| ServerLedger.ExitIffMisplacedRelay | structure/state.go:92-156 | a commit fails no guard if and only if every selected relay targets an account of its shard |
| ServerLedger.NeverExits | structure/state.go:92-156 | on every run whose uploads target accounts of the uploading shard the server never exits |
| ServerExit.ExitIsReachable | structure/state.go:143-156 | for every configuration there is a run whose accepted relays do not fit their shard and whose next commit ends the server |
| ServerBalances.NextCommitExitsIff | structure/state.go:143-156 | on every run the next commit ends the server exactly when one of the last v accepted relays of a shard names another shard or an account the shard does not have |
| ServerBalances.BalanceIs | structure/state.go:65-156 | on every run a balance is 100000 plus the values of all executed relays and internal transfers to the account, minus those of all executed internal and cross-shard transfers from it |
| ServerLedger.LedgerIsBooked | structure/state.go:65-156 | on every run each balance is the initial one plus everything the commits booked on it |
| ServerLedger.LedgerTotal | structure/state.go:65-156 | on every run a shard's total is 100000 per account, minus v per block for cross transfers, plus all executed relays |
| ServerLedger.BalanceBound | structure/state.go:65-156 | with non-negative relays no account is ever below 100000 - 2·v·height |
| ServerSchedule.ExecutedStreams | structure/state.go:273-290 | what h commits executed of a start-up pool is the concatenation of the windows of the heights below h |
| ServerSchedule.RoundRobin | structure/controller.go:452-470 | the transactions that h commits executed are, field by field, the pool entries at a list of indices, in order, in which every index j occurs h/m times, once more if its batch precedes h mod m |
| ServerSchedule.HandedOut | structure/controller.go:304-371 | at every height v internal and v cross-shard transactions, field by field the entries of the height's window; cross-shard ones lead from an account of the shard to one of the next shard, the last shard's to one of shard 1 |
| ServerSchedule.PeriodExecutesAll | structure/controller.go:452-470 | any m further commits add to the executed transactions the whole pool, each entry exactly once |
| ServerSchedule.PipelineLag | model/block.go:191-209 | what is digested in the proposals packed for block b is exactly what executes when block b+2 commits, and what is then handed out for validation |
| ServerSchedule.DeclaredAccounts | structure/controller.go:377-434 | when block b+2 commits, a balance moves by its relays, by the internal batch proposed for block b only if that batch declares the account, and by the cross-shard batch only if that one does |
| ServerSchedule.LookupAgreesWithHeight | model/block.go:408-440 | in every reachable state an execution node gets exactly the block of the height it asks for, an ordering node exactly the blocks from two heights before on, each once, in order of height |
| ServerRelays.RelaysExecuted | model/block.go:374-393 | the relays a run executed are accepted relays, in order, and the accepted relay at pool index p occurs once for every commit whose pool length L has L >= v and L - v <= p < L |
| Requests.PackTransaction | model/block.go:191-209 | one proposal per shard with the requester's shard and the next height, the two start-up batches of two heights on, and the last relay batch or none |
| Requests.ProposedRelaysAgree | structure/controller.go:442-450 | the relay batch in a proposal digests what a commit executes exactly under the condition of `RootCollection.RelayBatchAgrees` |
| Requests.PackValidTx | model/block.go:320-354 | the transactions of the last commit's window and the latest relays, field by field, and their number; nothing before the first block |
| Requests.PackAccount | model/block.go:265-276 | all accounts of all shards with their current balances, in id order, and the height |
| Requests.GetProposalBlock | model/block.go:408-440 | on a chain of consecutive heights: the one block of the requested height, or every block from two heights before on, each once, in order; out of range for any other height |
| StartUp.InitController | structure/controller.go:71-217 | start-up ends in the machine's initial state, configured as requested, with distinct addresses and pools that meet every assumption of the run theorems |
| ConcurrentMap.RunInv | structure/controller.go:245-290 | over all interleavings of any number of threads: for every key with a channel, the channel is closed exactly when the key is present, and a waiter's channel is its key's |
| ConcurrentMap.ClosedAtMostOnce | structure/controller.go:250-260 | no channel is ever closed twice |
| ConcurrentMap.WakesIffPut | structure/controller.go:263-290 | a waiter can go on exactly when its key was put, however put and registration interleave |
| ConcurrentMap.GetReturnsLatest | structure/controller.go:263-290 | a get without error returns the value of the latest put of its key at its read |
| ConcurrentMap.MyConcurrentMap.Put | model/block.go:146-161 | stores the value and closes the key's channel unless it is closed already |
| ConcurrentMap.MyConcurrentMap.GetEnter | model/block.go:163-180 | returns the value, or registers an open channel of the key and keeps everything else |
| ConcurrentMap.MyConcurrentMap.GetFinish | model/block.go:181-189 | after the channel was closed the key is present, and its value is returned |

## Left out

- HTTP handlers, routing, websockets, ping, logging: plumbing around the modelled functions.
- MySQL and committee registration (controller/shard.go): only the block table remains, as a list of rows behind `GetHeight`.
- SHA-256 and JSON: arbitrary functions, passed as parameters.
- Randomness, the clock, tps and latency figures: drawn indices are any in range, times are parameters. The retry loop of `GetTwoRand` is its result.
- Reading address.txt: start-up takes a list of distinct addresses.
- Data races: handlers are atomic except for the captured tally, and, in `RoundInterleaving`, the unlocked reads of a commit. What the Go runtime does on concurrent unsynchronised map access is not modelled.
- One shard, or a batch size that does not divide the pool length: the slice expressions are not valid there. The loop that fills a single shard's internal pool is the same as for one of several shards.
- `MuiltiCastProposal`, account `TryLock` and `Unlock`, `NewNodeNum`, `CalculateRoot`: not used by the modelled behaviour or only feeding other nodes' connections.
- Fields that are constant or only copied: ids, signatures and public-key indices of batches, block hashes.
- `log.Fatal` is a flag that stops the machine; what a half-executed block leaves behind is not described, as the process is gone.
- 64-bit widths: heights, counts and balances do not wrap.
- Requests.GetProposalBlock: a slice of the chain past its length but within its capacity, which Go allows, counts as out of range.
- Accounts.State.GetAccountList: the library's sort is replaced by an insertion sort; with distinct ids the result is the same.
- Windows.WindowsOrderedIffDivides: is stated for batch sizes up to the pool length; longer batches are covered by `Windows.WindowsFullIffDivides`.
- `IdConcurrentMap` is the same protocol as `MyConcurrentMap` with another value type; the generic class stands for both.
