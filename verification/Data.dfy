/** The records the server exchanges and stores. */
module Data {

  datatype Option<+T> = None | Some(value: T)

  const INTERNAL := 0
  const CROSS := 1
  const RELAY := 2

  /** What every account starts with. */
  const INITIAL_BALANCE := 100000

  /** A raw pool entry; `kind` is INTERNAL, CROSS or RELAY. */
  datatype WitnessTrans = WitnessTrans(
    shard: int, toShard: int, from: string, to: string, value: int, kind: int)

  /** A digest of consecutive pool entries with the accounts they touch. */
  datatype BatchTrans = BatchTrans(
    shard: int, digest: string, relatedAccount: seq<int>, kind: int)

  datatype InternalTransaction = InternalTransaction(
    shard: int, from: string, to: string, value: int)

  datatype CrossShardTransaction = CrossShardTransaction(
    shard1: int, shard2: int, from: string, to: string, value: int)

  datatype SuperTransaction = SuperTransaction(
    fromShard: int, shard: int, from: string, to: string, value: int)

  datatype TransactionBlock = TransactionBlock(
    height: int,
    internalList: map<int, seq<InternalTransaction>>,
    crossShardList: map<int, seq<CrossShardTransaction>>,
    superList: map<int, seq<SuperTransaction>>)

  /** A copy of an account, as handed out in account lists. */
  datatype AccountRecord = AccountRecord(id: int, shard: int, address: string, value: int)

  /** The root of the state tree with the votes it received. */
  datatype GSRoot = GSRoot(stateRoot: string, vote: map<int, map<string, nat>>)

  /** What one shard proposes for a block. */
  datatype Proposal = Proposal(
    shard: int, height: int,
    internalBatch: seq<BatchTrans>, crossBatch: seq<BatchTrans>, superBatch: seq<BatchTrans>)

  /** What an ordering node uploads. */
  datatype ProposalBlock = ProposalBlock(
    id: string, idList: seq<string>, lockedAccount: seq<int>, height: int, hash: string,
    root: GSRoot, proposalList: seq<Proposal>, vrf: int)

  datatype BlockHeader = BlockHeader(
    height: int, time: int, vote: int, transactionRoot: string, stateRoot: GSRoot)

  datatype BlockBody = BlockBody(height: int, lockedAccount: seq<int>, transactionLists: seq<Proposal>)

  datatype Block = Block(header: BlockHeader, body: BlockBody)

  /** A row of the block table. */
  datatype BlockRow = BlockRow(height: int, timeOnChain: int, vote: int)

  /** What a table of lists holds for shard `s`, nothing for an unknown shard. */
  function Pool<T>(lists: map<int, seq<T>>, s: int): seq<T> {
    if s in lists then lists[s] else []
  }
}
