/** Executing one block of transactions, on plain values: the reference that the ledger's methods
    are proved against. */
module BlockExecution {
  import opened Data
  import opened Postings

  /** Balances by shard and address. */
  type Ledger = map<int, map<string, int>>

  type Members = map<int, set<string>>

  function MembersOf(ledger: Ledger): Members {
    map s | s in ledger :: ledger[s].Keys
  }

  predicate HasAccount(members: Members, shard: int, address: string) {
    shard in members && address in members[shard]
  }

  /** The guards of the three executors: the right shard, and the accounts they write exist there. */
  predicate InternalAllowed(members: Members, shard: int, tx: InternalTransaction) {
    shard == tx.shard && HasAccount(members, shard, tx.from) && HasAccount(members, shard, tx.to)
  }

  predicate CrossAllowed(members: Members, shard: int, tx: CrossShardTransaction) {
    shard == tx.shard1 && HasAccount(members, shard, tx.from)
  }

  predicate RelayAllowed(members: Members, shard: int, tx: SuperTransaction) {
    shard == tx.shard && HasAccount(members, shard, tx.to)
  }

  ghost predicate InternalsAllowed(members: Members, shard: int, txs: seq<InternalTransaction>) {
    forall tx :: tx in txs ==> InternalAllowed(members, shard, tx)
  }

  ghost predicate CrossesAllowed(members: Members, shard: int, txs: seq<CrossShardTransaction>) {
    forall tx :: tx in txs ==> CrossAllowed(members, shard, tx)
  }

  ghost predicate RelaysAllowed(members: Members, shard: int, txs: seq<SuperTransaction>) {
    forall tx :: tx in txs ==> RelayAllowed(members, shard, tx)
  }

  ghost predicate BlockAllowed(members: Members, b: TransactionBlock) {
    && (forall s :: s in b.superList ==> RelaysAllowed(members, s, b.superList[s]))
    && (forall s :: s in b.internalList ==> InternalsAllowed(members, s, b.internalList[s]))
    && (forall s :: s in b.crossShardList ==> CrossesAllowed(members, s, b.crossShardList[s]))
  }

  function RelaysOf(b: TransactionBlock, shard: int): seq<Posting> {
    if shard in b.superList then RelayPostings(b.superList[shard]) else []
  }

  function InternalsOf(b: TransactionBlock, shard: int): seq<Posting> {
    if shard in b.internalList then InternalPostings(b.internalList[shard]) else []
  }

  function CrossesOf(b: TransactionBlock, shard: int): seq<Posting> {
    if shard in b.crossShardList then CrossPostings(b.crossShardList[shard]) else []
  }

  /** Everything a block books in one shard. */
  function BlockPostings(b: TransactionBlock, shard: int): seq<Posting> {
    RelaysOf(b, shard) + InternalsOf(b, shard) + CrossesOf(b, shard)
  }

  /** The closed form of a block: every balance moves by incoming minus outgoing values. */
  function ApplyBlock(ledger: Ledger, b: TransactionBlock): Ledger {
    map s | s in ledger :: Applied(ledger[s], BlockPostings(b, s))
  }

  lemma BlockDelta(b: TransactionBlock, s: int, a: string)
    ensures Delta(BlockPostings(b, s), a)
         == Delta(RelaysOf(b, s), a) + Delta(InternalsOf(b, s), a) + Delta(CrossesOf(b, s), a)
  {
    DeltaConcat(RelaysOf(b, s), InternalsOf(b, s), a);
    DeltaConcat(RelaysOf(b, s) + InternalsOf(b, s), CrossesOf(b, s), a);
  }

  /** A block only books accounts the guards have checked. */
  lemma BlockPostingsKnown(members: Members, b: TransactionBlock, s: int)
    requires BlockAllowed(members, b) && s in members
    ensures AllKnown(BlockPostings(b, s), members[s])
  {
    forall p | p in BlockPostings(b, s) ensures Known(p, members[s]) {
      if p in RelaysOf(b, s) {
        var i :| 0 <= i < |b.superList[s]| && p == OfRelay(b.superList[s][i]);
        assert RelayAllowed(members, s, b.superList[s][i]);
      } else if p in InternalsOf(b, s) {
        var i :| 0 <= i < |b.internalList[s]| && p == OfInternal(b.internalList[s][i]);
        assert InternalAllowed(members, s, b.internalList[s][i]);
      } else {
        var i :| 0 <= i < |b.crossShardList[s]| && p == OfCross(b.crossShardList[s][i]);
        assert CrossAllowed(members, s, b.crossShardList[s][i]);
      }
    }
  }

  /** The values an account receives and pays, by the fields of the transactions. */
  function InternalIn(txs: seq<InternalTransaction>, a: string): int {
    if txs == [] then 0
    else InternalIn(txs[..|txs| - 1], a) + (if txs[|txs| - 1].to == a then txs[|txs| - 1].value else 0)
  }

  function InternalOut(txs: seq<InternalTransaction>, a: string): int {
    if txs == [] then 0
    else InternalOut(txs[..|txs| - 1], a) + (if txs[|txs| - 1].from == a then txs[|txs| - 1].value else 0)
  }

  function CrossOut(txs: seq<CrossShardTransaction>, a: string): int {
    if txs == [] then 0
    else CrossOut(txs[..|txs| - 1], a) + (if txs[|txs| - 1].from == a then txs[|txs| - 1].value else 0)
  }

  function RelayIn(txs: seq<SuperTransaction>, a: string): int {
    if txs == [] then 0
    else RelayIn(txs[..|txs| - 1], a) + (if txs[|txs| - 1].to == a then txs[|txs| - 1].value else 0)
  }

  /** Postings book exactly what is received minus what is paid. */
  lemma {:induction false} InternalMoves(txs: seq<InternalTransaction>, a: string)
    ensures Delta(InternalPostings(txs), a) == InternalIn(txs, a) - InternalOut(txs, a)
  {
    if txs != [] {
      InternalMoves(txs[..|txs| - 1], a);
      assert InternalPostings(txs)[..|txs| - 1] == InternalPostings(txs[..|txs| - 1]);
    }
  }

  lemma {:induction false} CrossMoves(txs: seq<CrossShardTransaction>, a: string)
    ensures Delta(CrossPostings(txs), a) == -CrossOut(txs, a)
  {
    if txs != [] {
      CrossMoves(txs[..|txs| - 1], a);
      assert CrossPostings(txs)[..|txs| - 1] == CrossPostings(txs[..|txs| - 1]);
    }
  }

  lemma {:induction false} RelayMoves(txs: seq<SuperTransaction>, a: string)
    ensures Delta(RelayPostings(txs), a) == RelayIn(txs, a)
  {
    if txs != [] {
      RelayMoves(txs[..|txs| - 1], a);
      assert RelayPostings(txs)[..|txs| - 1] == RelayPostings(txs[..|txs| - 1]);
    }
  }

  /** What a block moves in shard `s` for address `a`: relays and internal transfers received, minus
      internal and cross-shard transfers paid. */
  function Movement(b: TransactionBlock, s: int, a: string): int {
    RelayIn(Pool(b.superList, s), a) + InternalIn(Pool(b.internalList, s), a)
      - InternalOut(Pool(b.internalList, s), a) - CrossOut(Pool(b.crossShardList, s), a)
  }

  lemma BlockMovement(b: TransactionBlock, s: int, a: string)
    ensures Delta(BlockPostings(b, s), a) == Movement(b, s, a)
  {
    BlockDelta(b, s, a);
    RelayMoves(Pool(b.superList, s), a);
    InternalMoves(Pool(b.internalList, s), a);
    CrossMoves(Pool(b.crossShardList, s), a);
  }
}
