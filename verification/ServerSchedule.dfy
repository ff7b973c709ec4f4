/** Which pool entries are digested and executed when, and which blocks are handed out, over all runs
    of the server. */
module ServerSchedule {
  import opened Data
  import opened Footprint
  import opened Postings
  import opened BlockExecution
  import opened PoolSpec
  import opened Consensus
  import opened Server
  import opened ServerLedger
  import Windows

  /** The internal transactions of `shard` that the commits of a run executed, in order. */
  ghost function ExecutedInternals(g: Genesis, es: seq<Event>, shard: int): seq<InternalTransaction>
    requires ValidRun(g, es) && shard in g.members
  {
    if es == [] then []
    else
      var s, e := Run(g, es[..|es| - 1]), es[|es| - 1];
      ExecutedInternals(g, es[..|es| - 1], shard)
        + (if Executes(g, s, e) then NextBlock(g, s).internalList[shard] else [])
  }

  ghost function ExecutedCrosses(g: Genesis, es: seq<Event>, shard: int): seq<CrossShardTransaction>
    requires ValidRun(g, es) && shard in g.members
  {
    if es == [] then []
    else
      var s, e := Run(g, es[..|es| - 1]), es[|es| - 1];
      ExecutedCrosses(g, es[..|es| - 1], shard)
        + (if Executes(g, s, e) then NextBlock(g, s).crossShardList[shard] else [])
  }

  lemma StepStreams(g: Genesis, s: State, shard: int)
    requires shard in g.members
    ensures var h, ins, crs := Height(s), Internals(Pool(g.internalPool, shard)), Crosses(Pool(g.crossPool, shard));
      && Stream(ins, h + 1, g.v) == Stream(ins, h, g.v) + NextBlock(g, s).internalList[shard]
      && Stream(crs, h + 1, g.v) == Stream(crs, h, g.v) + NextBlock(g, s).crossShardList[shard]
  {
    hide Window, Internals, Crosses;
    WindowOfInternals(Pool(g.internalPool, shard), Height(s), g.v);
    WindowOfCrosses(Pool(g.crossPool, shard), Height(s), g.v);
  }

  /** After `h` commits exactly the windows of the heights below `h` were executed. */
  lemma {:induction false} ExecutedStreams(g: Genesis, es: seq<Event>, shard: int)
    requires ValidRun(g, es) && shard in g.members && !Run(g, es).fatal
    ensures var h := |Run(g, es).chain|;
      && ExecutedInternals(g, es, shard) == Stream(Internals(Pool(g.internalPool, shard)), h, g.v)
      && ExecutedCrosses(g, es, shard) == Stream(Crosses(Pool(g.crossPool, shard)), h, g.v)
  {
    hide Step, RecordedIn, IsWinner, Total, Shape, Executes, Packed, Internals, Crosses;
    if es != [] {
      var init := es[..|es| - 1];
      ExecutedStreams(g, init, shard);
      RunShape(g, init);
      StepHeight(g, Run(g, init), es[|es| - 1]);
      StepStreams(g, Run(g, init), shard);
    }
  }

  /** The pool indices that `h` commits read, in order. */
  function IndicesRead(g: Genesis, h: nat): seq<nat>
    requires g.m * g.v > 0
  {
    Windows.Cycle(h * g.v, g.m * g.v)
  }

  lemma StreamAtIndices<T(!new)>(g: Genesis, pool: seq<T>, h: nat)
    requires g.v > 0 && g.m > 0 && g.m * g.v > 0 && |pool| == g.m * g.v
    ensures |Stream(pool, h, g.v)| == |IndicesRead(g, h)|
    ensures forall i :: 0 <= i < |IndicesRead(g, h)| ==>
      IndicesRead(g, h)[i] < |pool| && Stream(pool, h, g.v)[i] == pool[IndicesRead(g, h)[i]]
  {
    hide Stream, Windows.Cycle;
    StreamCycles(pool, g.m, h, g.v);
    Windows.CycleAt(h * g.v, g.m * g.v);
  }

  /** Fair round robin: what `h` commits execute of a shard's start-up pools are the entries at the
      indices `IndicesRead`, in that order, and among these every index occurs `h/m` times, once more
      if its batch comes before the current one of the period under way. */
  lemma RoundRobin(g: Genesis, es: seq<Event>, shard: int)
    requires AllReady(g) && shard in g.members && g.m * g.v > 0
    requires ValidRun(g, es) && !Run(g, es).fatal
    ensures var h := |Run(g, es).chain|;
      var indices := IndicesRead(g, h);
      && |ExecutedInternals(g, es, shard)| == |ExecutedCrosses(g, es, shard)| == |indices|
      && (forall i :: 0 <= i < |indices| ==>
            && indices[i] < g.m * g.v
            && SameInternal(g.internalPool[shard][indices[i]], ExecutedInternals(g, es, shard)[i])
            && SameCross(g.crossPool[shard][indices[i]], ExecutedCrosses(g, es, shard)[i]))
      && (forall j: nat :: j < g.m * g.v ==>
            multiset(indices)[j] == h / g.m + (if j / g.v < h % g.m then 1 else 0))
  {
    var h := |Run(g, es).chain|;
    var ins, crs := Internals(g.internalPool[shard]), Crosses(g.crossPool[shard]);
    assert EntriesReady(g, shard) && g.v > 0 && g.m > 0;
    assert |ins| == |crs| == g.m * g.v;
    hide Run, ValidRun, ExecutedInternals, ExecutedCrosses, AllReady, EntriesReady, IndicesRead, Stream;
    ExecutedStreams(g, es, shard);
    StreamAtIndices(g, ins, h);
    StreamAtIndices(g, crs, h);
    forall j: nat | j < g.m * g.v
      ensures multiset(IndicesRead(g, h))[j] == h / g.m + (if j / g.v < h % g.m then 1 else 0)
    {
      ReadCount(g, h, j);
    }
  }

  /** What is executed, and handed out for validation, at a height: the pool entries of its window, field
      by field. Cross-shard transactions lead from an account of the shard to one of the next shard, the
      last shard's to one of shard 1. */
  lemma HandedOut(g: Genesis, h: nat, shard: int)
    requires AllReady(g) && shard in g.members
    ensures AllSameInternal(Chunk(g.internalPool[shard], h % g.m, g.v), InternalsAt(g, h, shard))
    ensures AllSameCross(Chunk(g.crossPool[shard], h % g.m, g.v), CrossesAt(g, h, shard))
    ensures |InternalsAt(g, h, shard)| == |CrossesAt(g, h, shard)| == g.v
    ensures forall tx :: tx in InternalsAt(g, h, shard) ==>
      tx.shard == shard && tx.value == 1 && tx.from in g.members[shard] && tx.to in g.members[shard]
    ensures forall tx :: tx in CrossesAt(g, h, shard) ==>
      && tx.shard1 == shard && tx.shard2 == (if shard == g.shards then 1 else shard + 1) && tx.value == 1
      && tx.from in g.members[shard] && tx.shard2 in g.members && tx.to in g.members[tx.shard2]
  {
    hide *;
    PooledLengths(g, shard);
    WindowReady(g, shard, h);
    SelectedFields(g, map[], h, shard);
    WindowIsChunkOf(g, shard, h);
    InternalsValid(g, shard, Window(g.internalPool[shard], h, g.v), InternalsAt(g, h, shard));
    CrossesValid(g, shard, Window(g.crossPool[shard], h, g.v), CrossesAt(g, h, shard));
  }

  lemma WindowIsChunkOf(g: Genesis, shard: int, h: nat)
    requires AllReady(g) && shard in g.members
    ensures shard in g.internalPool && shard in g.crossPool && g.m > 0
    ensures Window(g.internalPool[shard], h, g.v) == Chunk(g.internalPool[shard], h % g.m, g.v)
    ensures Window(g.crossPool[shard], h, g.v) == Chunk(g.crossPool[shard], h % g.m, g.v)
  {
    PooledLengths(g, shard);
    hide *;
    LengthsOf(g.internalPool[shard], g.crossPool[shard]);
    WindowIsChunk(g.internalPool[shard], g.m, h, g.v);
    WindowIsChunk(g.crossPool[shard], g.m, h, g.v);
  }

  lemma LengthsOf(ws: seq<WitnessTrans>, cs: seq<WitnessTrans>)
    ensures |Internals(ws)| == |ws| && |Crosses(cs)| == |cs|
  {
  }

  lemma InternalsValid(g: Genesis, shard: int, ws: seq<WitnessTrans>, txs: seq<InternalTransaction>)
    requires AllSameInternal(ws, txs) && (forall w :: w in ws ==> PoolEntry(g, shard, INTERNAL, w)) && shard in g.members
    ensures |txs| == |ws|
    ensures forall tx :: tx in txs ==>
      tx.shard == shard && tx.value == 1 && tx.from in g.members[shard] && tx.to in g.members[shard]
  {
    assert forall i :: 0 <= i < |ws| ==> SameInternal(ws[i], txs[i]) && ws[i] in ws;
  }

  lemma CrossesValid(g: Genesis, shard: int, ws: seq<WitnessTrans>, txs: seq<CrossShardTransaction>)
    requires AllSameCross(ws, txs) && (forall w :: w in ws ==> PoolEntry(g, shard, CROSS, w)) && shard in g.members
    ensures |txs| == |ws|
    ensures forall tx :: tx in txs ==>
      && tx.shard1 == shard && tx.shard2 == (if shard == g.shards then 1 else shard + 1) && tx.value == 1
      && tx.from in g.members[shard] && tx.shard2 in g.members && tx.to in g.members[tx.shard2]
  {
    assert forall i :: 0 <= i < |ws| ==> SameCross(ws[i], txs[i]) && ws[i] in ws;
  }

  lemma ReadCount(g: Genesis, h: nat, j: nat)
    requires g.v > 0 && g.m > 0 && g.m * g.v > 0 && j < g.m * g.v
    ensures multiset(IndicesRead(g, h))[j] == h / g.m + (if j / g.v < h % g.m then 1 else 0)
  {
    hide Windows.Cycle, Windows.Executions;
    Windows.CycleExecutions(j, h, g.v, g.m);
    Windows.FairRoundRobin(j, h, g.v, g.m);
  }

  lemma PooledLengths(g: Genesis, shard: int)
    requires AllReady(g) && shard in g.members
    ensures g.v > 0 && g.m > 0 && shard in g.internalPool && shard in g.crossPool
    ensures Pool(g.internalPool, shard) == g.internalPool[shard] && Pool(g.crossPool, shard) == g.crossPool[shard]
    ensures |Internals(g.internalPool[shard])| == |Crosses(g.crossPool[shard])| == g.m * g.v
  {
  }

  /** Any `m` further commits execute the whole of every start-up pool exactly once more. */
  lemma PeriodExecutesAll(g: Genesis, es: seq<Event>, later: seq<Event>, shard: int)
    requires AllReady(g) && shard in g.members
    requires ValidRun(g, es) && ValidRun(g, later) && !Run(g, es).fatal && !Run(g, later).fatal
    requires |Run(g, later).chain| == |Run(g, es).chain| + g.m
    ensures ExecutedInternals(g, es, shard) <= ExecutedInternals(g, later, shard)
    ensures multiset(ExecutedInternals(g, later, shard)) ==
      multiset(ExecutedInternals(g, es, shard)) + multiset(Internals(g.internalPool[shard]))
    ensures ExecutedCrosses(g, es, shard) <= ExecutedCrosses(g, later, shard)
    ensures multiset(ExecutedCrosses(g, later, shard)) ==
      multiset(ExecutedCrosses(g, es, shard)) + multiset(Crosses(g.crossPool[shard]))
  {
    hide *;
    var h := |Run(g, es).chain|;
    PooledLengths(g, shard);
    var ins, crs := Internals(g.internalPool[shard]), Crosses(g.crossPool[shard]);
    ExecutedStreams(g, es, shard);
    ExecutedStreams(g, later, shard);
    StreamPeriod(ins, g.m, h, g.v);
    StreamPeriod(crs, g.m, h, g.v);
  }

  /** The batches of a shard digest its pools chunk by chunk. */
  ghost predicate BatchesReady(g: Genesis, s: int) {
    && s in g.internalPool && s in g.crossPool && s in g.internalBatches && s in g.crossBatches
    && |g.internalPool[s]| == |g.crossPool[s]| == g.m * g.v
    && |g.internalBatches[s]| == |g.crossBatches[s]| == g.m
    && Batched(g.digest, g.directory, g.v, g.internalPool[s], g.internalBatches[s], s, INTERNAL)
    && Batched(g.digest, g.directory, g.v, g.crossPool[s], g.crossBatches[s], s, CROSS)
  }

  /** The proposal packed for `shard` at height `h`; its batches run two blocks ahead. */
  function PackedProposal(g: Genesis, h: nat, requester: int, shard: int, relay: seq<BatchTrans>): Proposal {
    Proposal(requester, h + 1,
             Window(Pool(g.internalBatches, shard), h + 2, 1), Window(Pool(g.crossBatches, shard), h + 2, 1), relay)
  }

  /** What is digested in the proposals packed for block `b` is exactly what is executed when block
      `b+2` commits. */
  lemma DigestedThenExecuted(
    g: Genesis, es: seq<Event>, later: seq<Event>, shard: int, requester: int, relay: seq<BatchTrans>, b: nat)
    requires g.v > 0 && g.m > 0 && BatchesReady(g, shard) && shard in g.members
    requires ValidRun(g, es) && ValidRun(g, later)
    requires b >= 1 && |Run(g, es).chain| == b - 1 && |Run(g, later).chain| == b + 1
    ensures Height(Run(g, later)) == b + 1
    ensures var p, txs := PackedProposal(g, Height(Run(g, es)), requester, shard, relay), NextBlock(g, Run(g, later));
      var ws, cs := Window(g.internalPool[shard], b + 1, g.v), Window(g.crossPool[shard], b + 1, g.v);
      && p.height == b && txs.height == b + 2
      && |p.internalBatch| == |p.crossBatch| == 1
      && IsBatch(g.digest, g.directory, ws, p.internalBatch[0], shard, INTERNAL)
      && IsBatch(g.digest, g.directory, cs, p.crossBatch[0], shard, CROSS)
      && p.internalBatch[0].digest == g.digest(ws) && p.crossBatch[0].digest == g.digest(cs)
      && txs.internalList[shard] == Internals(ws) && |ws| == g.v
      && txs.crossShardList[shard] == Crosses(cs) && |cs| == g.v
  {
    hide Run, ValidRun, IsBatch, Window, Internals, Crosses;
    HeightIsLength(g, es);
    HeightIsLength(g, later);
    DigestAgreement(g.digest, g.directory, g.v, g.internalPool[shard], g.internalBatches[shard], shard, INTERNAL, b + 1);
    DigestAgreement(g.digest, g.directory, g.v, g.crossPool[shard], g.crossBatches[shard], shard, CROSS, b + 1);
    var p := PackedProposal(g, Height(Run(g, es)), requester, shard, relay);
    BatchFields(g.digest, g.directory, Window(g.internalPool[shard], b + 1, g.v), p.internalBatch[0], shard, INTERNAL);
    BatchFields(g.digest, g.directory, Window(g.crossPool[shard], b + 1, g.v), p.crossBatch[0], shard, CROSS);
  }

  /** Constant pipeline lag: what is digested in the proposals packed for block `b` is exactly what
      is executed when block `b+2` commits, and what nodes are then given to validate, on any runs
      that reach these heights. */
  lemma PipelineLag(
    g: Genesis, es: seq<Event>, later: seq<Event>, after: seq<Event>, shard: int, requester: int,
    relay: seq<BatchTrans>, b: nat)
    requires g.v > 0 && g.m > 0 && BatchesReady(g, shard) && shard in g.members
    requires ValidRun(g, es) && ValidRun(g, later) && ValidRun(g, after)
    requires b >= 1 && |Run(g, es).chain| == b - 1
    requires |Run(g, later).chain| == b + 1 && |Run(g, after).chain| == b + 2
    ensures var p, txs := PackedProposal(g, Height(Run(g, es)), requester, shard, relay), NextBlock(g, Run(g, later));
      var ws, cs := Window(g.internalPool[shard], b + 1, g.v), Window(g.crossPool[shard], b + 1, g.v);
      && p.height == b && txs.height == b + 2
      && |p.internalBatch| == |p.crossBatch| == 1
      && IsBatch(g.digest, g.directory, ws, p.internalBatch[0], shard, INTERNAL)
      && IsBatch(g.digest, g.directory, cs, p.crossBatch[0], shard, CROSS)
      && p.internalBatch[0].digest == g.digest(ws) && p.crossBatch[0].digest == g.digest(cs)
      && txs.internalList[shard] == Internals(ws) && |ws| == g.v
      && txs.crossShardList[shard] == Crosses(cs) && |cs| == g.v
    ensures Height(Run(g, after)) >= 1
    ensures var h := Height(Run(g, after)) - 1;
      && InternalsAt(g, h, shard) == Internals(Window(g.internalPool[shard], b + 1, g.v))
      && CrossesAt(g, h, shard) == Crosses(Window(g.crossPool[shard], b + 1, g.v))
  {
    hide Run, ValidRun, IsBatch, Window, Internals, Crosses, NextBlock, PackedProposal;
    DigestedThenExecuted(g, es, later, shard, requester, relay, b);
    HeightIsLength(g, after);
  }

  /** One list's share in a balance: nothing unless the batch that digests it declares the account. */
  lemma BatchShare(
    g: Genesis, ws: seq<WitnessTrans>, batch: BatchTrans, shard: int, kind: int, a: string)
    requires IsBatch(g.digest, g.directory, ws, batch, shard, kind) && a in g.directory
    ensures Delta(WitnessPostings(ws), a) ==
      if g.directory[a] in batch.relatedAccount then Delta(WitnessPostings(ws), a) else 0
  {
    var id := g.directory[a];
    assert id in batch.relatedAccount <==> id in FootprintIds(g.directory, ws);
    if id !in batch.relatedAccount { FootprintSound(g.directory, ws, a); }
  }

  /** What the two batches selected at one height declare of the two pool windows of that height. */
  lemma DeclaredShares(
    g: Genesis, h: nat, ib: BatchTrans, cb: BatchTrans, shard: int, a: string)
    requires AllReady(g) && BatchesReady(g, shard) && shard in g.members && a in g.directory
    requires Window(g.internalBatches[shard], h, 1) == [ib] && Window(g.crossBatches[shard], h, 1) == [cb]
    ensures Delta(InternalPostings(InternalsAt(g, h, shard)), a) ==
      if g.directory[a] in ib.relatedAccount
      then Delta(WitnessPostings(Window(g.internalPool[shard], h, g.v)), a) else 0
    ensures Delta(CrossPostings(CrossesAt(g, h, shard)), a) ==
      if g.directory[a] in cb.relatedAccount
      then Delta(WitnessPostings(Window(g.crossPool[shard], h, g.v)), a) else 0
  {
    var ws, cs := Window(g.internalPool[shard], h, g.v), Window(g.crossPool[shard], h, g.v);
    assert g.v > 0 && g.m > 0;
    hide Window, Internals, Crosses, Delta, IsBatch, AllReady, InternalPostings, CrossPostings, WitnessPostings;
    DigestAgreement(g.digest, g.directory, g.v, g.internalPool[shard], g.internalBatches[shard], shard, INTERNAL, h);
    DigestAgreement(g.digest, g.directory, g.v, g.crossPool[shard], g.crossBatches[shard], shard, CROSS, h);
    KindsReady(g, shard, h);
    ExecutedAsStored(ws, INTERNAL);
    ExecutedAsStored(cs, CROSS);
    BatchShare(g, ws, ib, shard, INTERNAL, a);
    BatchShare(g, cs, cb, shard, CROSS, a);
  }

  /** One commit moves a balance by the sum of the three lists executed in its shard. */
  lemma BlockMoves(g: Genesis, s: State, shard: int, a: string)
    requires shard in g.members && shard in s.ledger && a in s.ledger[shard]
    ensures shard in ApplyBlock(s.ledger, NextBlock(g, s)) && a in ApplyBlock(s.ledger, NextBlock(g, s))[shard]
    ensures ApplyBlock(s.ledger, NextBlock(g, s))[shard][a] ==
      s.ledger[shard][a] + Delta(RelayPostings(RelaysAt(g, s.relays, shard)), a)
        + Delta(InternalPostings(InternalsAt(g, Height(s), shard)), a)
        + Delta(CrossPostings(CrossesAt(g, Height(s), shard)), a)
  {
    hide Delta, RelayPostings, InternalPostings, CrossPostings, RelaysAt, InternalsAt, CrossesAt, Height;
    BlockDelta(NextBlock(g, s), shard, a);
  }

  /** The declared movement of one account over one commit. */
  ghost function DeclaredMove(g: Genesis, p: Proposal, shard: int, h: nat, a: string): int
    requires |p.internalBatch| == |p.crossBatch| == 1 && a in g.directory
    requires shard in g.internalPool && shard in g.crossPool
  {
    (if g.directory[a] in p.internalBatch[0].relatedAccount
     then Delta(WitnessPostings(Window(g.internalPool[shard], h, g.v)), a) else 0)
      + (if g.directory[a] in p.crossBatch[0].relatedAccount
         then Delta(WitnessPostings(Window(g.crossPool[shard], h, g.v)), a) else 0)
  }

  lemma OneBatchEach(g: Genesis, b: nat, requester: int, shard: int, relay: seq<BatchTrans>)
    requires BatchesReady(g, shard) && g.m > 0 && b >= 1
    ensures var p := PackedProposal(g, b - 1, requester, shard, relay);
      && |p.internalBatch| == |p.crossBatch| == 1
      && Window(g.internalBatches[shard], b + 1, 1) == [p.internalBatch[0]]
      && Window(g.crossBatches[shard], b + 1, 1) == [p.crossBatch[0]]
  {
    WindowIsChunk(g.internalBatches[shard], g.m, b + 1, 1);
    WindowIsChunk(g.crossBatches[shard], g.m, b + 1, 1);
  }

  lemma ShardKnown(g: Genesis, shard: int)
    requires AllReady(g) && BatchesReady(g, shard)
    ensures g.m > 0 && shard in g.internalPool && shard in g.crossPool
    ensures shard in g.internalBatches && shard in g.crossBatches
  {
  }

  lemma DeclaredAt(g: Genesis, s: State, shard: int, requester: int, relay: seq<BatchTrans>, b: nat, a: string)
    requires AllReady(g) && BatchesReady(g, shard) && shard in g.members && a in g.directory
    requires shard in s.ledger && a in s.ledger[shard] && b >= 1 && Height(s) == b + 1
    ensures var p := PackedProposal(g, b - 1, requester, shard, relay);
      && |p.internalBatch| == |p.crossBatch| == 1 && shard in g.internalPool && shard in g.crossPool
      && shard in ApplyBlock(s.ledger, NextBlock(g, s)) && a in ApplyBlock(s.ledger, NextBlock(g, s))[shard]
      && ApplyBlock(s.ledger, NextBlock(g, s))[shard][a] ==
           s.ledger[shard][a] + Delta(RelayPostings(RelaysAt(g, s.relays, shard)), a)
             + DeclaredMove(g, p, shard, b + 1, a)
  {
    hide *;
    var p := PackedProposal(g, b - 1, requester, shard, relay);
    ShardKnown(g, shard);
    OneBatchEach(g, b, requester, shard, relay);
    DeclaredShares(g, b + 1, p.internalBatch[0], p.crossBatch[0], shard, a);
    BlockMoves(g, s, shard, a);
    MoveIs(g, p, shard, b + 1, a);
  }

  lemma MoveIs(g: Genesis, p: Proposal, shard: int, h: nat, a: string)
    requires |p.internalBatch| == |p.crossBatch| == 1 && a in g.directory
    requires shard in g.internalPool && shard in g.crossPool
    ensures DeclaredMove(g, p, shard, h, a) ==
      (if g.directory[a] in p.internalBatch[0].relatedAccount
       then Delta(WitnessPostings(Window(g.internalPool[shard], h, g.v)), a) else 0)
        + (if g.directory[a] in p.crossBatch[0].relatedAccount
           then Delta(WitnessPostings(Window(g.crossPool[shard], h, g.v)), a) else 0)
  {
    hide Window, Delta, WitnessPostings;
  }

  lemma LedgerHolds(g: Genesis, es: seq<Event>, shard: int, a: string)
    requires ValidRun(g, es) && shard in g.members && a in g.members[shard]
    ensures shard in Run(g, es).ledger && a in Run(g, es).ledger[shard]
  {
    hide Run, ValidRun;
    RunShape(g, es);
    assert MembersOf(Run(g, es).ledger)[shard] == g.members[shard];
  }

  /** The accounts declared in proposals are the accounts that execution changes: when block `b+2`
      commits, a balance moves by the relays executed for it, by the internal batch proposed for block
      `b` if that batch declares the account, and by the cross-shard batch if that one does. */
  lemma DeclaredAccounts(
    g: Genesis, es: seq<Event>, later: seq<Event>, shard: int, requester: int, relay: seq<BatchTrans>, b: nat,
    a: string)
    requires AllReady(g) && BatchesReady(g, shard) && shard in g.members
    requires a in g.members[shard] && a in g.directory
    requires ValidRun(g, es) && ValidRun(g, later)
    requires b >= 1 && |Run(g, es).chain| == b - 1 && |Run(g, later).chain| == b + 1
    ensures var p, s := PackedProposal(g, Height(Run(g, es)), requester, shard, relay), Run(g, later);
      && |p.internalBatch| == |p.crossBatch| == 1 && shard in g.internalPool && shard in g.crossPool
      && shard in s.ledger && a in s.ledger[shard]
      && shard in ApplyBlock(s.ledger, NextBlock(g, s)) && a in ApplyBlock(s.ledger, NextBlock(g, s))[shard]
      && ApplyBlock(s.ledger, NextBlock(g, s))[shard][a] ==
           s.ledger[shard][a] + Delta(RelayPostings(RelaysAt(g, s.relays, shard)), a)
             + DeclaredMove(g, p, shard, b + 1, a)
  {
    hide *;
    HeightIsLength(g, es);
    HeightIsLength(g, later);
    LedgerHolds(g, later, shard, a);
    DeclaredAt(g, Run(g, later), shard, requester, relay, b, a);
  }

  lemma KindsReady(g: Genesis, shard: int, h: nat)
    requires AllReady(g) && shard in g.members
    ensures shard in g.internalPool && OfKind(Window(g.internalPool[shard], h, g.v), INTERNAL)
    ensures shard in g.crossPool && OfKind(Window(g.crossPool[shard], h, g.v), CROSS)
  {
    hide Window;
    assert EntriesReady(g, shard);
    WindowReady(g, shard, h);
  }

  /** The answer to a request for blocks; `OutOfRange` where the slice expression is not valid. */
  datatype Answer = Blocks(list: seq<Block>) | OutOfRange

  function ProposalBlocks(chain: seq<Block>, blockNum: nat, identity: string, height: int): Answer {
    if identity == "order" then
      if blockNum == 0 then Blocks([])
      else if blockNum >= 3 then
        if 0 <= height - 3 <= |chain| then Blocks(chain[height - 3..]) else OutOfRange
      else Blocks(chain)
    else if height < 1 then Blocks([])
    else if height <= |chain| then Blocks(chain[height - 1..height])
    else OutOfRange
  }

  /** `list` holds exactly the blocks of the chain from height `from` on, each once, in order. */
  ghost predicate HeightsFrom(chain: seq<Block>, list: seq<Block>, from: int) {
    && |list| == |chain| + 1 - from
    && forall i :: 0 <= i < |list| ==> list[i] in chain && list[i].header.height == from + i
  }

  /** What a request for `height` is owed at a chain of height `|chain|`: an execution node exactly the
      block of that height, an ordering node every block from two heights before it on, or all blocks
      while there are fewer than three. */
  ghost predicate Lookup(chain: seq<Block>, identity: string, height: int, answer: Answer) {
    if identity == "order" then
      if |chain| < 3 then answer.Blocks? && HeightsFrom(chain, answer.list, 1)
      else if 3 <= height <= |chain| + 3 then answer.Blocks? && HeightsFrom(chain, answer.list, height - 2)
      else answer.OutOfRange?
    else if height < 1 then answer == Blocks([])
    else if height > |chain| then answer.OutOfRange?
    else
      answer.Blocks? && |answer.list| == 1 && answer.list[0] in chain && answer.list[0].header.height == height
  }

  lemma LookupAt(chain: seq<Block>, identity: string, height: int)
    requires forall i :: 0 <= i < |chain| ==> chain[i].header.height == i + 1
    ensures Lookup(chain, identity, height, ProposalBlocks(chain, |chain|, identity, height))
  {
    if identity == "order" && |chain| >= 3 && 3 <= height <= |chain| + 3 {
      var list := chain[height - 3..];
      hide ProposalBlocks;
      assert forall i :: 0 <= i < |list| ==> list[i] == chain[height - 3 + i];
      assert HeightsFrom(chain, list, height - 2);
    }
  }

  lemma LookupOn(chain: seq<Block>, rows: seq<BlockRow>, identity: string, height: int)
    requires Chained(chain, rows)
    ensures Lookup(chain, identity, height, ProposalBlocks(chain, MaxHeight(rows), identity, height))
  {
    hide Lookup, ProposalBlocks, MaxHeight;
    ChainedHeight(chain, rows);
    LookupAt(chain, identity, height);
  }

  /** Lookup agrees with height in every reachable state. */
  lemma LookupAgreesWithHeight(g: Genesis, es: seq<Event>, identity: string, height: int)
    requires ValidRun(g, es)
    ensures var s := Run(g, es);
      && Height(s) == |s.chain|
      && Lookup(s.chain, identity, height, ProposalBlocks(s.chain, Height(s), identity, height))
  {
    hide Run, ValidRun, Lookup;
    HeightIsLength(g, es);
    RunShape(g, es);
    LookupOn(Run(g, es).chain, Run(g, es).rows, identity, height);
  }
}
