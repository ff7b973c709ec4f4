/** The requests that only read: packed proposals, transactions to validate, accounts, blocks. */
module Requests {
  import opened Data
  import opened Iteration
  import opened PoolSpec
  import opened RootCollection
  import opened Consensus
  import opened Server
  import opened ServerSchedule
  import opened Controllers
  import Accounts
  import Pools

  datatype ValidTx = ValidTx(
    shard: int, height: nat, num: nat, internalList: map<int, seq<InternalTransaction>>,
    crossShardList: map<int, seq<CrossShardTransaction>>, relayList: map<int, seq<SuperTransaction>>)

  /** Field by field, the proposal for shard `i` at height `h`: the batches of height `h+2` in the two
      start-up pools, and the last relay batch if there is one. */
  ghost predicate Proposes(g: Genesis, pools: Pools.TransactionPools, h: nat, requester: int, i: int, p: Proposal)
    reads pools
  {
    && pools.Shaped() && 0 <= i <= pools.maxShard && pools.Packable(i, g.m)
    && p.shard == requester && p.height == h + 1
    && p.internalBatch == [pools.batches[INTERNAL][i][(h + 2) % g.m]]
    && p.crossBatch == [pools.batches[CROSS][i][(h + 2) % g.m]]
    && p.superBatch ==
         if pools.batches[RELAY][i] == [] then [] else [pools.batches[RELAY][i][|pools.batches[RELAY][i]| - 1]]
  }

  /** The proposal for one shard. */
  method PackProposal(ghost g: Genesis, pools: Pools.TransactionPools, height: nat, requester: int, shard: int)
    returns (p: Proposal)
    requires PoolsReady(g, pools) && 1 <= shard <= g.shards
    ensures Proposes(g, pools, height, requester, shard, p)
    ensures p == PackedProposal(g, height, requester, shard, p.superBatch)
  {
    assert shard in g.members && Stocked(g, pools, shard);
    var bt1, bt2, bt3 := pools.PackBatchTrans(height + 2, shard, g.m);
    p := Proposal(requester, height + 1, bt1, bt2, bt3);
  }

  /** One proposal per shard. `requester` is the shard the request names; it becomes the shard of
      every proposal. */
  method PackTransaction(c: Controller, requester: int) returns (res: seq<Proposal>)
    requires c.Valid()
    ensures |res| == c.shardNum
    ensures forall i :: 0 <= i < |res| ==>
      && Proposes(c.g, c.pools, Height(c.Abs()), requester, i + 1, res[i])
      && res[i] == PackedProposal(c.g, Height(c.Abs()), requester, i + 1, res[i].superBatch)
  {
    hide Stocked, RoundsOf, RelayPools, ClientsReady, Accounts.State.Valid, Accounts.State.Ledger;
    hide MaxHeight, PackedProposal, Proposes;
    var height := GetHeight(c.rows);
    res := [];
    for i := 1 to c.shardNum + 1
      invariant |res| == i - 1
      invariant forall k :: 0 <= k < |res| ==>
        && Proposes(c.g, c.pools, height, requester, k + 1, res[k])
        && res[k] == PackedProposal(c.g, height, requester, k + 1, res[k].superBatch)
    {
      var p := PackProposal(c.g, c.pools, height, requester, i);
      res := res + [p];
    }
  }

  /** When the relay batch that a proposal carries is what a commit executes. `ws` is the latest non-empty
      upload that was accepted for shard `i`, `base` the number of relay batches before it. */
  lemma ProposedRelaysAgree(
    g: Genesis, pools: Pools.TransactionPools, directory: map<string, int>, h: nat, requester: int, i: int, p: Proposal,
    earlier: seq<WitnessTrans>, ws: seq<WitnessTrans>, base: nat)
    requires Proposes(g, pools, h, requester, i, p)
    requires |ws| > 0 && pools.v > 0 && pools.entries[RELAY][i] == earlier + ws
    requires FlushedBatches(pools.digest, directory, Flush(ws, pools.v).batches, pools.batches[RELAY][i], base, i)
    requires forall xs, ys :: pools.digest(xs) == pools.digest(ys) ==> xs == ys
    ensures |p.superBatch| == 1 && p.superBatch[0].kind == RELAY && p.superBatch[0].shard == i
    ensures var pool, v, d := earlier + ws, pools.v, (|ws| - 1) % pools.v;
      var agrees := p.superBatch[0].digest == pools.digest(if |pool| >= v then pool[|pool| - v..] else []);
      && (agrees <==> v == 1 || (|ws| > v && Repeats(ws, v, d)))
      && (NoDuplicates(ws) ==> (agrees <==> v == 1 || (|ws| > 1 && d == 0)))
  {
    hide Flush, Repeats, FlushedBatches, NoDuplicates, Pools.TransactionPools.Packable;
    RelayBatchAgrees(pools.digest, directory, pools.batches[RELAY][i], base, i, earlier, ws, pools.v);
    LastIs(earlier + ws, pools.v);
  }

  lemma LastIs<T>(pool: seq<T>, v: nat)
    ensures LastEntries(pool, v) == if |pool| >= v then pool[|pool| - v..] else []
  {
  }

  /** The transactions a node validates: those executed by the last commit, and the relays packed
      now; nothing before the first block. */
  method PackValidTx(c: Controller, shard: int) returns (res: ValidTx)
    requires c.Valid() && 1 <= shard <= c.shardNum
    ensures res.shard == shard && res.height == Height(c.Abs())
    ensures res.height == 0 ==> res == ValidTx(shard, 0, 0, map[], map[], map[])
    ensures res.height > 0 ==>
      && res.internalList == map[shard := InternalsAt(c.g, res.height - 1, shard)]
      && res.crossShardList == map[shard := CrossesAt(c.g, res.height - 1, shard)]
      && res.relayList == map[shard := RelaysAt(c.g, c.Abs().relays, shard)]
      && res.num == 2 * c.g.v + |res.relayList[shard]|
    ensures res.height > 0 ==>
      && AllSameInternal(Window(Pool(c.g.internalPool, shard), res.height - 1, c.g.v), res.internalList[shard])
      && AllSameCross(Window(Pool(c.g.crossPool, shard), res.height - 1, c.g.v), res.crossShardList[shard])
      && AllSameRelay(LastEntries(Pool(c.Abs().relays, shard), c.g.v), res.relayList[shard])
  {
    hide AllSameInternal, AllSameCross, AllSameRelay, Window, LastEntries;
    hide Stocked, PoolsReady, RoundsOf, RelayPools, ClientsReady, Accounts.State.Valid, Accounts.State.Ledger;
    hide MaxHeight, InternalsAt, CrossesAt, RelaysAt;
    var height := GetHeight(c.rows);
    if height < 1 { return ValidTx(shard, height, 0, map[], map[], map[]); }
    var internal, cross, relay, num := PackShard(c.g, c.pools, shard, height - 1);
    SelectedFields(c.g, RelayPools(c.g, c.pools), height - 1, shard);
    res := ValidTx(shard, height, num, map[shard := internal], map[shard := cross], map[shard := relay]);
  }

  /** The canonical account list and the balances by shard and address say the same. */
  lemma RecordsAreLedger(state: Accounts.State)
    requires state.Valid()
    ensures var list, ledger := state.Records(), state.Ledger();
      && (forall k :: 0 <= k < |list| ==> list[k].id == k)
      && (forall k :: 0 <= k < |list| ==>
            && list[k].shard in ledger && list[k].address in ledger[list[k].shard]
            && list[k].value == ledger[list[k].shard][list[k].address])
      && (forall s, a :: s in ledger && a in ledger[s] ==>
            exists k :: 0 <= k < |list| && list[k].shard == s && list[k].address == a)
  {
    var list, ledger := state.Records(), state.Ledger();
    forall s, a | s in ledger && a in ledger[s]
      ensures exists k :: 0 <= k < |list| && list[k].shard == s && list[k].address == a
    {
      assert state.Has(s, a);
      var k := state.accountMap[s][a].id;
      assert list[k].shard == s && list[k].address == a;
    }
  }

  /** The account list in id order, with the height it belongs to. */
  method PackAccount(c: Controller) returns (list: seq<AccountRecord>, height: nat)
    requires c.Valid()
    ensures forall k :: 0 <= k < |list| ==> list[k].id == k
    ensures forall k :: 0 <= k < |list| ==>
      && list[k].shard in c.Abs().ledger && list[k].address in c.Abs().ledger[list[k].shard]
      && list[k].value == c.Abs().ledger[list[k].shard][list[k].address]
    ensures forall s, a :: s in c.Abs().ledger && a in c.Abs().ledger[s] ==>
      exists k :: 0 <= k < |list| && list[k].shard == s && list[k].address == a
    ensures height == Height(c.Abs())
  {
    hide PoolsReady, RoundsOf, RelayPools, ClientsReady, MaxHeight, Stocked;
    hide Accounts.State.Valid, Accounts.State.Ledger, Accounts.State.Records;
    list := c.state.GetAccountList(c.shardNum);
    RecordsAreLedger(c.state);
    height := GetHeight(c.rows);
  }

  /** Blocks by height. On a chain whose block `i` has height `i+1`, which every reachable chain is, the
      answer is exactly what `Lookup` owes the request. */
  method GetProposalBlock(c: Controller, identity: string, height: int) returns (answer: Answer)
    ensures answer == ProposalBlocks(c.chain, MaxHeight(c.rows), identity, height)
    ensures Chained(c.chain, c.rows) ==> Lookup(c.chain, identity, height, answer)
  {
    hide Lookup;
    if Chained(c.chain, c.rows) { LookupOn(c.chain, c.rows, identity, height); }
    if identity == "order" {
      var blockNum := GetHeight(c.rows);
      if blockNum == 0 {
        answer := Blocks([]);
      } else if blockNum >= 3 {
        if 0 <= height - 3 <= |c.chain| {
          answer := Blocks(c.chain[height - 3..]);
        } else {
          answer := OutOfRange;
        }
      } else {
        answer := Blocks(c.chain);
      }
    } else {
      if height < 1 { return Blocks([]); }
      if height <= |c.chain| {
        answer := Blocks(c.chain[height - 1..height]);
      } else {
        answer := OutOfRange;
      }
    }
  }
}
