/** The controller: the objects behind the handlers, each handler proved against the machine of
    module Server. */
module Controllers {
  import opened Data
  import opened Iteration
  import opened BlockExecution
  import opened PoolSpec
  import opened Rounds
  import opened RootCollection
  import opened Consensus
  import opened Server
  import Accounts
  import Pools

  /** A tally as an object: a request may still hold one that a commit has replaced. */
  class TallyMap {
    var entries: Tally

    constructor ()
      ensures entries == map[]
    {
      entries := map[];
    }

    method Record(key: string, block: ProposalBlock)
      modifies this
      ensures entries == Recorded(old(entries), key, block)
      ensures key in entries && entries.Keys == old(entries).Keys + {key}
      ensures entries[key].count == if key in old(entries) then old(entries)[key].count + 1 else 1
      ensures entries[key].block == if key in old(entries) then old(entries)[key].block else block
      ensures forall other :: other in old(entries) && other != key ==> entries[other] == old(entries)[other]
    {
      if key in entries {
        var info := entries[key];
        entries := entries[key := info.(count := info.count + 1)];
      } else {
        entries := entries[key := LeaderInfo(block, 1)];
      }
    }
  }

  ghost function TalliesOf(issued: seq<TallyMap>): seq<Tally>
    reads issued
  {
    seq(|issued|, i requires 0 <= i < |issued| reads issued => issued[i].entries)
  }

  ghost predicate Distinct(issued: seq<TallyMap>) {
    forall i, j :: 0 <= i < j < |issued| ==> issued[i] != issued[j]
  }

  /** One client object per shard, with a vote table for its own shard. */
  ghost predicate ClientsReady(clients: map<int, ShardStruct>, shardNum: nat)
    reads clients.Values
  {
    && (forall s :: s in clients <==> 1 <= s <= shardNum)
    && (forall s, r :: s in clients && r in clients && clients[s] == clients[r] ==> s == r)
    && (forall s :: s in clients ==> s in clients[s].newRootsVote)
  }

  ghost function RoundsOf(clients: map<int, ShardStruct>, shardNum: nat): map<int, Round>
    requires ClientsReady(clients, shardNum)
    reads clients.Values
  {
    map s | s in clients :: clients[s].RoundOf(s)
  }

  /** The pools hold what start-up put there. */
  ghost predicate Stocked(g: Genesis, pools: Pools.TransactionPools, s: int)
    requires pools.Shaped() && 1 <= s <= pools.maxShard
    reads pools
  {
    && s in g.internalPool && pools.entries[INTERNAL][s] == g.internalPool[s]
    && s in g.crossPool && pools.entries[CROSS][s] == g.crossPool[s]
    && s in g.internalBatches && pools.batches[INTERNAL][s] == g.internalBatches[s]
    && s in g.crossBatches && pools.batches[CROSS][s] == g.crossBatches[s]
    && pools.Packable(s, g.m)
  }

  ghost predicate PoolsReady(g: Genesis, pools: Pools.TransactionPools)
    reads pools
  {
    && pools.Shaped() && pools.v == g.v && 1 <= g.shards <= pools.maxShard
    && (forall s :: s in g.members <==> 1 <= s <= g.shards)
    && (forall s :: s in g.members ==> Stocked(g, pools, s))
  }

  ghost function RelayPools(g: Genesis, pools: Pools.TransactionPools): map<int, seq<WitnessTrans>>
    requires PoolsReady(g, pools)
    reads pools
  {
    map s | s in g.members :: pools.entries[RELAY][s]
  }

  /** GetHeight: a query of the block table for its highest row. */
  method GetHeight(rows: seq<BlockRow>) returns (height: nat)
    ensures height == MaxHeight(rows)
    ensures forall r :: r in rows ==> r.height <= height
    ensures height == 0 || exists r :: r in rows && r.height == height
  {
    height := 0;
    for i := 0 to |rows|
      invariant height == MaxHeight(rows[..i])
      invariant forall j :: 0 <= j < i ==> rows[j].height <= height
      invariant height == 0 || exists r :: r in rows && r.height == height
    {
      assert rows[..i + 1][..i] == rows[..i];
      if height < rows[i].height { height := rows[i].height; }
    }
    assert rows[..|rows|] == rows;
  }

  /** Fails exactly when the height is not the next one or the votes are too few. */
  method VerifyBlock(b: Block, rows: seq<BlockRow>, proposerNum: nat) returns (ok: bool)
    ensures ok <==> b.header.height == MaxHeight(rows) + 1 && b.header.vote >= 2 * (proposerNum / 3)
  {
    var minVote := 2 * (proposerNum / 3);
    var height := GetHeight(rows);
    if b.header.height != height + 1 { return false; }
    if b.header.vote < minVote { return false; }
    ok := true;
  }

  /** What PackValidateTrans hands out for a stocked shard. */
  method PackShard(ghost g: Genesis, pools: Pools.TransactionPools, shard: int, h: nat)
    returns (internal: seq<InternalTransaction>, cross: seq<CrossShardTransaction>, relay: seq<SuperTransaction>, num: nat)
    requires PoolsReady(g, pools) && 1 <= shard <= g.shards
    ensures num == 2 * g.v + |relay|
    ensures internal == InternalsAt(g, h, shard)
    ensures cross == CrossesAt(g, h, shard)
    ensures relay == RelaysAt(g, RelayPools(g, pools), shard)
  {
    assert shard in g.members && Stocked(g, pools, shard);
    var num1, num2, num3;
    internal, cross, relay, num1, num2, num3 := pools.PackValidateTrans(h, shard, g.m);
    num := num1 + num2 + num3;
  }

  lemma PackedFields(g: Genesis, relays: map<int, seq<WitnessTrans>>, h: nat)
    ensures var b := Packed(g, relays, h);
      && b.height == h + 1 && b.internalList.Keys == b.crossShardList.Keys == b.superList.Keys == g.members.Keys
      && forall s :: s in g.members ==>
           && AllSameInternal(Window(Pool(g.internalPool, s), h, g.v), b.internalList[s])
           && AllSameCross(Window(Pool(g.crossPool, s), h, g.v), b.crossShardList[s])
           && AllSameRelay(LastEntries(Pool(relays, s), g.v), b.superList[s])
  {
    hide Window, LastEntries, AllSameInternal, AllSameCross, AllSameRelay, InternalsAt, CrossesAt, RelaysAt;
    var b := Packed(g, relays, h);
    forall s | s in g.members
      ensures AllSameInternal(Window(Pool(g.internalPool, s), h, g.v), b.internalList[s])
      ensures AllSameCross(Window(Pool(g.crossPool, s), h, g.v), b.crossShardList[s])
      ensures AllSameRelay(LastEntries(Pool(relays, s), g.v), b.superList[s])
    {
      SelectedFields(g, relays, h, s);
    }
  }

  /** The transactions of the height just reached, shard by shard: the pool entries of the height's
      window and the last relays, field by field. */
  method PackTx4ServerUpdate(ghost g: Genesis, pools: Pools.TransactionPools, shardNum: nat, height: nat)
    returns (b: TransactionBlock)
    requires PoolsReady(g, pools) && shardNum == g.shards && height >= 1
    ensures b == Packed(g, RelayPools(g, pools), height - 1)
    ensures b.height == height
    ensures b.internalList.Keys == b.crossShardList.Keys == b.superList.Keys == g.members.Keys
    ensures forall s :: s in g.members ==>
      && AllSameInternal(Window(Pool(g.internalPool, s), height - 1, g.v), b.internalList[s])
      && AllSameCross(Window(Pool(g.crossPool, s), height - 1, g.v), b.crossShardList[s])
      && AllSameRelay(LastEntries(Pool(RelayPools(g, pools), s), g.v), b.superList[s])
  {
    hide *;
    b := PackLists(g, pools, shardNum, height);
    PackedFields(g, RelayPools(g, pools), height - 1);
  }

  method PackLists(ghost g: Genesis, pools: Pools.TransactionPools, shardNum: nat, height: nat)
    returns (b: TransactionBlock)
    requires PoolsReady(g, pools) && shardNum == g.shards && height >= 1
    ensures b == Packed(g, RelayPools(g, pools), height - 1)
  {
    hide InternalsAt, CrossesAt, RelaysAt, Stocked;
    var intList: map<int, seq<InternalTransaction>> := map[];
    var croList: map<int, seq<CrossShardTransaction>> := map[];
    var reList: map<int, seq<SuperTransaction>> := map[];
    for shard := 1 to shardNum + 1
      invariant forall s :: s in intList <==> 1 <= s < shard
      invariant intList.Keys == croList.Keys == reList.Keys
      invariant forall s :: s in intList ==> intList[s] == InternalsAt(g, height - 1, s)
      invariant forall s :: s in croList ==> croList[s] == CrossesAt(g, height - 1, s)
      invariant forall s :: s in reList ==> reList[s] == RelaysAt(g, RelayPools(g, pools), s)
    {
      var internal, cross, relay, num := PackShard(g, pools, shard, height - 1);
      intList := intList[shard := internal];
      croList := croList[shard := cross];
      reList := reList[shard := relay];
    }
    b := TransactionBlock(height, intList, croList, reList);
    ghost var all := Packed(g, RelayPools(g, pools), height - 1);
    assert intList == all.internalList && croList == all.crossShardList && reList == all.superList;
  }

  /** Adds up what the shards with enough root votes report. */
  method VerifyGSRoot(clients: map<int, ShardStruct>, state: Accounts.State, shardNum: nat, clientMax: nat)
    returns (num: int)
    requires ClientsReady(clients, shardNum) && state.Valid() && state.HasShards(shardNum)
    modifies state`accountMap
    ensures state.accountMap == old(state.accountMap)
    ensures num == CountedSum(RoundsOf(clients, shardNum), shardNum, clientMax)
  {
    var minVote := clientMax * 2 / 3;
    num := 0;
    for i := 1 to shardNum + 1
      invariant state.accountMap == old(state.accountMap)
      invariant num == CountedSum(RoundsOf(clients, shardNum), i - 1, clientMax)
    {
      var isValid := AnyQuorum(clients[i].newRootsVote[i], minVote);
      if isValid {
        num := num + clients[i].txNum;
        state.Promote(i);
      }
    }
  }

  /** What the scan is left with when the live tally is empty. */
  const NO_PROPOSAL := ProposalBlock("", [], [], 0, "", GSRoot("", map[]), [], 0)

  lemma MembersFromLedger(state: Accounts.State)
    requires state.Valid()
    ensures MembersOf(state.Ledger()) == state.Members()
  {
    assert forall s :: s in state.accountMap ==> state.Ledger()[s].Keys == state.accountMap[s].Keys;
  }

  /** Executes a block; where the server survives it, counts the rounds. */
  method ExecuteAndCount(
    state: Accounts.State, clients: map<int, ShardStruct>, shardNum: nat, clientMax: nat, txs: TransactionBlock)
    returns (ok: bool, num: int)
    requires state.Valid() && state.HasShards(shardNum) && ClientsReady(clients, shardNum)
    modifies state`accountMap, state`newAccountMap, state.book
    ensures state.Valid() && state.HasShards(shardNum) && state.accountMap == old(state.accountMap)
    ensures ok == !ExitsOn(old(state.Ledger()), txs)
    ensures ok ==> state.Ledger() == ApplyBlock(old(state.Ledger()), txs)
    ensures ok ==> num == CountedSum(RoundsOf(clients, shardNum), shardNum, clientMax)
  {
    hide ApplyBlock, BlockAllowed, CountedSum, MembersOf;
    MembersFromLedger(state);
    ok := state.UpdateAccount(txs);
    num := 0;
    if ok {
      num := VerifyGSRoot(clients, state, shardNum, clientMax);
    }
  }

  class Controller {
    ghost const g: Genesis
    const shardNum: nat
    const proposerNum: nat
    const clientMax: nat
    const keyOf: ProposalBlock -> string
    const txRoot: seq<int> -> string
    const state: Accounts.State
    const pools: Pools.TransactionPools
    const clients: map<int, ShardStruct>

    var leaderProblocks: TallyMap
    var chain: seq<Block>
    var rows: seq<BlockRow>
    var totalTxNum: int
    var exited: bool

    // Every tally ever in use, the live one last.
    ghost var issued: seq<TallyMap>

    constructor (
      ghost g: Genesis, shardNum: nat, proposerNum: nat, clientMax: nat,
      keyOf: ProposalBlock -> string, txRoot: seq<int> -> string,
      state: Accounts.State, pools: Pools.TransactionPools, clients: map<int, ShardStruct>)
      ensures this.g == g && this.shardNum == shardNum && this.proposerNum == proposerNum
      ensures this.clientMax == clientMax && this.keyOf == keyOf && this.txRoot == txRoot
      ensures this.state == state && this.pools == pools && this.clients == clients
      ensures fresh(leaderProblocks) && issued == [leaderProblocks] && leaderProblocks.entries == map[]
      ensures chain == [] && rows == [] && totalTxNum == 0 && !exited
    {
      this.g, this.shardNum, this.proposerNum, this.clientMax := g, shardNum, proposerNum, clientMax;
      this.keyOf, this.txRoot := keyOf, txRoot;
      this.state, this.pools, this.clients := state, pools, clients;
      var t := new TallyMap();
      leaderProblocks, issued := t, [t];
      chain, rows, totalTxNum, exited := [], [], 0, false;
    }

    ghost predicate TalliesValid()
      reads this`issued, this`leaderProblocks, issued
    {
      && issued != [] && issued[|issued| - 1] == leaderProblocks && Distinct(issued)
      && (forall i :: 0 <= i < |issued| ==> Positive(issued[i].entries))
    }

    ghost predicate ConfigValid()
      reads state
    {
      && g.shards == shardNum && g.proposers == proposerNum && g.clientMax == clientMax
      && g.keyOf == keyOf && g.txRoot == txRoot
      && state.Valid() && state.HasShards(shardNum) && state.Members() == g.members
    }

    ghost predicate Valid()
      reads this, issued, clients.Values, pools, state
    {
      TalliesValid() && ConfigValid() && ClientsReady(clients, shardNum) && PoolsReady(g, pools)
    }

    ghost function Abs(): Server.State
      requires Valid()
      reads this, issued, clients.Values, pools, state, state.book
    {
      Server.State(TalliesOf(issued), chain, rows, state.Ledger(), RelayPools(g, pools),
                   RoundsOf(clients, shardNum), totalTxNum, exited)
    }

    /** Reads and executes the transactions of the height just reached, then counts the rounds. */
    method UpdateChainWithBlock()
      requires ConfigValid() && ClientsReady(clients, shardNum) && PoolsReady(g, pools)
      requires MaxHeight(rows) >= 1 && !exited
      modifies this`totalTxNum, this`exited, state`accountMap, state`newAccountMap, state.book
      ensures ConfigValid() && state.book == old(state.book)
      ensures var txs := Packed(g, RelayPools(g, pools), MaxHeight(rows) - 1);
        && exited == ExitsOn(old(state.Ledger()), txs)
        && (!exited ==>
              && state.Ledger() == ApplyBlock(old(state.Ledger()), txs)
              && totalTxNum == old(totalTxNum) + CountedSum(RoundsOf(clients, shardNum), shardNum, clientMax))
    {
      hide Packed, RelayPools, Stocked, ApplyBlock, ExitsOn, CountedSum, RoundsOf, Accounts.State.Ledger, Accounts.State.Valid;
      var height := GetHeight(rows);
      var txs := PackTx4ServerUpdate(g, pools, shardNum, height);
      var ok, num := ExecuteAndCount(state, clients, shardNum, clientMax, txs);
      if !ok {
        exited := true;
        return;
      }
      totalTxNum := totalTxNum + num;
    }

    /** Decides on the live tally: scans it, checks the quorum, builds and verifies the block, appends
        it and executes the height it reaches. `winner` is where the scan ended. */
    method CheckLeaderProblocks(now: int) returns (ok: bool, ghost winner: string)
      requires Valid() && !exited
      modifies this`chain, this`rows, this`totalTxNum, this`exited
      modifies state`accountMap, state`newAccountMap, state.book
      ensures ConfigValid() && state.book == old(state.book)
      ensures leaderProblocks.entries != map[] ==> IsWinner(leaderProblocks.entries, winner)
      ensures ok == WinsIn(leaderProblocks.entries, proposerNum, MaxHeight(old(rows)), winner)
      ensures ok <==>
        && winner in leaderProblocks.entries && 3 * leaderProblocks.entries[winner].count + 2 >= 2 * proposerNum
        && leaderProblocks.entries[winner].block.height == MaxHeight(old(rows)) + 1
      ensures ok ==>
        && |chain| == |old(chain)| + 1 && old(chain) <= chain
        && IsBlockOf(txRoot, leaderProblocks.entries[winner].block, leaderProblocks.entries[winner].count, now,
                     chain[|chain| - 1])
      ensures !ok ==>
        && chain == old(chain) && rows == old(rows) && totalTxNum == old(totalTxNum) && !exited
        && state.Ledger() == old(state.Ledger())
      ensures ok ==>
        var info := leaderProblocks.entries[winner];
        var b := MakeBlock(txRoot, info.block, info.count, now);
        var txs := Packed(g, RelayPools(g, pools), MaxHeight(old(rows)));
        && chain == old(chain) + [b] && rows == old(rows) + [RowOf(b)]
        && exited == ExitsOn(old(state.Ledger()), txs)
        && (!exited ==>
              && state.Ledger() == ApplyBlock(old(state.Ledger()), txs)
              && totalTxNum == old(totalTxNum) + CountedSum(RoundsOf(clients, shardNum), shardNum, clientMax))
    {
      hide Packed, RelayPools, Stocked, ApplyBlock, ExitsOn, CountedSum, RoundsOf, MaxHeight, Accounts.State.Ledger, Accounts.State.Valid;
      var live := leaderProblocks.entries;
      hide IsBlockOf;
      assert leaderProblocks == issued[|issued| - 1];
      var maxCount, leader;
      maxCount, leader, winner := FindLeader(live);
      ok := false;
      if maxCount >= 2 * proposerNum / 3 {
        var proposal := if leader.Some? then leader.value.block else NO_PROPOSAL;
        var b := MakeBlock(txRoot, proposal, maxCount, now);
        ok := VerifyBlock(b, rows, proposerNum);
        MadeOf(txRoot, proposal, maxCount, now);
        if ok {
          NextHeight(rows, RowOf(b));
          chain := chain + [b];
          rows := rows + [RowOf(b)];
          UpdateChainWithBlock();
        }
      }
    }

    method ReplaceTally()
      requires TalliesValid()
      modifies this`leaderProblocks, this`issued
      ensures TalliesValid()
      ensures TalliesOf(issued) == old(TalliesOf(issued)) + [map[]]
      ensures issued == old(issued) + [leaderProblocks] && fresh(leaderProblocks)
    {
      leaderProblocks := new TallyMap();
      issued := issued + [leaderProblocks];
    }

    /** After a commit: shard by shard a fresh live tally and a fresh round. */
    method ResetRounds()
      requires TalliesValid() && ClientsReady(clients, shardNum)
      modifies this`leaderProblocks, this`issued, clients.Values
      ensures TalliesValid() && ClientsReady(clients, shardNum)
      ensures TalliesOf(issued) == old(TalliesOf(issued)) + NewTallies(shardNum)
      ensures old(issued) <= issued
      ensures RoundsOf(clients, shardNum) == FreshRounds(shardNum)
    {
      ghost var rounds, before := RoundsOf(clients, shardNum), TalliesOf(issued);
      RoundsAre(clients, shardNum);
      AllRefreshed(rounds, shardNum);
      NothingReset(before, rounds);
      hide *;
      for i := 1 to shardNum + 1
        invariant TalliesValid() && ClientsReady(clients, shardNum)
        invariant TalliesOf(issued) == before + NewTallies(i - 1)
        invariant old(issued) <= issued
        invariant RoundsOf(clients, shardNum) == Refreshed(rounds, i - 1)
      {
        ResetShard(i);
        OneTallyMore(before, i);
        OneRefreshed(rounds, i);
      }
    }

    method ResetShard(i: nat)
      requires TalliesValid() && ClientsReady(clients, shardNum) && 1 <= i <= shardNum
      modifies this`leaderProblocks, this`issued, clients.Values
      ensures TalliesValid() && ClientsReady(clients, shardNum)
      ensures TalliesOf(issued) == old(TalliesOf(issued)) + [map[]]
      ensures old(issued) <= issued
      ensures RoundsOf(clients, shardNum) == old(RoundsOf(clients, shardNum))[i := FRESH]
    {
      hide TalliesOf, TalliesValid, RoundsOf;
      ReplaceTally();
      ResetClient(i);
    }

    method ResetClient(i: int)
      requires ClientsReady(clients, shardNum) && i in clients
      modifies clients[i]
      ensures ClientsReady(clients, shardNum)
      ensures RoundsOf(clients, shardNum) == old(RoundsOf(clients, shardNum))[i := FRESH]
    {
      clients[i].Reset(shardNum);
    }

    /** The unlocked read at the start of a request. */
    method CaptureTally() returns (t: TallyMap)
      requires TalliesValid()
      ensures t == leaderProblocks && t in issued
    {
      t := leaderProblocks;
    }

    method RecordIn(t: TallyMap, block: ProposalBlock, ghost k: nat) returns (count: int)
      requires TalliesValid() && ConfigValid() && k < |issued| && issued[k] == t
      modifies t
      ensures TalliesValid() && TalliesOf(issued) == RecordedIn(g, old(TalliesOf(issued)), k, block)
      ensures count == Total(t.entries)
    {
      hide Total, Accounts.State.Ledger, Accounts.State.Valid;
      t.Record(keyOf(block), block);
      count := CountUploads(t.entries);
    }

    /** Records an upload in the captured tally and adds that tally up. */
    method RecordUpload(t: TallyMap, block: ProposalBlock, ghost k: nat) returns (count: int)
      requires Valid() && k < |issued| && issued[k] == t
      modifies t
      ensures Valid() && Abs() == AfterRecord(g, old(Abs()), k, block)
      ensures count == Total(t.entries)
    {
      hide TalliesOf, TalliesValid, RecordedIn, Total, ClientsReady, RoundsOf, PoolsReady, RelayPools;
      hide Accounts.State.Ledger, Accounts.State.Valid;
      count := RecordIn(t, block, k);
    }

    /** CheckLeaderProblocks as a step of the machine. */
    method Decide(now: int) returns (ok: bool, ghost winner: string)
      requires Valid() && !exited
      modifies this`chain, this`rows, this`totalTxNum, this`exited
      modifies state`accountMap, state`newAccountMap, state.book
      ensures state.book == old(state.book)
      ensures Live(old(Abs())) != map[] ==> IsWinner(Live(old(Abs())), winner)
      ensures ok == Wins(g, old(Abs()), winner)
      ensures !ok ==> Valid() && Abs() == old(Abs())
      ensures ok ==> exited == ExitsOn(old(Abs()).ledger, NextBlock(g, old(Abs())))
      ensures ok && !exited ==> Valid() && Abs() == Executed(g, old(Abs()), winner, now)
    {
      hide Packed, Stocked, ApplyBlock, ExitsOn, CountedSum, RoundsOf, RelayPools, MaxHeight, MakeBlock;
      hide WinsIn, IsWinner, Accounts.State.Ledger, Accounts.State.Valid, ClientsReady, PoolsReady;
      assert Live(Abs()) == leaderProblocks.entries;
      ok, winner := CheckLeaderProblocks(now);
    }

    method StartRounds()
      requires Valid()
      modifies this`leaderProblocks, this`issued, clients.Values
      ensures Valid() && Abs() == Renewed(g, old(Abs()))
      ensures old(issued) <= issued
    {
      hide RoundsOf, RelayPools, Stocked, Accounts.State.Ledger, Accounts.State.Valid, ClientsReady, PoolsReady;
      ResetRounds();
    }

    /** Decides on the live tally and, after a commit the server survives, starts new rounds. */
    method CommitLive(now: int) returns (ok: bool, ghost winner: string)
      requires Valid() && !exited
      modifies this, clients.Values, state, state.book
      ensures Live(old(Abs())) != map[] ==> IsWinner(Live(old(Abs())), winner)
      ensures ok == Wins(g, old(Abs()), winner)
      ensures !ok ==> Valid() && Abs() == old(Abs())
      ensures ok ==> exited == ExitsOn(old(Abs()).ledger, NextBlock(g, old(Abs())))
      ensures ok && !exited ==> Valid() && Abs() == Commit(g, old(Abs()), winner, now)
      ensures old(issued) <= issued
    {
      hide Valid, Abs, Executed, Renewed, Extended, ExitsOn, Packed, IsWinner, Wins;
      ok, winner := Decide(now);
      if ok && !exited {
        StartRounds();
      }
    }

    /** The locked part of an upload of a proposal block, for the tally `t` the request captured
        before: the live one or the `k`-th ever in use. It is the machine's step. */
    method AppendBlock(t: TallyMap, block: ProposalBlock, now: int, ghost k: nat)
      returns (failed: bool, committed: bool, ghost winner: string)
      requires Valid() && !exited && k < |issued| && issued[k] == t
      modifies this, t, clients.Values, state, state.book
      ensures Enabled(g, old(Abs()), Submit(k, block, winner, now))
      ensures exited == Step(g, old(Abs()), Submit(k, block, winner, now)).fatal
      ensures !exited ==> Valid() && Abs() == Step(g, old(Abs()), Submit(k, block, winner, now))
      ensures !exited ==> (committed <==> Commits(g, old(Abs()), Submit(k, block, winner, now)))
      ensures failed <==>
        && Total(AfterRecord(g, old(Abs()), k, block).tallies[k]) >= proposerNum
        && !Commits(g, old(Abs()), Submit(k, block, winner, now))
      ensures old(issued) <= issued
    {
      ghost var s := Abs();
      failed, committed, winner := false, false, "";
      var count := RecordUpload(t, block, k);
      if count >= proposerNum {
        var ok;
        ok, winner := CommitLive(now);
        failed, committed := !ok, ok && !exited;
      }
    }

    /** Appending relays keeps the start-up pools, and the relay pools of the other shards. */
    twostate lemma PoolsKept(s: int)
      requires old(PoolsReady(g, pools)) && s in g.members && pools.Shaped() && pools.OnlyCell(RELAY, s)
      ensures PoolsReady(g, pools)
      ensures RelayPools(g, pools) == old(RelayPools(g, pools))[s := pools.entries[RELAY][s]]
    {
      assert forall i :: i in g.members ==> old(Stocked(g, pools, i));
    }

    twostate lemma RoundsKept(s: int)
      requires old(ClientsReady(clients, shardNum)) && s in clients
      requires forall r :: r in clients && clients[r] != clients[s] ==> unchanged(clients[r])
      requires clients[s].newRootsVote.Keys == old(clients[s].newRootsVote.Keys)
      ensures ClientsReady(clients, shardNum)
      ensures RoundsOf(clients, shardNum) == old(RoundsOf(clients, shardNum))[s := clients[s].RoundOf(s)]
    {
    }

    /** An upload of a state root. */
    method CollectRoot(shard: int, root: string, txNum: int, suList: map<int, seq<SuperTransaction>>)
      requires Valid() && !exited && shard in clients
      modifies clients[shard], pools
      ensures Enabled(g, old(Abs()), Collect(shard, root, txNum, Pool(suList, shard))) && Valid()
      ensures Abs() == Step(g, old(Abs()), Collect(shard, root, txNum, Pool(suList, shard)))
      ensures var uploads := Pool(suList, shard);
        if Accepts(old(clients[shard].RoundOf(shard)), root, clientMax) then
          && old(pools.batches[RELAY][shard]) <= pools.batches[RELAY][shard]
          && FlushedBatches(pools.digest, Accounts.BookDirectory(state.book), Flush(Stored(uploads), pools.v).batches,
                            pools.batches[RELAY][shard], old(|pools.batches[RELAY][shard]|), shard)
        else pools.batches[RELAY][shard] == old(pools.batches[RELAY][shard])
    {
      hide RoundsOf, RelayPools, ClientsReady, PoolsReady, Accounts.State.Ledger, Accounts.State.Valid;
      hide Collected, Accepts, FlushedBatches;
      RoundIs(clients, shardNum, shard);
      RelayPoolIs(g, pools, shard);
      RootCollection.CollectRoot(clients[shard], pools, state, shard, root, txNum, suList, shardNum, clientMax);
      PoolsKept(shard);
      RoundsKept(shard);
    }
  }

  lemma RelayPoolIs(g: Genesis, pools: Pools.TransactionPools, s: int)
    requires PoolsReady(g, pools) && 1 <= s <= g.shards
    ensures s in g.members && pools.Shaped() && s <= pools.maxShard && pools.v > 0
    ensures RelayPools(g, pools).Keys == g.members.Keys && RelayPools(g, pools)[s] == pools.entries[RELAY][s]
  {
    assert Stocked(g, pools, s);
  }

  lemma RoundIs(clients: map<int, ShardStruct>, shardNum: nat, s: int)
    requires ClientsReady(clients, shardNum) && s in clients
    ensures 1 <= s <= shardNum && s in clients[s].newRootsVote
    ensures s in RoundsOf(clients, shardNum) && RoundsOf(clients, shardNum)[s] == clients[s].RoundOf(s)
  {
  }

  lemma RoundsAre(clients: map<int, ShardStruct>, shardNum: nat)
    requires ClientsReady(clients, shardNum)
    ensures forall s :: s in RoundsOf(clients, shardNum) <==> 1 <= s <= shardNum
  {
  }

  lemma NothingReset(before: seq<Tally>, rounds: map<int, Round>)
    ensures before + NewTallies(0) == before && Refreshed(rounds, 0) == rounds
  {
  }

  lemma OneTallyMore(before: seq<Tally>, i: nat)
    requires i >= 1
    ensures before + NewTallies(i - 1) + [map[]] == before + NewTallies(i)
  {
  }

  lemma OneRefreshed(rounds: map<int, Round>, i: nat)
    requires i >= 1
    ensures Refreshed(rounds, i) == Refreshed(rounds, i - 1)[i := FRESH]
  {
  }

  lemma NextHeight(rows: seq<BlockRow>, row: BlockRow)
    requires row.height == MaxHeight(rows) + 1
    ensures MaxHeight(rows + [row]) == MaxHeight(rows) + 1
  {
    assert (rows + [row])[..|rows|] == rows;
  }
}
