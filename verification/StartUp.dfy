/** Start-up (InitController): the accounts, the address lists, the pools and the controller, and why
    what start-up builds meets the assumptions of the run theorems. */
module StartUp {
  import opened Data
  import opened Iteration
  import opened BlockExecution
  import opened PoolSpec
  import opened Rounds
  import opened RootCollection
  import opened Server
  import opened ServerLedger
  import opened ServerSchedule
  import opened Controllers
  import Accounts
  import Pools

  /** What the created objects fix for the rest of the run. */
  ghost function GenesisOf(
    state: Accounts.State, pools: Pools.TransactionPools, shardNum: nat, proposerNum: nat, clientMax: nat,
    m: nat, keyOf: ProposalBlock -> string, txRoot: seq<int> -> string): Genesis
    requires pools.Shaped() && state.HasShards(shardNum) && shardNum <= pools.maxShard
    reads state, pools
  {
    Genesis(
      shardNum, proposerNum, clientMax, pools.v, m,
      map s | s in state.accountMap :: pools.entries[INTERNAL][s],
      map s | s in state.accountMap :: pools.entries[CROSS][s],
      map s | s in state.accountMap :: pools.batches[INTERNAL][s],
      map s | s in state.accountMap :: pools.batches[CROSS][s],
      state.Members(), Accounts.BookDirectory(state.book), keyOf, txRoot, pools.digest)
  }

  /** `lists` holds the addresses of every shard, at least two each. */
  ghost predicate Addresses(state: Accounts.State, shardNum: nat, lists: map<int, seq<string>>)
    reads state
  {
    forall s :: 1 <= s <= shardNum ==>
      && s in lists && |lists[s]| > 1 && NoDuplicates(lists[s])
      && forall a :: a in lists[s] <==> state.Has(s, a)
  }

  lemma {:induction false} BlocksOrdered(s: int, t: int, n: nat)
    requires 1 <= s < t
    ensures Accounts.FirstId(s, n) + n <= Accounts.FirstId(t, n)
  {
    if s < t - 1 { BlocksOrdered(s, t - 1, n); }
  }

  /** The blocks of ids are disjoint. */
  lemma OwnerUnique(s: int, t: int, k: int, n: nat)
    requires Accounts.Owns(s, k, n) && Accounts.Owns(t, k, n)
    ensures s == t
  {
    if s < t { BlocksOrdered(s, t, n); }
    if t < s { BlocksOrdered(t, s, n); }
  }

  /** An account of shard `s`, by its place in the shard's block of ids. */
  lemma AccountAt(state: Accounts.State, s: int, n: nat, shardNum: nat, i: nat)
    requires state.Valid() && 1 <= s <= shardNum && i < n && |state.book| == shardNum * n
    requires forall k :: 0 <= k < |state.book| ==> Accounts.Owns(state.book[k].shard, k, n)
    ensures var k := Accounts.FirstId(s, n) + i;
      k < |state.book| && state.book[k].shard == s && state.Has(s, state.book[k].address)
  {
    hide Accounts.FirstId;
    Accounts.BlockFits(s, shardNum, n);
    var k := Accounts.FirstId(s, n) + i;
    OwnerUnique(state.book[k].shard, s, k, n);
  }

  lemma DifferentAddresses(state: Accounts.State, j: nat, k: nat)
    requires state.DistinctAddresses() && j < k < |state.book|
    ensures state.book[j].address != state.book[k].address
  {
  }

  /** A shard with two accounts or more lists two addresses or more. */
  lemma TwoAddresses(state: Accounts.State, s: int, n: nat, shardNum: nat, list: seq<string>)
    requires state.Valid() && state.DistinctAddresses() && 1 <= s <= shardNum
    requires n >= 2 && |state.book| == shardNum * n
    requires forall k :: 0 <= k < |state.book| ==> Accounts.Owns(state.book[k].shard, k, n)
    requires forall a :: a in list <==> state.Has(s, a)
    ensures |list| > 1
  {
    hide *;
    AccountAt(state, s, n, shardNum, 0);
    AccountAt(state, s, n, shardNum, 1);
    var k := Accounts.FirstId(s, n);
    DifferentAddresses(state, k, k + 1);
    assert state.book[k].address in list && state.book[k + 1].address in list;
  }

  method ListAddresses(state: Accounts.State, shardNum: nat, n: nat) returns (lists: map<int, seq<string>>)
    requires state.Valid() && state.HasShards(shardNum) && state.DistinctAddresses()
    requires n >= 2 && |state.book| == shardNum * n
    requires forall k :: 0 <= k < |state.book| ==> Accounts.Owns(state.book[k].shard, k, n)
    ensures Addresses(state, shardNum, lists)
  {
    hide Accounts.State.Valid, Accounts.Owns;
    lists := map[];
    for i := 1 to shardNum + 1
      invariant Addresses(state, i - 1, lists)
    {
      var list := state.GetAddressList(i);
      TwoAddresses(state, i, n, shardNum, list);
      lists := lists[i := list];
    }
  }

  method NewClients(shardNum: nat) returns (clients: map<int, ShardStruct>)
    ensures ClientsReady(clients, shardNum) && forall s :: s in clients ==> fresh(clients[s])
    ensures RoundsOf(clients, shardNum) == FreshRounds(shardNum)
  {
    clients := map[];
    for i := 1 to shardNum + 1
      invariant ClientsReady(clients, i - 1) && forall s :: s in clients ==> fresh(clients[s])
      invariant forall s :: s in clients ==> forall j :: 1 <= j <= shardNum ==> j in clients[s].newRootsVote
      invariant forall s :: s in clients && s in clients[s].newRootsVote ==> clients[s].RoundOf(s) == FRESH
    {
      var c := new ShardStruct(shardNum);
      clients := clients[i := c];
    }
    assert RoundsOf(clients, shardNum) == FreshRounds(shardNum);
  }

  ghost predicate FixedBy(
    g: Genesis, state: Accounts.State, pools: Pools.TransactionPools, shardNum: nat, l: nat)
    reads state, pools
  {
    && state.Valid() && state.HasShards(shardNum) && pools.Shaped() && 2 <= shardNum <= pools.maxShard
    && pools.v > 0 && g.m > 0 && l == g.m * pools.v
    && g == GenesisOf(state, pools, shardNum, g.proposers, g.clientMax, g.m, g.keyOf, g.txRoot)
  }

  /** Generated entries name accounts of their shard. */
  lemma EntriesStarted(
    state: Accounts.State, pools: Pools.TransactionPools, shardNum: nat, lists: map<int, seq<string>>,
    g: Genesis, l: nat, s: int)
    requires FixedBy(g, state, pools, shardNum, l) && s in g.members
    requires Addresses(state, shardNum, lists)
    requires pools.ShardReady(s, shardNum, lists, g.directory, l, g.m)
    ensures EntriesReady(g, s)
  {
    hide Accounts.State.Valid, Batched;
    var t := Pools.Target(s, shardNum);
    assert g.members[s] == state.accountMap[s].Keys && g.members[t] == state.accountMap[t].Keys;
    assert forall w :: w in pools.entries[INTERNAL][s] ==>
        Pools.Generated(w, INTERNAL, s, 0, lists[s], lists[s]) && PoolEntry(g, s, INTERNAL, w);
    assert forall w :: w in pools.entries[CROSS][s] ==>
        Pools.Generated(w, CROSS, s, t, lists[s], lists[t]) && PoolEntry(g, s, CROSS, w);
  }

  /** Every batch digests its chunk of the pool. */
  lemma BatchesStarted(
    state: Accounts.State, pools: Pools.TransactionPools, shardNum: nat, lists: map<int, seq<string>>,
    g: Genesis, l: nat, s: int)
    requires FixedBy(g, state, pools, shardNum, l) && s in g.members
    requires Addresses(state, shardNum, lists)
    requires pools.ShardReady(s, shardNum, lists, g.directory, l, g.m)
    ensures Stocked(g, pools, s) && BatchesReady(g, s) && pools.entries[RELAY][s] == []
  {
    hide Accounts.State.Valid, Batched, Pools.Generated;
  }

  lemma PoolsStarted(
    state: Accounts.State, pools: Pools.TransactionPools, shardNum: nat, lists: map<int, seq<string>>,
    g: Genesis, l: nat)
    requires FixedBy(g, state, pools, shardNum, l) && Addresses(state, shardNum, lists)
    requires forall s :: 1 <= s <= shardNum ==> pools.ShardReady(s, shardNum, lists, g.directory, l, g.m)
    ensures PoolsReady(g, pools) && AllReady(g) && forall s :: 1 <= s <= shardNum ==> BatchesReady(g, s)
    ensures RelayPools(g, pools) == Initial(g).relays
  {
    hide EntriesReady, BatchesReady, Stocked, Addresses;
    forall s | s in g.members
      ensures Stocked(g, pools, s) && EntriesReady(g, s) && BatchesReady(g, s) && pools.entries[RELAY][s] == []
    {
      EntriesStarted(state, pools, shardNum, lists, g, l, s);
      BatchesStarted(state, pools, shardNum, lists, g, l, s);
    }
  }

  lemma LedgerStarted(state: Accounts.State, addressList: seq<string>)
    requires state.Valid()
    requires forall k :: 0 <= k < |state.book| ==> Accounts.Placed(state.book[k], k, addressList)
    ensures state.Ledger() == InitialLedger(state.Members())
  {
    forall s, a | state.Has(s, a) ensures state.accountMap[s][a].value == INITIAL_BALANCE {
      assert Accounts.Placed(state.book[state.accountMap[s][a].id], state.accountMap[s][a].id, addressList);
    }
    assert forall s :: s in state.accountMap ==> state.Ledger()[s] == InitialLedger(state.Members())[s];
  }

  method InitState(shardNum: nat, n: nat, addressList: seq<string>)
    returns (state: Accounts.State, lists: map<int, seq<string>>)
    requires n >= 2 && |addressList| >= n * shardNum && NoDuplicates(addressList)
    ensures fresh(state) && fresh(state.book) && state.Valid() && state.DistinctAddresses() && state.HasShards(shardNum)
    ensures |state.book| == shardNum * n
    ensures state.Ledger() == InitialLedger(state.Members())
    ensures Addresses(state, shardNum, lists)
  {
    state := new Accounts.State();
    state.InitAccountList(shardNum, n, addressList);
    lists := ListAddresses(state, shardNum, n);
    LedgerStarted(state, addressList);
  }

  method InitPools(
    digest: seq<WitnessTrans> -> string, v: nat, maxShard: nat, shardNum: nat, lists: map<int, seq<string>>,
    state: Accounts.State, txNum: nat, ghost m: nat)
    returns (pools: Pools.TransactionPools)
    requires 2 <= shardNum <= maxShard && v > 0 && txNum == m * v
    requires state.Valid() && state.HasShards(shardNum) && Addresses(state, shardNum, lists)
    ensures fresh(pools) && pools.Shaped() && pools.v == v && pools.maxShard == maxShard && pools.digest == digest
    ensures forall s :: 1 <= s <= shardNum ==>
      pools.ShardReady(s, shardNum, lists, Accounts.BookDirectory(state.book), txNum, m)
  {
    pools := new Pools.TransactionPools(digest, v, maxShard);
    assert pools.AllEmpty(INTERNAL, 0, maxShard) && pools.AllEmpty(CROSS, 0, maxShard) && pools.AllEmpty(RELAY, 0, maxShard);
    pools.InitializeTransactions(txNum * shardNum, shardNum, lists, state, txNum, m);
  }

  lemma GenesisFields(
    state: Accounts.State, pools: Pools.TransactionPools, shardNum: nat, proposerNum: nat, clientMax: nat,
    m: nat, keyOf: ProposalBlock -> string, txRoot: seq<int> -> string)
    requires pools.Shaped() && state.HasShards(shardNum) && shardNum <= pools.maxShard
    ensures var g := GenesisOf(state, pools, shardNum, proposerNum, clientMax, m, keyOf, txRoot);
      && g.shards == shardNum && g.proposers == proposerNum && g.clientMax == clientMax
      && g.v == pools.v && g.m == m && g.keyOf == keyOf && g.txRoot == txRoot && g.digest == pools.digest
      && g.members == state.Members() && g.directory == Accounts.BookDirectory(state.book)
  {
  }

  lemma Divided(n: nat, v: nat)
    requires n > 0 && v > 0 && n % v == 0
    ensures n / v > 0 && n == n / v * v
  {
  }

  lemma IsFixed(state: Accounts.State, pools: Pools.TransactionPools, shardNum: nat, g: Genesis, l: nat)
    requires state.Valid() && state.HasShards(shardNum) && pools.Shaped() && 2 <= shardNum <= pools.maxShard
    requires pools.v > 0 && g.m > 0 && l == g.m * pools.v
    requires g == GenesisOf(state, pools, shardNum, g.proposers, g.clientMax, g.m, g.keyOf, g.txRoot)
    ensures FixedBy(g, state, pools, shardNum, l)
  {
  }

  lemma IsConfigured(c: Controller)
    requires c.g.shards == c.shardNum && c.g.proposers == c.proposerNum && c.g.clientMax == c.clientMax
    requires c.g.keyOf == c.keyOf && c.g.txRoot == c.txRoot && c.g.members == c.state.Members()
    requires c.state.Valid() && c.state.HasShards(c.shardNum)
    ensures c.ConfigValid()
  {
  }

  /** A new controller over started objects is in the initial state. */
  lemma ControllerStarts(c: Controller)
    requires c.issued == [c.leaderProblocks] && c.leaderProblocks.entries == map[]
    requires c.chain == [] && c.rows == [] && c.totalTxNum == 0 && !c.exited
    requires c.ConfigValid() && ClientsReady(c.clients, c.shardNum) && PoolsReady(c.g, c.pools)
    requires RoundsOf(c.clients, c.shardNum) == FreshRounds(c.shardNum)
    requires RelayPools(c.g, c.pools) == Initial(c.g).relays
    requires c.state.Ledger() == InitialLedger(c.state.Members())
    ensures c.Valid() && c.Abs() == Initial(c.g)
  {
    hide PoolsReady, RelayPools, RoundsOf, ClientsReady, FreshRounds, InitialLedger;
    hide Accounts.State.Valid, Accounts.State.Ledger;
    assert TalliesOf(c.issued) == [map[]];
  }

  /** Start-up ends in the initial state of the machine, with pools that meet every assumption of
      the run theorems. */
  method InitController(
    shardNum: nat, accountNum: nat, addressList: seq<string>, proposerNum: nat, clientMax: nat,
    v: nat, txNum: nat, maxShard: nat, keyOf: ProposalBlock -> string, txRoot: seq<int> -> string,
    digest: seq<WitnessTrans> -> string)
    returns (c: Controller)
    requires 2 <= shardNum <= maxShard && accountNum >= 2
    requires |addressList| >= accountNum * shardNum && NoDuplicates(addressList)
    requires v > 0 && txNum > 0 && txNum % v == 0
    ensures c.Valid() && c.Abs() == Initial(c.g) && !c.exited
    ensures c.g.shards == shardNum && c.g.proposers == proposerNum && c.g.clientMax == clientMax
    ensures c.g.v == v && c.g.m * v == txNum
    ensures c.g.keyOf == keyOf && c.g.txRoot == txRoot && c.g.digest == digest
    ensures c.state.DistinctAddresses() && c.g.directory == Accounts.BookDirectory(c.state.book)
    ensures AllReady(c.g) && forall s :: 1 <= s <= shardNum ==> BatchesReady(c.g, s)
  {
    hide *;
    ghost var m := txNum / v;
    Divided(txNum, v);
    var state, lists := InitState(shardNum, accountNum, addressList);
    var pools := InitPools(digest, v, maxShard, shardNum, lists, state, txNum, m);
    var clients := NewClients(shardNum);
    ghost var g := GenesisOf(state, pools, shardNum, proposerNum, clientMax, m, keyOf, txRoot);
    GenesisFields(state, pools, shardNum, proposerNum, clientMax, m, keyOf, txRoot);
    c := new Controller(g, shardNum, proposerNum, clientMax, keyOf, txRoot, state, pools, clients);
    IsFixed(state, pools, shardNum, g, txNum);
    PoolsStarted(state, pools, shardNum, lists, g, txNum);
    IsConfigured(c);
    ControllerStarts(c);
  }
}
