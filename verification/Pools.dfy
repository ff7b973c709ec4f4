/** The global transaction pools: filling them at start-up, appending to them, packing from them. */
module Pools {
  import opened Data
  import opened PoolSpec
  import opened Accounts
  import opened Footprint
  import opened Iteration
  import Windows

  method RandomIndex(n: nat) returns (r: nat)
    requires n > 0
    ensures r < n
  {
    r :| 0 <= r < n;
  }

  /** Two different random indices; the program draws the second again until it differs. */
  method GetTwoRand(n: nat) returns (r1: nat, r2: nat)
    requires n > 1
    ensures r1 < n && r2 < n && r1 != r2
  {
    r1 := RandomIndex(n);
    r2 :| 0 <= r2 < n && r2 != r1 by { assert (if r1 == 0 then 1 else 0) < n; }
  }

  /** A start-up entry of `shard`: one unit, between known addresses. */
  ghost predicate Generated(
    w: WitnessTrans, kind: int, shard: int, target: int, from: seq<string>, to: seq<string>)
  {
    && w.kind == kind && w.shard == shard && w.value == 1
    && w.from in from && w.to in to
    && (kind == INTERNAL ==> w.toShard == 0 && w.from != w.to)
    && (kind == CROSS ==> w.toShard == target)
  }

  method GenerateInterTrans(addressList: seq<string>, shard: int) returns (w: WitnessTrans)
    requires |addressList| > 1 && NoDuplicates(addressList)
    ensures Generated(w, INTERNAL, shard, 0, addressList, addressList)
  {
    var n1, n2 := GetTwoRand(|addressList|);
    w := WitnessTrans(shard, 0, addressList[n1], addressList[n2], 1, INTERNAL);
  }

  method GenerateCrossTrans(from: seq<string>, to: seq<string>, shard: int, target: int) returns (w: WitnessTrans)
    requires |from| > 0 && |to| > 0
    ensures Generated(w, CROSS, shard, target, from, to)
  {
    var n1 := RandomIndex(|from|);
    var n2 := RandomIndex(|to|);
    w := WitnessTrans(shard, target, from[n1], to[n2], 1, CROSS);
  }

  method Generate(kind: int, shard: int, target: int, from: seq<string>, to: seq<string>) returns (w: WitnessTrans)
    requires kind == INTERNAL || kind == CROSS
    requires |from| > 1 && NoDuplicates(from) && |to| > 0 && (kind == INTERNAL ==> to == from && target == 0)
    ensures Generated(w, kind, shard, target, from, to)
  {
    if kind == INTERNAL {
      w := GenerateInterTrans(from, shard);
    } else {
      w := GenerateCrossTrans(from, to, shard, target);
    }
  }

  /** One cell after `l` start-up entries: all generated for its shard, whole chunks batched, `count`
      entries not yet batched. */
  ghost predicate CellFilled(
    digest: seq<WitnessTrans> -> string, v: nat, directory: map<string, int>,
    pool: seq<WitnessTrans>, bs: seq<BatchTrans>,
    kind: int, shard: int, target: int, from: seq<string>, to: seq<string>, l: nat, count: nat)
  {
    && |pool| == l == |bs| * v + count
    && (forall w :: w in pool ==> Generated(w, kind, shard, target, from, to))
    && Batched(digest, directory, v, pool, bs, shard, kind)
  }

  /** `list` holds the entries that belong to no batch yet. */
  ghost predicate Open(list: seq<WitnessTrans>, pool: seq<WitnessTrans>, batches: nat, v: nat) {
    batches * v <= |pool| && list == pool[batches * v..]
  }

  lemma CellEntry(
    digest: seq<WitnessTrans> -> string, v: nat, directory: map<string, int>,
    pool: seq<WitnessTrans>, bs: seq<BatchTrans>,
    kind: int, shard: int, target: int, from: seq<string>, to: seq<string>, l: nat, count: nat,
    list: seq<WitnessTrans>, w: WitnessTrans)
    requires CellFilled(digest, v, directory, pool, bs, kind, shard, target, from, to, l, count)
    requires Open(list, pool, |bs|, v) && Generated(w, kind, shard, target, from, to)
    ensures CellFilled(digest, v, directory, pool + [w], bs, kind, shard, target, from, to, l + 1, count + 1)
    ensures Open(list + [w], pool + [w], |bs|, v)
  {
    hide Generated, Batched;
    BatchedEntry(digest, directory, v, pool, bs, shard, kind, w);
  }

  lemma CellFlush(
    digest: seq<WitnessTrans> -> string, v: nat, directory: map<string, int>,
    pool: seq<WitnessTrans>, bs: seq<BatchTrans>,
    kind: int, shard: int, target: int, from: seq<string>, to: seq<string>, l: nat, count: nat,
    list: seq<WitnessTrans>, w: WitnessTrans, b: BatchTrans)
    requires CellFilled(digest, v, directory, pool, bs, kind, shard, target, from, to, l, count)
    requires Open(list, pool, |bs|, v) && Generated(w, kind, shard, target, from, to)
    requires count + 1 == v && IsBatch(digest, directory, list + [w], b, shard, kind)
    ensures CellFilled(digest, v, directory, pool + [w], bs + [b], kind, shard, target, from, to, l + 1, 0)
    ensures Open([], pool + [w], |bs + [b]|, v)
  {
    hide Generated, Batched, IsBatch;
    assert (|bs| + 1) * v == |bs| * v + v;
    BatchedFlush(digest, directory, v, pool, bs, shard, kind, w, b);
  }

  class TransactionPools {
    var entries: seq<seq<seq<WitnessTrans>>>
    var batches: seq<seq<seq<BatchTrans>>>
    const digest: seq<WitnessTrans> -> string
    const v: nat
    const maxShard: nat

    /** The tables are indexed by kind (0..2) and by shard (0..maxShard). */
    ghost predicate Shaped()
      reads this
    {
      && |entries| == 3 && |batches| == 3
      && (forall kind :: 0 <= kind < 3 ==> |entries[kind]| == maxShard + 1)
      && (forall kind :: 0 <= kind < 3 ==> |batches[kind]| == maxShard + 1)
    }

    constructor (digest: seq<WitnessTrans> -> string, v: nat, maxShard: nat)
      ensures Shaped() && this.digest == digest && this.v == v && this.maxShard == maxShard
      ensures forall kind :: 0 <= kind < 3 ==> AllEmpty(kind, 0, maxShard)
    {
      this.digest, this.v, this.maxShard := digest, v, maxShard;
      entries := seq(3, kind => seq(maxShard + 1, s => []));
      batches := seq(3, kind => seq(maxShard + 1, s => []));
    }

    /** Nothing but one cell of the tables differs from an earlier state. */
    twostate predicate OnlyCell(kind: int, shard: int)
      requires old(Shaped()) && Shaped()
      reads this
    {
      forall k, s :: 0 <= k < 3 && 0 <= s <= maxShard && (k, s) != (kind, shard) ==>
        entries[k][s] == old(entries[k][s]) && batches[k][s] == old(batches[k][s])
    }

    method AppendWitnessTrans(w: WitnessTrans, kind: int, shard: int)
      requires Shaped() && 0 <= kind < 3 && 0 <= shard <= maxShard
      modifies this
      ensures Shaped() && OnlyCell(kind, shard)
      ensures entries[kind][shard] == old(entries[kind][shard]) + [w]
      ensures batches[kind][shard] == old(batches[kind][shard])
    {
      entries := entries[kind := entries[kind][shard := entries[kind][shard] + [w]]];
    }

    /** Appends the batch that declares `list`: its digest and the accounts it touches. */
    method AppendBatchTrans(list: seq<WitnessTrans>, shard: int, kind: int, state: State, shardNum: nat)
      requires Shaped() && 0 <= kind < 3 && 0 <= shard <= maxShard
      requires state.Valid() && state.HasShards(shardNum)
      modifies this
      ensures Shaped() && OnlyCell(kind, shard)
      ensures entries[kind][shard] == old(entries[kind][shard])
      ensures |batches[kind][shard]| == old(|batches[kind][shard]|) + 1
      ensures batches[kind][shard][..old(|batches[kind][shard]|)] == old(batches[kind][shard])
      ensures IsBatch(digest, BookDirectory(state.book), list,
                batches[kind][shard][old(|batches[kind][shard]|)], shard, kind)
      ensures var b := batches[kind][shard][old(|batches[kind][shard]|)];
        b.shard == shard && b.kind == kind && b.digest == digest(list)
    {
      var accounts := state.GetAccountList(shardNum);
      DirectoryOfRecords(state.book, accounts);
      var relatedAccounts := FindAccountIds(accounts, list);
      var b := BatchTrans(shard, digest(list), relatedAccounts, kind);
      batches := batches[kind := batches[kind][shard := batches[kind][shard] + [b]]];
    }

    ghost predicate Filled(
      kind: int, shard: int, target: int, from: seq<string>, to: seq<string>,
      directory: map<string, int>, l: nat, count: nat)
      requires Shaped() && 0 <= kind < 3 && 0 <= shard <= maxShard
      reads this
    {
      CellFilled(digest, v, directory, entries[kind][shard], batches[kind][shard],
                 kind, shard, target, from, to, l, count)
    }

    /** The loop over one shard. `count` and `translist` are carried from shard to shard. */
    method FillShard(
      kind: int, shard: int, target: int, l: nat, from: seq<string>, to: seq<string>,
      count0: nat, translist0: seq<WitnessTrans>, state: State, shardNum: nat, ghost m: nat)
      returns (count: nat, translist: seq<WitnessTrans>)
      requires Shaped() && (kind == INTERNAL || kind == CROSS) && 0 <= shard <= maxShard
      requires entries[kind][shard] == [] && batches[kind][shard] == []
      requires state.Valid() && state.HasShards(shardNum)
      requires |from| > 1 && NoDuplicates(from) && |to| > 0 && (kind == INTERNAL ==> to == from && target == 0)
      requires v > 0 && l == m * v && count0 == 0 && translist0 == []
      modifies this
      ensures Shaped() && OnlyCell(kind, shard)
      ensures Filled(kind, shard, target, from, to, BookDirectory(state.book), l, 0)
      ensures |batches[kind][shard]| == m
      ensures count == 0 && translist == []
    {
      count, translist := count0, translist0;
      ghost var directory := BookDirectory(state.book);
      for j := 0 to l
        invariant Shaped() && OnlyCell(kind, shard)
        invariant state.Valid() && state.HasShards(shardNum)
        invariant count < v
        invariant Filled(kind, shard, target, from, to, directory, j, count)
        invariant Open(translist, entries[kind][shard], |batches[kind][shard]|, v)
      {
        count, translist := FillOne(kind, shard, target, from, to, count, translist, state, shardNum, j);
      }
      WholeChunks(|batches[kind][shard]|, count, m, v);
    }

    /** One round of the loop: draw an entry, flush a full batch, append the entry. */
    method FillOne(
      kind: int, shard: int, target: int, from: seq<string>, to: seq<string>,
      count0: nat, translist0: seq<WitnessTrans>, state: State, shardNum: nat, ghost j: nat)
      returns (count: nat, translist: seq<WitnessTrans>)
      requires Shaped() && (kind == INTERNAL || kind == CROSS) && 0 <= shard <= maxShard
      requires state.Valid() && state.HasShards(shardNum)
      requires |from| > 1 && NoDuplicates(from) && |to| > 0 && (kind == INTERNAL ==> to == from && target == 0)
      requires count0 < v
      requires Filled(kind, shard, target, from, to, BookDirectory(state.book), j, count0)
      requires Open(translist0, entries[kind][shard], |batches[kind][shard]|, v)
      modifies this
      ensures Shaped() && OnlyCell(kind, shard)
      ensures count < v
      ensures Filled(kind, shard, target, from, to, BookDirectory(state.book), j + 1, count)
      ensures Open(translist, entries[kind][shard], |batches[kind][shard]|, v)
    {
      hide CellFilled, Open, Generated, IsBatch, NoDuplicates, State.Valid, State.HasShards;
      ghost var pool, bs, directory := entries[kind][shard], batches[kind][shard], BookDirectory(state.book);
      var w := Generate(kind, shard, target, from, to);
      count := count0 + 1;
      translist := translist0 + [w];
      if count == v {
        AppendBatchTrans(translist, shard, kind, state, shardNum);
        ghost var b := batches[kind][shard][|bs|];
        assert batches[kind][shard] == bs + [b];
        CellFlush(digest, v, directory, pool, bs, kind, shard, target, from, to, j, count0, translist0, w, b);
        count := 0;
        translist := [];
      } else {
        CellEntry(digest, v, directory, pool, bs, kind, shard, target, from, to, j, count0, translist0, w);
      }
      AppendWitnessTrans(w, kind, shard);
    }

    /** The pools of a shard as start-up leaves them; a single shard gets no cross-shard pool. */
    ghost predicate ShardReady(
      s: int, shardNum: nat, addressLists: map<int, seq<string>>, directory: map<string, int>, l: nat, m: nat)
      requires Shaped() && 1 <= s <= shardNum <= maxShard
      requires forall s :: 1 <= s <= shardNum ==> s in addressLists
      reads this
    {
      && InternalReady(s, addressLists[s], directory, l, m)
      && (if shardNum == 1 then entries[CROSS][s] == [] && batches[CROSS][s] == []
          else CrossReady(s, Target(s, shardNum), addressLists[s], addressLists[Target(s, shardNum)], directory, l, m))
      && entries[RELAY][s] == [] && batches[RELAY][s] == []
    }

    ghost predicate InternalReady(s: int, list: seq<string>, directory: map<string, int>, l: nat, m: nat)
      requires Shaped() && 0 <= s <= maxShard
      reads this
    {
      |batches[INTERNAL][s]| == m && Filled(INTERNAL, s, 0, list, list, directory, l, 0)
    }

    ghost predicate CrossReady(
      s: int, target: int, from: seq<string>, to: seq<string>, directory: map<string, int>, l: nat, m: nat)
      requires Shaped() && 0 <= s <= maxShard
      reads this
    {
      |batches[CROSS][s]| == m && Filled(CROSS, s, target, from, to, directory, l, 0)
    }

    ghost predicate AllEmpty(kind: int, lo: int, hi: int)
      requires Shaped() && 0 <= kind < 3 && 0 <= lo && hi <= maxShard
      reads this
    {
      forall s :: lo <= s <= hi ==> entries[kind][s] == [] && batches[kind][s] == []
    }

    /** Fills every shard's internal pool, then every shard's cross-shard pool towards the next
        shard (the last one towards shard 1). */
    method InitializeTransactions(
      tranNum: nat, shardNum: nat, addressLists: map<int, seq<string>>, state: State, ghost l: nat, ghost m: nat)
      requires Shaped() && 1 <= shardNum <= maxShard
      requires AllEmpty(INTERNAL, 1, shardNum) && AllEmpty(CROSS, 1, shardNum) && AllEmpty(RELAY, 1, shardNum)
      requires state.Valid() && state.HasShards(shardNum)
      requires forall s :: 1 <= s <= shardNum ==> s in addressLists
      requires forall s :: 1 <= s <= shardNum ==> |addressLists[s]| > 1 && NoDuplicates(addressLists[s])
      requires v > 0 && tranNum == l * shardNum && l == m * v
      modifies this
      ensures Shaped()
      ensures forall s :: 1 <= s <= shardNum ==>
        ShardReady(s, shardNum, addressLists, BookDirectory(state.book), l, m)
    {
      Windows.ModUnique(l, 0, shardNum);
      var perShard := tranNum / shardNum;
      FillInternals(perShard, shardNum, addressLists, state, m);
      if shardNum > 1 {
        FillCrosses(perShard, shardNum, addressLists, state, m);
      }
    }

    method FillInternals(
      l: nat, shardNum: nat, addressLists: map<int, seq<string>>, state: State, ghost m: nat)
      requires Shaped() && 1 <= shardNum <= maxShard
      requires AllEmpty(INTERNAL, 1, shardNum)
      requires state.Valid() && state.HasShards(shardNum)
      requires forall s :: 1 <= s <= shardNum ==> s in addressLists
      requires forall s :: 1 <= s <= shardNum ==> |addressLists[s]| > 1 && NoDuplicates(addressLists[s])
      requires v > 0 && l == m * v
      modifies this
      ensures Shaped() && KindsKept(CROSS, RELAY)
      ensures forall s :: 1 <= s <= shardNum ==> InternalReady(s, addressLists[s], BookDirectory(state.book), l, m)
    {
      var count, translist := 0, [];
      for i := 1 to shardNum + 1
        invariant Shaped() && count == 0 && translist == []
        invariant forall s :: 1 <= s < i ==> InternalReady(s, addressLists[s], BookDirectory(state.book), l, m)
        invariant AllEmpty(INTERNAL, i, shardNum)
        invariant KindsKept(CROSS, RELAY)
      {
        count, translist := FillShard(INTERNAL, i, 0, l, addressLists[i], addressLists[i],
                                      count, translist, state, shardNum, m);
      }
    }

    method FillCrosses(
      l: nat, shardNum: nat, addressLists: map<int, seq<string>>, state: State, ghost m: nat)
      requires Shaped() && 1 <= shardNum <= maxShard
      requires AllEmpty(CROSS, 1, shardNum)
      requires state.Valid() && state.HasShards(shardNum)
      requires forall s :: 1 <= s <= shardNum ==> s in addressLists
      requires forall s :: 1 <= s <= shardNum ==> |addressLists[s]| > 1 && NoDuplicates(addressLists[s])
      requires v > 0 && l == m * v
      modifies this
      ensures Shaped() && KindsKept(INTERNAL, RELAY)
      ensures forall s :: 1 <= s <= shardNum ==>
        CrossReady(s, Target(s, shardNum), addressLists[s], addressLists[Target(s, shardNum)], BookDirectory(state.book), l, m)
    {
      var count, translist := 0, [];
      for i := 1 to shardNum + 1
        invariant Shaped() && count == 0 && translist == []
        invariant forall s :: 1 <= s < i ==>
          CrossReady(s, Target(s, shardNum), addressLists[s], addressLists[Target(s, shardNum)], BookDirectory(state.book), l, m)
        invariant AllEmpty(CROSS, i, shardNum)
        invariant KindsKept(INTERNAL, RELAY)
      {
        var target := i + 1;
        if i == shardNum { target := 1; }
        count, translist := FillShard(CROSS, i, target, l, addressLists[i], addressLists[target],
                                      count, translist, state, shardNum, m);
      }
    }

    twostate predicate KindsKept(kind1: int, kind2: int)
      requires old(Shaped()) && Shaped() && 0 <= kind1 < 3 && 0 <= kind2 < 3
      reads this
    {
      forall s :: 0 <= s <= maxShard ==>
        && entries[kind1][s] == old(entries[kind1][s]) && batches[kind1][s] == old(batches[kind1][s])
        && entries[kind2][s] == old(entries[kind2][s]) && batches[kind2][s] == old(batches[kind2][s])
    }

    /** The slices of the packing functions lie inside the pools of `shard`. */
    ghost predicate Packable(shard: int, m: nat)
      requires Shaped() && 0 <= shard <= maxShard
      reads this
    {
      && v > 0 && m > 0
      && |entries[INTERNAL][shard]| == |entries[CROSS][shard]| == m * v
      && |batches[INTERNAL][shard]| == |batches[CROSS][shard]| == m
    }

    method PackBatchTrans(height: nat, shard: int, ghost m: nat)
      returns (internal: seq<BatchTrans>, cross: seq<BatchTrans>, relay: seq<BatchTrans>)
      requires Shaped() && 0 <= shard <= maxShard && Packable(shard, m)
      ensures internal == Window(batches[INTERNAL][shard], height, 1) == [batches[INTERNAL][shard][height % m]]
      ensures cross == Window(batches[CROSS][shard], height, 1) == [batches[CROSS][shard][height % m]]
      ensures relay ==
        if batches[RELAY][shard] == [] then [] else [batches[RELAY][shard][|batches[RELAY][shard]| - 1]]
    {
      WindowIsChunk(batches[INTERNAL][shard], m, height, 1);
      WindowIsChunk(batches[CROSS][shard], m, height, 1);
      var len := |batches[INTERNAL][shard]|;
      var start, end := Windows.Start(height, 1, len), Windows.End(height, 1, len);
      var sliceLength := |batches[RELAY][shard]|;
      relay := [];
      if sliceLength >= 1 { relay := batches[RELAY][shard][sliceLength - 1..sliceLength]; }
      internal, cross := batches[INTERNAL][shard][start..end], batches[CROSS][shard][start..end];
    }

    method PackValidateTrans(height: nat, shard: int, ghost m: nat)
      returns (internal: seq<InternalTransaction>, cross: seq<CrossShardTransaction>, relay: seq<SuperTransaction>,
               num1: nat, num2: nat, num3: nat)
      requires Shaped() && 0 <= shard <= maxShard && Packable(shard, m)
      ensures m * v > 0
      ensures AllSameInternal(Chunk(entries[INTERNAL][shard], height % m, v), internal)
      ensures AllSameCross(Chunk(entries[CROSS][shard], height % m, v), cross)
      ensures AllSameRelay(
        if |entries[RELAY][shard]| >= v then entries[RELAY][shard][|entries[RELAY][shard]| - v..] else [], relay)
      ensures internal == Internals(Window(entries[INTERNAL][shard], height, v)) && |internal| == num1 == v
      ensures cross == Crosses(Window(entries[CROSS][shard], height, v)) && |cross| == num2 == v
      ensures relay == Supers(LastEntries(entries[RELAY][shard], v)) && |relay| == num3
    {
      hide Window, Chunk, Internals, Crosses, Supers, AllSameInternal, AllSameCross, AllSameRelay;
      var len := |entries[INTERNAL][shard]|;
      var interWT := CutWindow(entries[INTERNAL][shard], len, height, v, m);
      var crossWT := CutWindow(entries[CROSS][shard], len, height, v, m);
      var sliceLength := |entries[RELAY][shard]|;
      var superWT: seq<WitnessTrans> := [];
      if sliceLength >= v { superWT := entries[RELAY][shard][sliceLength - v..sliceLength]; }
      assert superWT == LastEntries(entries[RELAY][shard], v);
      internal := ConvertInternals(interWT);
      cross := ConvertCrosses(crossWT);
      relay := ConvertSupers(superWT);
      num1, num2, num3 := |interWT|, |crossWT|, |superWT|;
    }
  }

  /** The slice of one pool at a height; `len` is the length of the shard's internal pool, which bounds
      the slices of both. */
  method CutWindow(pool: seq<WitnessTrans>, len: nat, height: nat, v: nat, ghost m: nat)
    returns (window: seq<WitnessTrans>)
    requires v > 0 && m > 0 && |pool| == len == m * v
    ensures m * v > 0 && |window| == v
    ensures window == Window(pool, height, v) == Chunk(pool, height % m, v)
  {
    hide Chunk, Windows.Start, Windows.End;
    WindowIsChunk(pool, m, height, v);
    var start, end := Windows.Start(height, v, len), Windows.End(height, v, len);
    window := pool[start..end];
  }

  method ConvertInternals(ws: seq<WitnessTrans>) returns (list: seq<InternalTransaction>)
    ensures |list| == |ws| && list == Internals(ws) && AllSameInternal(ws, list)
  {
    list := [];
    for i := 0 to |ws|
      invariant list == Internals(ws[..i])
    {
      list := list + [InternalTransaction(ws[i].shard, ws[i].from, ws[i].to, ws[i].value)];
    }
    assert ws[..|ws|] == ws;
  }

  method ConvertCrosses(ws: seq<WitnessTrans>) returns (list: seq<CrossShardTransaction>)
    ensures |list| == |ws| && list == Crosses(ws) && AllSameCross(ws, list)
  {
    list := [];
    for i := 0 to |ws|
      invariant list == Crosses(ws[..i])
    {
      list := list + [CrossShardTransaction(ws[i].shard, ws[i].toShard, ws[i].from, ws[i].to, ws[i].value)];
    }
    assert ws[..|ws|] == ws;
  }

  method ConvertSupers(ws: seq<WitnessTrans>) returns (list: seq<SuperTransaction>)
    ensures |list| == |ws| && list == Supers(ws) && AllSameRelay(ws, list)
  {
    list := [];
    for i := 0 to |ws|
      invariant list == Supers(ws[..i])
    {
      list := list + [SuperTransaction(ws[i].shard, ws[i].toShard, ws[i].from, ws[i].to, ws[i].value)];
    }
    assert ws[..|ws|] == ws;
  }

  /** The shard that receives the cross-shard transactions of shard `s`. */
  function Target(s: int, shardNum: int): int {
    if s == shardNum then 1 else s + 1
  }

  lemma WholeChunks(n: nat, count: nat, m: nat, v: nat)
    requires count < v && n * v + count == m * v
    ensures n == m && count == 0
  {
    Windows.ModUnique(n, count, v);
    assert m * v == m * v + 0;
    Windows.ModUnique(m, 0, v);
  }
}
