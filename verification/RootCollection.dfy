/** Collecting the state roots of the shards (CollectRoot) and counting them at a commit
    (VerifyGSRoot). */
module RootCollection {
  import opened Data
  import opened Iteration
  import opened PoolSpec
  import opened Rounds
  import opened Accounts
  import opened Pools
  import Windows

  /** The per-shard state that uploads and commits update in place. */
  class ShardStruct {
    var newRootsVote: map<int, map<string, nat>>
    var txNum: int
    var validEnd: bool

    /** The round of `shard`, the shard this object belongs to. */
    ghost function RoundOf(shard: int): Round
      reads this
      requires shard in newRootsVote
    {
      Round(newRootsVote[shard], txNum, validEnd)
    }

    constructor (shardNum: nat)
      ensures forall i :: 1 <= i <= shardNum ==> i in newRootsVote && RoundOf(i) == FRESH
    {
      newRootsVote, txNum, validEnd := map[], 0, false;
      new;
      ClearVotes(shardNum);
    }

    method ClearVotes(shardNum: nat)
      modifies this`newRootsVote
      ensures forall i :: 1 <= i <= shardNum ==> i in newRootsVote && newRootsVote[i] == map[]
    {
      newRootsVote := map[];
      for j := 1 to shardNum + 1
        invariant forall i :: 1 <= i < j ==> i in newRootsVote && newRootsVote[i] == map[]
      {
        newRootsVote := newRootsVote[j := map[]];
      }
    }

    /** The reset of one shard after a commit. */
    method Reset(shardNum: nat)
      modifies this
      ensures forall i :: 1 <= i <= shardNum ==> i in newRootsVote && RoundOf(i) == FRESH
    {
      txNum := 0;
      ClearVotes(shardNum);
      validEnd := false;
    }
  }

  /** Whether some root has reached `minVote`; the votes are visited in an unknown order. */
  method AnyQuorum(votes: map<string, nat>, minVote: nat) returns (flag: bool)
    ensures flag <==> exists root :: root in votes && votes[root] >= minVote
  {
    flag := false;
    var rest := votes.Keys;
    while rest != {}
      invariant rest <= votes.Keys
      invariant flag <==> exists root :: root in votes && root !in rest && votes[root] >= minVote
    {
      var root := Pick(rest);
      if votes[root] >= minVote { flag := true; }
      rest := rest - {root};
    }
  }

  datatype Flushes = Flushes(batches: seq<seq<WitnessTrans>>, open: seq<WitnessTrans>)

  /** The relay batching loop: an entry whose index is a multiple of `v` closes the batch. */
  function Flush(ws: seq<WitnessTrans>, v: nat): Flushes
    requires v > 0
  {
    if ws == [] then Flushes([], [])
    else
      var f := Flush(ws[..|ws| - 1], v);
      var open := f.open + [ws[|ws| - 1]];
      if (|ws| - 1) % v == 0 then Flushes(f.batches + [open], []) else Flushes(f.batches, open)
  }

  function Flatten<T>(batches: seq<seq<T>>): seq<T> {
    if batches == [] then [] else Flatten(batches[..|batches| - 1]) + batches[|batches| - 1]
  }

  lemma NothingFlushed(v: nat)
    requires v > 0
    ensures Flush([], v) == Flushes([], []) && Flatten<WitnessTrans>([]) == []
  {
  }

  lemma FlushNext(init: seq<WitnessTrans>, last: WitnessTrans, v: nat)
    requires v > 0
    ensures var f := Flush(init, v);
      Flush(init + [last], v) ==
        if |init| % v == 0 then Flushes(f.batches + [f.open + [last]], []) else Flushes(f.batches, f.open + [last])
  {
    assert (init + [last])[..|init|] == init;
  }

  lemma {:induction false} FlushPartition(ws: seq<WitnessTrans>, v: nat)
    requires v > 0
    ensures Flatten(Flush(ws, v).batches) + Flush(ws, v).open == ws
  {
    hide *;
    NothingFlushed(v);
    if ws != [] {
      var init, last := ws[..|ws| - 1], ws[|ws| - 1];
      var f := Flush(init, v);
      assert ws == init + [last];
      FlushPartition(init, v);
      FlushNext(init, last, v);
      FlattenOne(f.batches, f.open + [last]);
      assert Flatten(f.batches) + (f.open + [last]) == init + [last];
    }
  }

  lemma {:induction false} FlushSizes(ws: seq<WitnessTrans>, v: nat)
    requires v > 0 && |ws| > 0
    ensures |Flush(ws, v).batches| == (|ws| - 1) / v + 1
    ensures |Flush(ws, v).open| == (|ws| - 1) % v
    ensures forall k :: 0 <= k < |Flush(ws, v).batches| ==> |Flush(ws, v).batches[k]| == if k == 0 then 1 else v
  {
    var m := |ws| - 1;
    if m == 0 {
      Windows.ModUnique(0, 0, v);
    } else {
      FlushSizes(ws[..m], v);
      Windows.SuccDivMod(m - 1, v);
    }
  }

  /** How many of `m` uploaded relays end up in a batch. */
  function FlushedLength(m: nat, v: nat): nat
    requires v > 0
  {
    if m == 0 then 0 else v * ((m - 1) / v) + 1
  }

  lemma FlushedPart<T>(xs: seq<T>, open: seq<T>, all: seq<T>, v: nat)
    requires v > 0 && |all| > 0 && xs + open == all && |open| == (|all| - 1) % v
    ensures FlushedLength(|all|, v) <= |all| && xs == all[..FlushedLength(|all|, v)]
  {
    assert |all| - 1 == v * ((|all| - 1) / v) + (|all| - 1) % v;
    assert xs == all[..|xs|];
  }

  /** The flushed batches concatenate, in order and without overlap, to the prefix of length
      `v*((m-1)/v)+1` of the `m` entries; the first batch has one entry and every other one `v`. */
  lemma FlushedPrefix(ws: seq<WitnessTrans>, v: nat)
    requires v > 0 && |ws| > 0
    ensures FlushedLength(|ws|, v) <= |ws|
    ensures Flatten(Flush(ws, v).batches) == ws[..FlushedLength(|ws|, v)]
    ensures forall k :: 0 <= k < |Flush(ws, v).batches| ==> |Flush(ws, v).batches[k]| == if k == 0 then 1 else v
  {
    FlushPartition(ws, v);
    FlushSizes(ws, v);
    FlushedPart(Flatten(Flush(ws, v).batches), Flush(ws, v).open, ws, v);
  }

  /** The last flush of an upload of `m` entries ends at the largest multiple of `v` below `m` and
      begins after the one before. */
  function LastCut(m: nat, v: nat): (cut: (nat, nat))
    requires m > 0 && v > 0
    ensures cut.0 < cut.1 <= m
  {
    var end := FlushedLength(m, v);
    FlushedLengthAt(m, v);
    if end == 1 then (0, 1) else (end - v, end)
  }

  lemma FlushedLengthAt(m: nat, v: nat)
    requires m > 0 && v > 0
    ensures FlushedLength(m, v) == m - (m - 1) % v
    ensures 1 <= FlushedLength(m, v) <= m && (FlushedLength(m, v) == 1 || FlushedLength(m, v) > v)
    ensures FlushedLength(m, v) == 1 <==> m <= v
  {
    var q, d := (m - 1) / v, (m - 1) % v;
    assert m - 1 == v * q + d;
    if q > 0 { Windows.MulMono(1, q, v); }
  }

  /** The last batch flushed from an upload is its last cut. */
  lemma LastFlushed(ws: seq<WitnessTrans>, v: nat)
    requires v > 0 && |ws| > 0
    ensures var bs := Flush(ws, v).batches;
      bs != [] && bs[|bs| - 1] == ws[LastCut(|ws|, v).0..LastCut(|ws|, v).1]
  {
    var bs := Flush(ws, v).batches;
    FlushedPrefix(ws, v);
    FlushSizes(ws, v);
    FlushedLengthAt(|ws|, v);
    var b := bs[|bs| - 1];
    assert Flatten(bs) == Flatten(bs[..|bs| - 1]) + b;
    LastPart(Flatten(bs[..|bs| - 1]), b, ws, FlushedLength(|ws|, v));
    QuotientPositive(|ws|, v);
  }

  lemma QuotientPositive(m: nat, v: nat)
    requires m > 0 && v > 0
    ensures (m - 1) / v == 0 <==> m <= v
  {
    assert m - 1 == v * ((m - 1) / v) + (m - 1) % v;
    if (m - 1) / v > 0 { Windows.MulMono(1, (m - 1) / v, v); }
  }

  lemma LastPart<T>(xs: seq<T>, b: seq<T>, ws: seq<T>, end: nat)
    requires end <= |ws| && xs + b == ws[..end]
    ensures b == ws[end - |b|..end]
  {
    assert ws[..end][end - |b|..] == b;
  }

  /** The `v` entries before the end of `ws` repeat those that come `d` entries earlier. */
  ghost predicate Repeats<T(!new)>(ws: seq<T>, v: nat, d: nat) {
    d + v <= |ws| && forall i :: |ws| - v <= i < |ws| ==> ws[i - d] == ws[i]
  }

  lemma CutAgrees(earlier: seq<WitnessTrans>, ws: seq<WitnessTrans>, v: nat, d: nat)
    requires v > 0 && |ws| > 0 && d == (|ws| - 1) % v
    ensures var cut := LastCut(|ws|, v);
      ws[cut.0..cut.1] == LastEntries(earlier + ws, v) <==> v == 1 || (|ws| > v && Repeats(ws, v, d))
  {
    var m := |ws|;
    FlushedLengthAt(m, v);
    if m > v {
      var b := ws[m - d - v..m - d];
      assert LastEntries(earlier + ws, v) == ws[m - v..];
      assert Repeats(ws, v, d) ==> b == ws[m - v..];
      if b == ws[m - v..] {
        forall i | m - v <= i < m ensures ws[i - d] == ws[i] {
          assert b[i - (m - v)] == ws[m - v..][i - (m - v)];
        }
      }
    }
  }

  /** Among different entries only an upload without a rest repeats. */
  lemma DistinctRepeats<T(!new)>(ws: seq<T>, v: nat, d: nat)
    requires v > 0 && NoDuplicates(ws)
    ensures Repeats(ws, v, d) <==> d == 0 && v <= |ws|
  {
    if Repeats(ws, v, d) { assert ws[|ws| - 1 - d] == ws[|ws| - 1]; }
  }

  lemma RestOfShort(m: nat, v: nat)
    requires 0 < m <= v
    ensures (m - 1) % v == m - 1
  {
    Windows.ModUnique(0, m - 1, v);
  }

  /** The last relay batch of a pool whose latest non-empty upload was `ws` digests the last `v` pool
      entries, the ones a commit executes, if and only if the batch size is 1, or the upload is longer
      than that and its last `v` entries repeat those just before the entries left unbatched. That is
      always so when nothing was left unbatched, and for different entries only then. */
  lemma RelayBatchAgrees(
    digest: seq<WitnessTrans> -> string, directory: map<string, int>, batches: seq<BatchTrans>, base: nat, shard: int,
    earlier: seq<WitnessTrans>, ws: seq<WitnessTrans>, v: nat)
    requires v > 0 && |ws| > 0
    requires FlushedBatches(digest, directory, Flush(ws, v).batches, batches, base, shard)
    requires forall xs, ys :: digest(xs) == digest(ys) ==> xs == ys
    ensures batches != [] && batches[|batches| - 1].kind == RELAY && batches[|batches| - 1].shard == shard
    ensures var d, last := (|ws| - 1) % v, batches[|batches| - 1];
      && (last.digest == digest(LastEntries(earlier + ws, v)) <==> v == 1 || (|ws| > v && Repeats(ws, v, d)))
      && (NoDuplicates(ws) ==>
            (last.digest == digest(LastEntries(earlier + ws, v)) <==> v == 1 || (|ws| > 1 && d == 0)))
  {
    var flushed, d := Flush(ws, v).batches, (|ws| - 1) % v;
    LastFlushed(ws, v);
    assert IsBatch(digest, directory, flushed[|flushed| - 1], batches[base + (|flushed| - 1)], shard, RELAY);
    CutAgrees(earlier, ws, v, d);
    if NoDuplicates(ws) {
      DistinctRepeats(ws, v, d);
      if |ws| <= v { RestOfShort(|ws|, v); }
    }
  }

  /** A single uploaded relay is batched alone, but with `v > 1` the last `v` entries are never just it. */
  lemma RelayBatchDiffers(earlier: seq<WitnessTrans>, x: WitnessTrans, v: nat)
    requires v > 1
    ensures Flush([x], v).batches == [[x]] && LastEntries(earlier + [x], v) != [x]
  {
    NothingFlushed(v);
    FlushNext([], x, v);
    assert [] + [x] == [x];
    Windows.ModUnique(0, 0, v);
  }

  lemma FlattenOne<T>(batches: seq<seq<T>>, b: seq<T>)
    ensures Flatten(batches + [b]) == Flatten(batches) + b
  {
    assert (batches + [b])[..|batches|] == batches;
  }

  /** The batches appended for the flushed lists, from index `base` on. */
  ghost predicate FlushedBatches(
    digest: seq<WitnessTrans> -> string, directory: map<string, int>,
    flushed: seq<seq<WitnessTrans>>, batches: seq<BatchTrans>, base: nat, shard: int)
  {
    && |batches| == base + |flushed|
    && forall k :: 0 <= k < |flushed| ==>
         IsBatch(digest, directory, flushed[k], batches[base + k], shard, RELAY)
  }

  /** Counts a vote, and says whether some root of the shard now has enough. */
  method CastVote(client: ShardStruct, shard: int, root: string, clientMax: nat) returns (flag: bool)
    requires shard in client.newRootsVote
    modifies client`newRootsVote
    ensures var votes := old(client.newRootsVote[shard]);
      client.newRootsVote == old(client.newRootsVote)[shard := votes[root := if root in votes then votes[root] + 1 else 1]]
    ensures client.newRootsVote[shard] == Voted(old(client.newRootsVote[shard]), root)
    ensures flag == EnoughVotes(client.newRootsVote[shard], clientMax)
    ensures flag == HasQuorum(client.newRootsVote[shard], clientMax)
  {
    var votes := client.newRootsVote[shard];
    votes := votes[root := (if root in votes then votes[root] else 0) + 1];
    client.newRootsVote := client.newRootsVote[shard := votes];
    flag := AnyQuorum(votes, clientMax * 2 / 3);
  }

  /** Some root has two thirds of the clients' votes, up to a fraction of a vote. */
  ghost predicate EnoughVotes(votes: map<string, nat>, clientMax: nat) {
    exists r :: r in votes && 3 * votes[r] + 2 >= 2 * clientMax
  }

  /** One vote for a root of `shard`. A completing vote stores the uploaded relays of the shard and
      batches them, and reports the transaction count. */
  method CollectRoot(
    client: ShardStruct, pools: TransactionPools, state: State,
    shard: int, root: string, txNum: int, suList: map<int, seq<SuperTransaction>>,
    shardNum: nat, clientMax: nat)
    requires shard in client.newRootsVote
    requires pools.Shaped() && 0 <= shard <= pools.maxShard && pools.v > 0
    requires state.Valid() && state.HasShards(shardNum)
    modifies client, pools
    ensures var votes := old(client.newRootsVote[shard]);
      client.newRootsVote == old(client.newRootsVote)[shard := votes[root := if root in votes then votes[root] + 1 else 1]]
    ensures client.validEnd == (old(client.validEnd) || EnoughVotes(client.newRootsVote[shard], clientMax))
    ensures client.txNum == old(client.txNum) + (if client.validEnd && !old(client.validEnd) then txNum else 0)
    ensures client.RoundOf(shard) == Collected(old(client.RoundOf(shard)), root, txNum, clientMax)
    ensures pools.Shaped() && pools.OnlyCell(RELAY, shard)
    ensures var uploads := Pool(suList, shard);
      if client.validEnd && !old(client.validEnd) then
        && pools.entries[RELAY][shard] == old(pools.entries[RELAY][shard]) + Stored(uploads)
        && old(pools.batches[RELAY][shard]) <= pools.batches[RELAY][shard]
        && FlushedBatches(pools.digest, BookDirectory(state.book), Flush(Stored(uploads), pools.v).batches,
                          pools.batches[RELAY][shard], old(|pools.batches[RELAY][shard]|), shard)
      else
        && pools.entries[RELAY][shard] == old(pools.entries[RELAY][shard])
        && pools.batches[RELAY][shard] == old(pools.batches[RELAY][shard])
    ensures client.validEnd && !old(client.validEnd) <==> Accepts(old(client.RoundOf(shard)), root, clientMax)
  {
    hide Stored, Flush, FlushedBatches, State.Valid, State.HasShards, HasQuorum, EnoughVotes;
    var isEnd := client.validEnd;
    var flag := CastVote(client, shard, root, clientMax);
    if !isEnd && flag {
      var uploads := if shard in suList then suList[shard] else [];
      StoreRelays(pools, state, shard, uploads, shardNum);
      client.txNum := client.txNum + txNum;
      client.validEnd := true;
    }
  }

  method StoreRelays(
    pools: TransactionPools, state: State, shard: int, uploads: seq<SuperTransaction>, shardNum: nat)
    requires pools.Shaped() && 0 <= shard <= pools.maxShard && pools.v > 0
    requires state.Valid() && state.HasShards(shardNum)
    modifies pools
    ensures pools.Shaped() && pools.OnlyCell(RELAY, shard)
    ensures pools.entries[RELAY][shard] == old(pools.entries[RELAY][shard]) + Stored(uploads)
    ensures old(pools.batches[RELAY][shard]) <= pools.batches[RELAY][shard]
    ensures FlushedBatches(pools.digest, BookDirectory(state.book), Flush(Stored(uploads), pools.v).batches,
                           pools.batches[RELAY][shard], old(|pools.batches[RELAY][shard]|), shard)
  {
    ghost var ws := Stored(uploads);
    var translist: seq<WitnessTrans> := [];
    for index := 0 to |uploads|
      invariant pools.Shaped() && pools.OnlyCell(RELAY, shard)
      invariant state.Valid() && state.HasShards(shardNum)
      invariant translist == Flush(ws[..index], pools.v).open
      invariant pools.entries[RELAY][shard] == old(pools.entries[RELAY][shard]) + ws[..index]
      invariant old(pools.batches[RELAY][shard]) <= pools.batches[RELAY][shard]
      invariant FlushedBatches(pools.digest, BookDirectory(state.book), Flush(ws[..index], pools.v).batches,
                               pools.batches[RELAY][shard], old(|pools.batches[RELAY][shard]|), shard)
    {
      assert ws[..index + 1][..index] == ws[..index] && ws[..index + 1] == ws[..index] + [ws[index]];
      translist := StoreOne(pools, state, shard, uploads[index], index, ws[..index], translist,
                            old(|pools.batches[RELAY][shard]|), shardNum);
    }
    assert ws[..|uploads|] == ws;
  }

  /** One round of the loop: the entry joins the open batch, a due batch is flushed, the entry joins
      the pool. `done` are the entries handled so far. */
  method StoreOne(
    pools: TransactionPools, state: State, shard: int, tran: SuperTransaction, index: nat,
    ghost done: seq<WitnessTrans>, translist0: seq<WitnessTrans>, ghost base: nat, shardNum: nat)
    returns (translist: seq<WitnessTrans>)
    requires pools.Shaped() && 0 <= shard <= pools.maxShard && pools.v > 0
    requires state.Valid() && state.HasShards(shardNum)
    requires |done| == index && translist0 == Flush(done, pools.v).open
    requires FlushedBatches(pools.digest, BookDirectory(state.book), Flush(done, pools.v).batches,
                            pools.batches[RELAY][shard], base, shard)
    modifies pools
    ensures pools.Shaped() && pools.OnlyCell(RELAY, shard)
    ensures pools.entries[RELAY][shard] == old(pools.entries[RELAY][shard]) + [FromSuper(tran)]
    ensures old(pools.batches[RELAY][shard]) <= pools.batches[RELAY][shard]
    ensures translist == Flush(done + [FromSuper(tran)], pools.v).open
    ensures FlushedBatches(pools.digest, BookDirectory(state.book), Flush(done + [FromSuper(tran)], pools.v).batches,
                           pools.batches[RELAY][shard], base, shard)
  {
    var trans := WitnessTrans(tran.fromShard, tran.shard, tran.from, tran.to, tran.value, RELAY);
    assert (done + [trans])[..index] == done;
    translist := translist0 + [trans];
    if index % pools.v == 0 {
      pools.AppendBatchTrans(translist, shard, RELAY, state, shardNum);
      translist := [];
    }
    pools.AppendWitnessTrans(trans, RELAY, shard);
  }
}
