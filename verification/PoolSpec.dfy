/** The transaction pools on plain values: raw entries, the batches digested from them, and what the
    packing functions select. */
module PoolSpec {
  import opened Data
  import opened Postings
  import opened Footprint
  import opened Iteration
  import Windows

  function ToInternal(w: WitnessTrans): InternalTransaction {
    InternalTransaction(w.shard, w.from, w.to, w.value)
  }

  function ToCross(w: WitnessTrans): CrossShardTransaction {
    CrossShardTransaction(w.shard, w.toShard, w.from, w.to, w.value)
  }

  function ToSuper(w: WitnessTrans): SuperTransaction {
    SuperTransaction(w.shard, w.toShard, w.from, w.to, w.value)
  }

  /** An uploaded relay as it is stored in the pool. */
  function FromSuper(tx: SuperTransaction): WitnessTrans {
    WitnessTrans(tx.fromShard, tx.shard, tx.from, tx.to, tx.value, RELAY)
  }

  function Internals(ws: seq<WitnessTrans>): seq<InternalTransaction> {
    seq(|ws|, i requires 0 <= i < |ws| => ToInternal(ws[i]))
  }

  function Crosses(ws: seq<WitnessTrans>): seq<CrossShardTransaction> {
    seq(|ws|, i requires 0 <= i < |ws| => ToCross(ws[i]))
  }

  function Supers(ws: seq<WitnessTrans>): seq<SuperTransaction> {
    seq(|ws|, i requires 0 <= i < |ws| => ToSuper(ws[i]))
  }

  function Stored(txs: seq<SuperTransaction>): seq<WitnessTrans> {
    seq(|txs|, i requires 0 <= i < |txs| => FromSuper(txs[i]))
  }

  /** Field by field: a transaction says what its pool entry says. */
  ghost predicate SameInternal(w: WitnessTrans, tx: InternalTransaction) {
    tx.shard == w.shard && tx.from == w.from && tx.to == w.to && tx.value == w.value
  }

  ghost predicate SameCross(w: WitnessTrans, tx: CrossShardTransaction) {
    tx.shard1 == w.shard && tx.shard2 == w.toShard && tx.from == w.from && tx.to == w.to && tx.value == w.value
  }

  ghost predicate SameRelay(w: WitnessTrans, tx: SuperTransaction) {
    tx.fromShard == w.shard && tx.shard == w.toShard && tx.from == w.from && tx.to == w.to && tx.value == w.value
  }

  ghost predicate AllSameInternal(ws: seq<WitnessTrans>, txs: seq<InternalTransaction>) {
    |txs| == |ws| && forall i :: 0 <= i < |ws| ==> SameInternal(ws[i], txs[i])
  }

  ghost predicate AllSameCross(ws: seq<WitnessTrans>, txs: seq<CrossShardTransaction>) {
    |txs| == |ws| && forall i :: 0 <= i < |ws| ==> SameCross(ws[i], txs[i])
  }

  ghost predicate AllSameRelay(ws: seq<WitnessTrans>, txs: seq<SuperTransaction>) {
    |txs| == |ws| && forall i :: 0 <= i < |ws| ==> SameRelay(ws[i], txs[i])
  }

  /** The conversions keep every field. */
  lemma FieldsKept(ws: seq<WitnessTrans>)
    ensures AllSameInternal(ws, Internals(ws)) && AllSameCross(ws, Crosses(ws)) && AllSameRelay(ws, Supers(ws))
  {
  }

  /** Stored relays keep every field and are marked as relays. */
  lemma StoredFields(txs: seq<SuperTransaction>)
    ensures AllSameRelay(Stored(txs), txs) && OfKind(Stored(txs), RELAY)
  {
  }

  ghost predicate OfKind(ws: seq<WitnessTrans>, kind: int) {
    forall w :: w in ws ==> w.kind == kind
  }

  /** The executors book exactly what the raw entries say. */
  lemma ExecutedAsStored(ws: seq<WitnessTrans>, kind: int)
    requires OfKind(ws, kind)
    ensures kind == INTERNAL ==> InternalPostings(Internals(ws)) == WitnessPostings(ws)
    ensures kind == CROSS ==> CrossPostings(Crosses(ws)) == WitnessPostings(ws)
    ensures kind == RELAY ==> RelayPostings(Supers(ws)) == WitnessPostings(ws)
  {
    assert forall i :: 0 <= i < |ws| ==> ws[i] in ws;
  }

  /** The last `v` entries of a pool, or none when it is shorter. */
  function LastEntries<T>(pool: seq<T>, v: nat): seq<T> {
    if |pool| >= v then pool[|pool| - v..] else []
  }

  /** Relay round trip: what is packed from the relay pool are the uploaded relays themselves. */
  lemma RelayRoundTrip(uploads: seq<SuperTransaction>, v: nat)
    ensures Supers(LastEntries(Stored(uploads), v)) == LastEntries(uploads, v)
  {
  }

  /** Entries `k*v .. k*v+v` of a pool. */
  function Chunk<T>(pool: seq<T>, k: nat, v: nat): seq<T> {
    if k * v + v <= |pool| then pool[k * v..k * v + v] else []
  }

  /** `b` declares the digest and the accounts of the entries `ws`. */
  ghost predicate IsBatch(
    digest: seq<WitnessTrans> -> string, directory: map<string, int>, ws: seq<WitnessTrans>,
    b: BatchTrans, shard: int, kind: int)
  {
    && b.shard == shard && b.kind == kind
    && b.digest == digest(ws)
    && NoDuplicates(b.relatedAccount)
    && forall id :: id in b.relatedAccount <==> id in FootprintIds(directory, ws)
  }

  lemma BatchFields(
    digest: seq<WitnessTrans> -> string, directory: map<string, int>, ws: seq<WitnessTrans>,
    b: BatchTrans, shard: int, kind: int)
    requires IsBatch(digest, directory, ws, b, shard, kind)
    ensures b.shard == shard && b.kind == kind && b.digest == digest(ws)
  {
  }

  /** Batch `k` belongs to chunk `k` of the pool. */
  ghost predicate Batched(
    digest: seq<WitnessTrans> -> string, directory: map<string, int>, v: nat,
    pool: seq<WitnessTrans>, batches: seq<BatchTrans>, shard: int, kind: int)
  {
    && |batches| * v <= |pool|
    && forall k :: 0 <= k < |batches| ==>
         IsBatch(digest, directory, Chunk(pool, k, v), batches[k], shard, kind)
  }

  lemma ChunkStays<T>(pool: seq<T>, w: T, k: nat, n: nat, v: nat)
    requires k < n && n * v <= |pool|
    ensures Chunk(pool + [w], k, v) == Chunk(pool, k, v)
  {
    Windows.MulMono(k + 1, n, v);
    assert (k + 1) * v == k * v + v;
  }

  lemma BatchedEntry(
    digest: seq<WitnessTrans> -> string, directory: map<string, int>, v: nat,
    pool: seq<WitnessTrans>, batches: seq<BatchTrans>, shard: int, kind: int, w: WitnessTrans)
    requires Batched(digest, directory, v, pool, batches, shard, kind)
    ensures Batched(digest, directory, v, pool + [w], batches, shard, kind)
  {
    forall k | 0 <= k < |batches|
      ensures IsBatch(digest, directory, Chunk(pool + [w], k, v), batches[k], shard, kind)
    {
      ChunkStays(pool, w, k, |batches|, v);
    }
  }

  lemma BatchedFlush(
    digest: seq<WitnessTrans> -> string, directory: map<string, int>, v: nat,
    pool: seq<WitnessTrans>, batches: seq<BatchTrans>, shard: int, kind: int,
    w: WitnessTrans, b: BatchTrans)
    requires Batched(digest, directory, v, pool, batches, shard, kind)
    requires |batches| * v + v == |pool| + 1
    requires IsBatch(digest, directory, pool[|batches| * v..] + [w], b, shard, kind)
    ensures Batched(digest, directory, v, pool + [w], batches + [b], shard, kind)
  {
    var n := |batches|;
    assert (n + 1) * v == n * v + v;
    BatchedEntry(digest, directory, v, pool, batches, shard, kind, w);
    assert Chunk(pool + [w], n, v) == pool[n * v..] + [w];
    forall k | 0 <= k < n + 1
      ensures IsBatch(digest, directory, Chunk(pool + [w], k, v), (batches + [b])[k], shard, kind)
    {
    }
  }

  /** The slice the packing functions cut out of a pool at a height. */
  function Window<T>(pool: seq<T>, h: nat, v: nat): seq<T> {
    if pool == [] then []
    else
      var start, end := Windows.Start(h, v, |pool|), Windows.End(h, v, |pool|);
      if start <= end <= |pool| then pool[start..end] else []
  }

  /** A pool of `m` whole chunks is read chunk by chunk. */
  lemma WindowIsChunk<T>(pool: seq<T>, m: nat, h: nat, v: nat)
    requires v > 0 && m > 0 && |pool| == m * v
    ensures |pool| > 0 && Window(pool, h, v) == Chunk(pool, h % m, v)
    ensures |Window(pool, h, v)| == v
    ensures Windows.Start(h, v, |pool|) <= Windows.End(h, v, |pool|) <= |pool|
  {
    Windows.Aligned(h, v, m);
    assert (h % m + 1) * v == h % m * v + v;
  }

  /** Batch digest agreement: at every height the selected batch digests exactly the raw entries
      that the other window scheme selects at that height. */
  lemma DigestAgreement(
    digest: seq<WitnessTrans> -> string, directory: map<string, int>, v: nat,
    pool: seq<WitnessTrans>, batches: seq<BatchTrans>, shard: int, kind: int, h: nat)
    requires v > 0 && |batches| > 0 && |pool| == |batches| * v
    requires Batched(digest, directory, v, pool, batches, shard, kind)
    ensures |pool| > 0 && |Window(pool, h, v)| == v
    ensures Window(pool, h, v) == Chunk(pool, h % |batches|, v)
    ensures Window(batches, h, 1) == [batches[h % |batches|]]
    ensures IsBatch(digest, directory, Window(pool, h, v), Window(batches, h, 1)[0], shard, kind)
    ensures Window(batches, h, 1)[0].digest == digest(pool[h % |batches| * v..h % |batches| * v + v])
  {
    WindowIsChunk(pool, |batches|, h, v);
    WindowIsChunk(batches, |batches|, h, 1);
  }

  lemma WindowOfInternals(pool: seq<WitnessTrans>, h: nat, v: nat)
    ensures Internals(Window(pool, h, v)) == Window(Internals(pool), h, v)
  {
  }

  lemma WindowOfCrosses(pool: seq<WitnessTrans>, h: nat, v: nat)
    ensures Crosses(Window(pool, h, v)) == Window(Crosses(pool), h, v)
  {
  }

  /** The windows of the first `h` heights, one after the other. */
  function Stream<T>(pool: seq<T>, h: nat, v: nat): seq<T> {
    if h == 0 then [] else Stream(pool, h - 1, v) + Window(pool, h - 1, v)
  }

  /** `s` reads `pool` from its start, over and over again. */
  ghost predicate Cycles<T(!new)>(s: seq<T>, pool: seq<T>)
    requires |pool| > 0
  {
    forall i :: 0 <= i < |s| ==> s[i] == pool[i % |pool|]
  }

  lemma CyclesMore<T(!new)>(s: seq<T>, w: seq<T>, pool: seq<T>, r: nat)
    requires |pool| > 0 && Cycles(s, pool) && |s| % |pool| == r && r + |w| <= |pool| && w == pool[r..r + |w|]
    ensures Cycles(s + w, pool)
  {
    forall i | |s| <= i < |s + w| ensures (s + w)[i] == pool[i % |pool|] {
      Windows.Rotated(|s|, i - |s|, |pool|);
    }
  }

  /** The windows read the pool over and over again, without a gap. */
  lemma {:induction false} StreamCycles<T(!new)>(pool: seq<T>, m: nat, h: nat, v: nat)
    requires v > 0 && m > 0 && |pool| == m * v
    ensures |pool| > 0 && |Stream(pool, h, v)| == h * v && Cycles(Stream(pool, h, v), pool)
  {
    hide Cycles, Window;
    WindowIsChunk(pool, m, 0, v);
    if h == 0 {
      assert Cycles([], pool) by { NoneCycles(pool); }
    } else {
      StreamCycles(pool, m, h - 1, v);
      WindowIsChunk(pool, m, h - 1, v);
      Windows.MulMod(h - 1, v, m);
      assert (h - 1) * v + v == h * v;
      CyclesMore(Stream(pool, h - 1, v), Window(pool, h - 1, v), pool, (h - 1) % m * v);
    }
  }

  lemma NoneCycles<T(!new)>(pool: seq<T>)
    requires |pool| > 0
    ensures Cycles([], pool)
  {
  }

  lemma OneCycle<T(!new)>(s: seq<T>, t: seq<T>, pool: seq<T>)
    requires |pool| > 0 && Cycles(s, pool) && Cycles(t, pool) && |t| == |s| + |pool|
    ensures s <= t && multiset(t) == multiset(s) + multiset(pool)
  {
    var n, r := |s|, |s| % |pool|;
    forall i | 0 <= i < |pool| ensures t[n + i] == (pool[r..] + pool[..r])[i] {
      Windows.Rotated(n, i, |pool|);
    }
    assert t[n..] == pool[r..] + pool[..r];
    assert t == s + t[n..] && pool == pool[..r] + pool[r..];
  }

  /** `m` further windows read every entry exactly once. */
  lemma StreamPeriod<T(!new)>(pool: seq<T>, m: nat, h: nat, v: nat)
    requires v > 0 && m > 0 && |pool| == m * v
    ensures Stream(pool, h, v) <= Stream(pool, h + m, v)
    ensures multiset(Stream(pool, h + m, v)) == multiset(Stream(pool, h, v)) + multiset(pool)
  {
    hide Cycles, Stream;
    StreamCycles(pool, m, h, v);
    StreamCycles(pool, m, h + m, v);
    assert (h + m) * v == h * v + m * v;
    OneCycle(Stream(pool, h, v), Stream(pool, h + m, v), pool);
  }
}
