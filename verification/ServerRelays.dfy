/** How often each accepted relay is executed: the relay counterpart of the round robin. */
module ServerRelays {
  import opened Data
  import opened PoolSpec
  import opened Rounds
  import opened Server
  import opened ServerAccounting
  import opened ServerLedger

  /** The indices `lo` up to, not including, `hi`. */
  function Range(lo: nat, hi: nat): seq<nat>
    requires lo <= hi
  {
    if lo == hi then [] else Range(lo, hi - 1) + [hi - 1]
  }

  lemma {:induction false} RangeAt(lo: nat, hi: nat)
    requires lo <= hi
    ensures |Range(lo, hi)| == hi - lo && forall i :: 0 <= i < hi - lo ==> Range(lo, hi)[i] == lo + i
    ensures forall p :: multiset(Range(lo, hi))[p] == if lo <= p < hi then 1 else 0
  {
    if lo < hi { RangeAt(lo, hi - 1); }
  }

  /** A commit that finds `n` relays in a pool selects index `p`. */
  predicate Selects(n: nat, v: nat, p: nat) {
    n >= v && n - v <= p < n
  }

  function LastIndices(n: nat, v: nat): seq<nat> {
    if n >= v then Range(n - v, n) else []
  }

  lemma LastIndicesAt<T>(pool: seq<T>, v: nat)
    ensures var indices := LastIndices(|pool|, v);
      && |LastEntries(pool, v)| == |indices|
      && (forall i :: 0 <= i < |indices| ==> indices[i] < |pool| && LastEntries(pool, v)[i] == pool[indices[i]])
      && (forall p :: multiset(indices)[p] == if Selects(|pool|, v, p) then 1 else 0)
  {
    if |pool| >= v { RangeAt(|pool| - v, |pool|); }
  }

  /** The indices, among all accepted relays of `shard`, of the relays that the commits of a run
      executed, in order. */
  ghost function RelayIndices(g: Genesis, es: seq<Event>, shard: int): seq<nat>
    requires ValidRun(g, es)
  {
    if es == [] then []
    else
      var init, e := es[..|es| - 1], es[|es| - 1];
      RelayIndices(g, init, shard)
        + (if Executes(g, Run(g, init), e) then LastIndices(|AcceptedUploads(g, init, shard)|, g.v) else [])
  }

  /** How many commits of a run found a pool whose last `v` relays included index `p`. */
  ghost function SelectingCommits(g: Genesis, es: seq<Event>, shard: int, p: nat): nat
    requires ValidRun(g, es)
  {
    if es == [] then 0
    else
      var init, e := es[..|es| - 1], es[|es| - 1];
      SelectingCommits(g, init, shard, p)
        + (if Executes(g, Run(g, init), e) && Selects(|AcceptedUploads(g, init, shard)|, g.v, p) then 1 else 0)
  }

  /** `xs` are the entries of `all` at `indices`. */
  ghost predicate At<T(!new)>(xs: seq<T>, all: seq<T>, indices: seq<nat>) {
    |xs| == |indices| && forall i :: 0 <= i < |indices| ==> indices[i] < |all| && xs[i] == all[indices[i]]
  }

  lemma AtMore<T(!new)>(xs: seq<T>, ys: seq<T>, all: seq<T>, more: seq<T>, ids: seq<nat>, moreIds: seq<nat>)
    requires At(xs, all, ids) && At(ys, all, moreIds)
    ensures At(xs + ys, all + more, ids + moreIds)
  {
  }

  /** The relays executed in a run are the accepted relays at `RelayIndices`, and each accepted relay
      occurs there once for every commit that found it among the last `v`: not at all, once, or again
      and again. */
  lemma {:induction false} RelaysExecuted(g: Genesis, es: seq<Event>, shard: int)
    requires ValidRun(g, es) && shard in g.members
    ensures At(ExecutedRelays(g, es, shard), AcceptedUploads(g, es, shard), RelayIndices(g, es, shard))
    ensures forall p: nat ::
      multiset(RelayIndices(g, es, shard))[p] == SelectingCommits(g, es, shard, p)
  {
    hide Step, Enabled, Executes, Accepts, At, LastIndices, Selects, RelaysAt, NextBlock;
    if es == [] {
      NothingAt(AcceptedUploads(g, es, shard));
    } else {
      var init, e := es[..|es| - 1], es[|es| - 1];
      var s, all := Run(g, init), AcceptedUploads(g, init, shard);
      var more := if AcceptsRound(g, s, e) && e.shard == shard then e.uploads else [];
      RelaysExecuted(g, init, shard);
      CommitRelays(g, init, shard);
      NothingAt(all);
      AtMore(ExecutedRelays(g, init, shard), if Executes(g, s, e) then RelaysAt(g, s.relays, shard) else [], all, more,
             RelayIndices(g, init, shard), if Executes(g, s, e) then LastIndices(|all|, g.v) else []);
    }
  }

  lemma NothingAt<T(!new)>(all: seq<T>)
    ensures At([], all, [])
  {
  }

  /** What a commit after this run would execute. */
  lemma CommitRelays(g: Genesis, es: seq<Event>, shard: int)
    requires ValidRun(g, es) && shard in g.members
    ensures var all := AcceptedUploads(g, es, shard);
      && At(RelaysAt(g, Run(g, es).relays, shard), all, LastIndices(|all|, g.v))
      && (forall p: nat :: multiset(LastIndices(|all|, g.v))[p] == if Selects(|all|, g.v, p) then 1 else 0)
  {
    hide Run, ValidRun, AcceptedUploads, LastEntries, LastIndices;
    RelayPool(g, es, shard);
    LastIndicesAt(AcceptedUploads(g, es, shard), g.v);
  }
}
