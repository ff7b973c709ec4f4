/** Tallying proposal blocks and deciding on one (AppendBlock, CheckLeaderProblocks, VerifyBlock), on
    plain values. */
module Consensus {
  import opened Data
  import opened Iteration
  import MapSums

  datatype LeaderInfo = LeaderInfo(block: ProposalBlock, count: nat)

  /** Uploads by the key of the uploaded block. */
  type Tally = map<string, LeaderInfo>

  function Recorded(t: Tally, key: string, block: ProposalBlock): Tally {
    t[key := if key in t then t[key].(count := t[key].count + 1) else LeaderInfo(block, 1)]
  }

  function CountOf(t: Tally, key: string): nat {
    if key in t then t[key].count else 0
  }

  function Counts(t: Tally): map<string, int> {
    map key | key in t :: t[key].count
  }

  ghost function Total(t: Tally): int {
    MapSums.Sum(Counts(t))
  }

  /** The loop that adds up all uploads of a tally. */
  method CountUploads(t: Tally) returns (n: int)
    ensures n == Total(t)
  {
    n := 0;
    var rest := t.Keys;
    ghost var counted: map<string, int> := map[];
    while rest != {}
      invariant rest <= t.Keys
      invariant counted.Keys == t.Keys - rest && forall key :: key in counted ==> counted[key] == t[key].count
      invariant n == MapSums.Sum(counted)
    {
      var key := Pick(rest);
      n := n + t[key].count;
      MapSums.SumUpdate(counted, key, t[key].count);
      counted := counted[key := t[key].count];
      rest := rest - {key};
    }
    assert counted == Counts(t);
  }

  /** The scan for the highest count; without any upload it finds nothing and a count of zero. */
  method FindLeader(t: Tally) returns (maxCount: nat, leader: Option<LeaderInfo>, ghost winner: string)
    requires Positive(t)
    ensures t == map[] ==> leader == None && maxCount == 0
    ensures t != map[] ==> IsWinner(t, winner) && leader == Some(t[winner]) && maxCount == t[winner].count
  {
    maxCount, leader, winner := 0, None, "";
    var rest := t.Keys;
    while rest != {}
      invariant rest <= t.Keys
      invariant rest == t.Keys ==> leader == None && maxCount == 0
      invariant rest != t.Keys ==> winner in t && leader == Some(t[winner]) && maxCount == t[winner].count
      invariant forall key :: key in t && key !in rest ==> t[key].count <= maxCount
    {
      var key := Pick(rest);
      if t[key].count > maxCount {
        maxCount, leader, winner := t[key].count, Some(t[key]), key;
      }
      rest := rest - {key};
    }
    if t != map[] { assert t.Keys != {}; }
  }

  ghost predicate Positive(t: Tally) {
    forall key :: key in t ==> t[key].count > 0
  }

  /** The scan for the highest count may end at any key nobody exceeds. */
  ghost predicate IsWinner(t: Tally, key: string) {
    key in t && forall other :: other in t ==> t[other].count <= t[key].count
  }

  function Quorum(n: nat): nat {
    2 * n / 3
  }

  /** The quorum is two thirds, up to a fraction of a vote. */
  lemma QuorumIsTwoThirds(n: nat, c: nat)
    ensures c >= Quorum(n) <==> 3 * c + 2 >= 2 * n
  {
  }

  /** The bound VerifyBlock compares with: the division comes first. */
  function VerifyMinVote(n: nat): nat {
    2 * (n / 3)
  }

  /** The second vote check is implied by the first: a block that won the scan can only be rejected
      for its height. */
  lemma VerifyRejectsOnlyHeight(n: nat, vote: int)
    requires vote >= Quorum(n)
    ensures vote >= VerifyMinVote(n)
  {
  }

  ghost predicate UniqueQuorum(t: Tally, n: nat) {
    forall a, b :: a in t && b in t && t[a].count >= Quorum(n) && t[b].count >= Quorum(n) ==> a == b
  }

  lemma TwoCountsWithinTotal(t: Tally, a: string, b: string)
    requires a in t && b in t && a != b
    ensures t[a].count + t[b].count <= Total(t)
  {
    var c := Counts(t);
    MapSums.SumRemove(c, a);
    MapSums.SumRemove(c - {a}, b);
    MapSums.SumNonNegative(c - {a} - {b});
  }

  lemma TwoQuorumsExceed(n: nat, c: nat, d: nat)
    requires n != 2 && n != 4
    requires c > 0 && d > 0 && c >= Quorum(n) && d >= Quorum(n)
    ensures c + d > n
  {
  }

  lemma UniqueWithin(t: Tally, n: nat)
    requires Positive(t) && Total(t) <= n && n != 2 && n != 4
    ensures UniqueQuorum(t, n)
  {
    forall a, b | a in t && b in t && t[a].count >= Quorum(n) && t[b].count >= Quorum(n)
      ensures a == b
    {
      TwoQuorumsExceed(n, t[a].count, t[b].count);
      if a != b { TwoCountsWithinTotal(t, a, b); }
    }
  }

  /** Every block is stored under its own key. */
  ghost predicate Keyed(t: Tally, keyOf: ProposalBlock -> string) {
    forall key :: key in t ==> keyOf(t[key].block) == key
  }

  /** What `p` uploads of block `a` and `j` of block `b` leave. */
  function TwoBlocks(keyOf: ProposalBlock -> string, a: ProposalBlock, p: nat, b: ProposalBlock, j: nat): Tally {
    var t := if p == 0 then map[] else map[keyOf(a) := LeaderInfo(a, p)];
    if j == 0 then t else t[keyOf(b) := LeaderInfo(b, j)]
  }

  lemma TwoBlocksTotal(keyOf: ProposalBlock -> string, a: ProposalBlock, p: nat, b: ProposalBlock, j: nat)
    requires j > 0 ==> keyOf(a) != keyOf(b)
    ensures Total(TwoBlocks(keyOf, a, p, b, j)) == p + j
  {
    var t := TwoBlocks(keyOf, a, p, b, 0);
    assert Counts(map[]) == map[];
    if p > 0 {
      assert Counts(t) == map[][keyOf(a) := p];
      MapSums.SumUpdate(map[], keyOf(a), p);
    }
    if j > 0 {
      assert Counts(TwoBlocks(keyOf, a, p, b, j)) == Counts(t)[keyOf(b) := j];
      MapSums.SumUpdate(Counts(t), keyOf(b), j);
    }
  }

  /** Quorum uniqueness, exactly: with at most `n` uploads counted no two blocks can both reach the
      quorum, whatever the uploads, if and only if `n` is neither 2 nor 4. (Needs two blocks that the
      key tells apart: with a single key there is never a second block.) */
  lemma QuorumUniqueIff(n: nat, keyOf: ProposalBlock -> string, a: ProposalBlock, b: ProposalBlock)
    requires keyOf(a) != keyOf(b)
    ensures (forall t: Tally :: Keyed(t, keyOf) && Positive(t) && Total(t) <= n ==> UniqueQuorum(t, n))
      <==> n != 2 && n != 4
  {
    if n == 2 || n == 4 {
      var t := TwoBlocks(keyOf, a, n / 2, b, n / 2);
      TwoBlocksTotal(keyOf, a, n / 2, b, n / 2);
      assert Keyed(t, keyOf) && Positive(t) && Total(t) == n;
      assert keyOf(a) in t && keyOf(b) in t && !UniqueQuorum(t, n);
    } else {
      forall t: Tally | Keyed(t, keyOf) && Positive(t) && Total(t) <= n ensures UniqueQuorum(t, n) {
        UniqueWithin(t, n);
      }
    }
  }

  /** The scan does not depend on the order of the map: its count never does, and within a tally of
      at most `n` uploads neither does the block it finds at the quorum. */
  lemma ScanDeterministic(t: Tally, n: nat, a: string, b: string)
    requires IsWinner(t, a) && IsWinner(t, b)
    ensures t[a].count == t[b].count
    ensures Positive(t) && Total(t) <= n && n != 2 && n != 4 && t[a].count >= Quorum(n) ==> a == b
  {
    if Positive(t) && Total(t) <= n && n != 2 && n != 4 { UniqueWithin(t, n); }
  }

  function MakeBlock(
    txRoot: seq<int> -> string, block: ProposalBlock, vote: int, now: int): Block
  {
    Block(BlockHeader(block.height, now, vote, txRoot(block.lockedAccount), block.root),
          BlockBody(block.height, block.lockedAccount, block.proposalList))
  }

  /** Field by field, the block a commit at time `now` makes of `block` with `vote` votes. */
  ghost predicate IsBlockOf(
    txRoot: seq<int> -> string, block: ProposalBlock, vote: int, now: int, b: Block)
  {
    && b.header.height == b.body.height == block.height
    && b.header.vote == vote && b.header.time == now
    && b.header.stateRoot == block.root && b.header.transactionRoot == txRoot(block.lockedAccount)
    && b.body.lockedAccount == block.lockedAccount && b.body.transactionLists == block.proposalList
  }

  lemma MadeOf(txRoot: seq<int> -> string, block: ProposalBlock, vote: int, now: int)
    ensures IsBlockOf(txRoot, block, vote, now, MakeBlock(txRoot, block, vote, now))
  {
  }

  function RowOf(b: Block): BlockRow {
    BlockRow(b.header.height, b.header.time, b.header.vote)
  }

  /** GetHeight: the highest row, or zero in an empty table. */
  function MaxHeight(rows: seq<BlockRow>): nat {
    if rows == [] then 0
    else
      var rest, last := MaxHeight(rows[..|rows| - 1]), rows[|rows| - 1].height;
      if rest < last then last else rest
  }

  /** Block `i` of the chain has height `i+1`, and its row says so, with the block's time and vote. */
  ghost predicate Chained(chain: seq<Block>, rows: seq<BlockRow>) {
    && |rows| == |chain|
    && forall i :: 0 <= i < |chain| ==>
         && chain[i].header.height == i + 1 && rows[i].height == i + 1
         && rows[i].vote == chain[i].header.vote && rows[i].timeOnChain == chain[i].header.time
  }

  lemma {:induction false} ChainedHeight(chain: seq<Block>, rows: seq<BlockRow>)
    requires Chained(chain, rows)
    ensures MaxHeight(rows) == |chain|
  {
    if chain != [] { ChainedHeight(chain[..|chain| - 1], rows[..|rows| - 1]); }
  }
}
