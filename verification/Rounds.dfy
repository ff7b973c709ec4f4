/** The voting round of a shard: votes for state roots, and the latch that takes over one upload. */
module Rounds {
  import MapSums

  /** One shard's round: votes by root, the transactions it will report, and the latch. */
  datatype Round = Round(votes: map<string, nat>, txNum: int, validEnd: bool)

  const FRESH := Round(map[], 0, false)

  function MinVote(clientMax: nat): nat {
    clientMax * 2 / 3
  }

  /** `n` votes of `c` clients are enough: no whole vote is missing to two thirds. */
  predicate TwoThirds(n: nat, c: nat) {
    3 * n + 2 >= 2 * c
  }

  lemma MinVoteIsTwoThirds(n: nat, c: nat)
    ensures n >= MinVote(c) <==> 3 * n + 2 >= 2 * c
  {
  }

  predicate HasQuorum(votes: map<string, nat>, clientMax: nat) {
    exists root :: root in votes && TwoThirds(votes[root], clientMax)
  }

  function Voted(votes: map<string, nat>, root: string): map<string, nat> {
    votes[root := (if root in votes then votes[root] else 0) + 1]
  }

  /** This vote completes the round: its relays and its transaction count are taken over. */
  predicate Accepts(r: Round, root: string, clientMax: nat) {
    !r.validEnd && HasQuorum(Voted(r.votes, root), clientMax)
  }

  function Collected(r: Round, root: string, txNum: int, clientMax: nat): Round {
    if Accepts(r, root, clientMax) then Round(Voted(r.votes, root), r.txNum + txNum, true)
    else r.(votes := Voted(r.votes, root))
  }

  /** The latch is closed exactly when some root has enough votes, and an open round counts nothing. */
  ghost predicate Latched(r: Round, clientMax: nat) {
    && (r.validEnd <==> HasQuorum(r.votes, clientMax))
    && (!r.validEnd ==> r.txNum == 0)
  }

  lemma CollectedLatched(r: Round, root: string, txNum: int, clientMax: nat)
    requires Latched(r, clientMax)
    ensures Latched(Collected(r, root, txNum, clientMax), clientMax)
  {
    if r.validEnd {
      var best :| best in r.votes && TwoThirds(r.votes[best], clientMax);
      assert TwoThirds(Voted(r.votes, root)[best], clientMax);
    }
  }

  function FreshRounds(n: nat): (rounds: map<int, Round>)
    ensures forall i :: i in rounds <==> 1 <= i <= n
    ensures forall i :: i in rounds ==> rounds[i] == FRESH
  {
    if n == 0 then map[] else FreshRounds(n - 1)[n := FRESH]
  }

  lemma FreshIsOpen(clientMax: nat)
    ensures !HasQuorum(FRESH.votes, clientMax)
  {
  }

  /** How many votes for one root close the latch. */
  function Needed(clientMax: nat): nat {
    if MinVote(clientMax) == 0 then 1 else MinVote(clientMax)
  }

  /** A round after `k` votes for one root. */
  function AfterVotes(root: string, k: nat): Round {
    Round(if k == 0 then map[] else map[root := k], 0, false)
  }

  /** The vote number `Needed` closes the latch, and no vote before it. */
  lemma NextVote(root: string, txNum: int, k: nat, clientMax: nat)
    requires k < Needed(clientMax)
    ensures Accepts(AfterVotes(root, k), root, clientMax) <==> k + 1 == Needed(clientMax)
    ensures Collected(AfterVotes(root, k), root, txNum, clientMax) ==
      if k + 1 == Needed(clientMax) then Round(map[root := k + 1], txNum, true) else AfterVotes(root, k + 1)
  {
    var votes := Voted(AfterVotes(root, k).votes, root);
    assert votes == map[root := k + 1];
    assert votes[root] == k + 1;
  }

  lemma OpenBelow(root: string, k: nat, clientMax: nat)
    requires k < Needed(clientMax)
    ensures !HasQuorum(AfterVotes(root, k).votes, clientMax)
  {
  }

  /** Rounds after the first `n` shards were reset. */
  function Refreshed(rounds: map<int, Round>, n: nat): (r: map<int, Round>) {
    if n == 0 then rounds else Refreshed(rounds, n - 1)[n := FRESH]
  }

  lemma {:induction false} RefreshedTo(rounds: map<int, Round>, n: nat)
    ensures Refreshed(rounds, n) == rounds + FreshRounds(n)
  {
    if n > 0 { RefreshedTo(rounds, n - 1); }
  }

  lemma AllRefreshed(rounds: map<int, Round>, n: nat)
    requires forall s :: s in rounds <==> 1 <= s <= n
    ensures Refreshed(rounds, n) == FreshRounds(n)
  {
    RefreshedTo(rounds, n);
  }

  ghost predicate UniqueRoot(votes: map<string, nat>, c: nat) {
    forall a, b :: a in votes && b in votes && TwoThirds(votes[a], c) && TwoThirds(votes[b], c) ==> a == b
  }

  ghost predicate Counted(votes: map<string, nat>) {
    forall root :: root in votes ==> votes[root] > 0
  }

  lemma TwoRootsWithin(votes: map<string, nat>, a: string, b: string)
    requires a in votes && b in votes && a != b
    ensures votes[a] + votes[b] <= MapSums.Sum(votes)
  {
    MapSums.SumRemove(votes, a);
    MapSums.SumRemove(votes - {a}, b);
    MapSums.SumNonNegative(votes - {a} - {b});
  }

  /** With at most one vote per client no two roots of a round can both have enough, whatever the votes,
      if and only if there are neither 2 nor 4 clients. */
  lemma RootUniqueIff(c: nat)
    ensures (forall votes: map<string, nat> :: Counted(votes) && MapSums.Sum(votes) <= c ==> UniqueRoot(votes, c))
      <==> c != 2 && c != 4
  {
    if c == 2 || c == 4 {
      var votes: map<string, nat> := map["a" := c / 2, "b" := c / 2];
      assert votes == map[]["a" := c / 2]["b" := c / 2];
      MapSums.SumUpdate(map[], "a", c / 2);
      MapSums.SumUpdate(map[]["a" := c / 2], "b", c / 2);
      assert Counted(votes) && MapSums.Sum(votes) == c;
      assert "a" in votes && "b" in votes && TwoThirds(votes["a"], c) && TwoThirds(votes["b"], c) && "a" != "b";
    } else {
      forall votes: map<string, nat> | Counted(votes) && MapSums.Sum(votes) <= c ensures UniqueRoot(votes, c) {
        forall a, b | a in votes && b in votes && TwoThirds(votes[a], c) && TwoThirds(votes[b], c) ensures a == b {
          if a != b { TwoRootsWithin(votes, a, b); }
        }
      }
    }
  }
}
