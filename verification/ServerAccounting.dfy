/** Rounds, throughput and relay pools over all runs of the server. */
module ServerAccounting {
  import opened Data
  import opened PoolSpec
  import opened Rounds
  import opened Server

  ghost predicate AllLatched(g: Genesis, rounds: map<int, Round>) {
    forall i :: i in rounds ==> Latched(rounds[i], g.clientMax)
  }

  lemma StepLatched(g: Genesis, s: State, e: Event)
    requires Enabled(g, s, e) && AllLatched(g, s.rounds)
    ensures AllLatched(g, Step(g, s, e).rounds)
  {
    hide Step, Executes;
    StepFields(g, s, e);
    FreshIsOpen(g.clientMax);
    if e.Collect? { CollectedLatched(s.rounds[e.shard], e.root, e.txNum, g.clientMax); }
  }

  /** In every reachable state a shard's latch is closed exactly when some root has its votes, and
      an open round reports nothing. */
  lemma {:induction false} RunLatched(g: Genesis, es: seq<Event>)
    requires ValidRun(g, es)
    ensures AllLatched(g, Run(g, es).rounds)
  {
    hide Step, Enabled, AllLatched;
    if es == [] {
      InitialLatched(g);
    } else {
      RunLatched(g, es[..|es| - 1]);
      StepLatched(g, Run(g, es[..|es| - 1]), es[|es| - 1]);
    }
  }

  lemma InitialLatched(g: Genesis)
    ensures AllLatched(g, Initial(g).rounds)
  {
    FreshIsOpen(g.clientMax);
  }

  /** What the shards up to `n` have accepted since the last commit. */
  function PendingSum(rounds: map<int, Round>, n: nat): int {
    if n == 0 then 0 else PendingSum(rounds, n - 1) + (if n in rounds then rounds[n].txNum else 0)
  }

  /** A commit counts everything that is pending: what it skips is zero. */
  lemma {:induction false} CountsAllPending(g: Genesis, rounds: map<int, Round>, n: nat)
    requires AllLatched(g, rounds)
    ensures CountedSum(rounds, n, g.clientMax) == PendingSum(rounds, n)
  {
    if n > 0 { CountsAllPending(g, rounds, n - 1); }
  }

  lemma {:induction false} PendingUpdate(rounds: map<int, Round>, n: nat, k: int, r: Round)
    requires k in rounds
    ensures PendingSum(rounds[k := r], n) ==
      PendingSum(rounds, n) + (if 1 <= k <= n then r.txNum - rounds[k].txNum else 0)
  {
    if n > 0 { PendingUpdate(rounds, n - 1, k, r); }
  }

  lemma {:induction false} FreshPending(n: nat, k: nat)
    ensures PendingSum(FreshRounds(n), k) == 0
  {
    if k > 0 { FreshPending(n, k - 1); }
  }

  /** The transactions of all rounds accepted in a run. */
  ghost function AcceptedTotal(g: Genesis, es: seq<Event>): int
    requires ValidRun(g, es)
  {
    if es == [] then 0
    else
      AcceptedTotal(g, es[..|es| - 1])
        + (if AcceptsRound(g, Run(g, es[..|es| - 1]), es[|es| - 1]) then es[|es| - 1].txNum else 0)
  }

  lemma StepThroughput(g: Genesis, s: State, e: Event)
    requires Enabled(g, s, e) && AllLatched(g, s.rounds)
    requires forall i :: i in s.rounds <==> 1 <= i <= g.shards
    ensures var s' := Step(g, s, e);
      s'.total + PendingSum(s'.rounds, g.shards) ==
        s.total + PendingSum(s.rounds, g.shards) + (if AcceptsRound(g, s, e) then e.txNum else 0)
  {
    hide Step, ExitsOn, Packed, Wins;
    StepFields(g, s, e);
    CountsAllPending(g, s.rounds, g.shards);
    FreshPending(g.shards, g.shards);
    if e.Collect? {
      PendingUpdate(s.rounds, g.shards, e.shard, Collected(s.rounds[e.shard], e.root, e.txNum, g.clientMax));
    }
  }

  /** Throughput accounting: with atomic handlers the reported total and what is still pending add up
      to exactly the transactions of the accepted rounds. */
  lemma {:induction false} Throughput(g: Genesis, es: seq<Event>)
    requires ValidRun(g, es)
    ensures var s := Run(g, es);
      s.total + PendingSum(s.rounds, g.shards) == AcceptedTotal(g, es)
  {
    hide Step, Enabled, AcceptsRound, AllLatched;
    if es == [] {
      FreshPending(g.shards, g.shards);
    } else {
      var init := es[..|es| - 1];
      Throughput(g, init);
      RunLatched(g, init);
      RunShape(g, init);
      StepThroughput(g, Run(g, init), es[|es| - 1]);
    }
  }

  /** All relays of `shard` that accepted rounds uploaded, in order. */
  ghost function AcceptedUploads(g: Genesis, es: seq<Event>, shard: int): seq<SuperTransaction>
    requires ValidRun(g, es)
  {
    if es == [] then []
    else
      var s, e := Run(g, es[..|es| - 1]), es[|es| - 1];
      AcceptedUploads(g, es[..|es| - 1], shard)
        + (if AcceptsRound(g, s, e) && e.shard == shard then e.uploads else [])
  }

  lemma StepRelays(g: Genesis, s: State, e: Event, shard: int, uploads: seq<SuperTransaction>)
    requires Enabled(g, s, e) && shard in s.relays && s.relays[shard] == Stored(uploads)
    ensures shard in Step(g, s, e).relays
    ensures Step(g, s, e).relays[shard] ==
      Stored(uploads + (if AcceptsRound(g, s, e) && e.shard == shard then e.uploads else []))
  {
    hide Step, Executes;
    StepFields(g, s, e);
    if AcceptsRound(g, s, e) && e.shard == shard {
      assert Stored(uploads + e.uploads) == Stored(uploads) + Stored(e.uploads);
    } else {
      assert uploads + [] == uploads;
    }
  }

  /** The relay pool of a shard is the concatenation of all accepted uploads, and what is packed
      from it are the last `v` of them, unchanged, or none when there are fewer. */
  lemma {:induction false} RelayPool(g: Genesis, es: seq<Event>, shard: int)
    requires ValidRun(g, es) && shard in g.members
    ensures shard in Run(g, es).relays && Run(g, es).relays[shard] == Stored(AcceptedUploads(g, es, shard))
    ensures NextBlock(g, Run(g, es)).superList[shard] == LastEntries(AcceptedUploads(g, es, shard), g.v)
  {
    hide Step, Enabled, AcceptsRound;
    if es != [] {
      RelayPool(g, es[..|es| - 1], shard);
      StepRelays(g, Run(g, es[..|es| - 1]), es[|es| - 1], shard, AcceptedUploads(g, es[..|es| - 1], shard));
    }
    RelayRoundTrip(AcceptedUploads(g, es, shard), g.v);
  }

  /** How often `root` was uploaded for `shard` since the last commit that was executed. */
  ghost function RootVotes(g: Genesis, es: seq<Event>, shard: int, root: string): nat
    requires ValidRun(g, es)
  {
    if es == [] then 0
    else
      var s, e := Run(g, es[..|es| - 1]), es[|es| - 1];
      if Executes(g, s, e) then 0
      else
        RootVotes(g, es[..|es| - 1], shard, root)
          + (if e.Collect? && e.shard == shard && e.root == root then 1 else 0)
  }

  function VotesFor(votes: map<string, nat>, root: string): nat {
    if root in votes then votes[root] else 0
  }

  lemma StepVotes(g: Genesis, s: State, e: Event, shard: int, root: string)
    requires Enabled(g, s, e) && Shape(g, s) && 1 <= shard <= g.shards
    ensures shard in s.rounds && shard in Step(g, s, e).rounds
    ensures VotesFor(Step(g, s, e).rounds[shard].votes, root) ==
      if Executes(g, s, e) then 0
      else VotesFor(s.rounds[shard].votes, root) + (if e.Collect? && e.shard == shard && e.root == root then 1 else 0)
    ensures Counted(s.rounds[shard].votes) ==> Counted(Step(g, s, e).rounds[shard].votes)
  {
    hide Step, ExitsOn, NextBlock, Commits, HasQuorum;
    StepFields(g, s, e);
  }

  /** In every reachable state a shard has for each root as many votes as it was uploaded since the
      last commit. */
  lemma {:induction false} VotesAreUploads(g: Genesis, es: seq<Event>, shard: int, root: string)
    requires ValidRun(g, es) && 1 <= shard <= g.shards
    ensures shard in Run(g, es).rounds && Counted(Run(g, es).rounds[shard].votes)
    ensures VotesFor(Run(g, es).rounds[shard].votes, root) == RootVotes(g, es, shard, root)
  {
    hide Step, Enabled, Shape, Executes, Counted;
    if es == [] {
      NothingCast(g, shard);
    } else {
      var init := es[..|es| - 1];
      VotesAreUploads(g, init, shard, root);
      RunShape(g, init);
      StepVotes(g, Run(g, init), es[|es| - 1], shard, root);
    }
  }

  lemma NothingCast(g: Genesis, shard: int)
    requires 1 <= shard <= g.shards
    ensures shard in Initial(g).rounds && Initial(g).rounds[shard].votes == map[] && Counted(map[])
  {
  }

  /** The latch in terms of uploads: closed exactly when some root was uploaded, since the last commit,
      at least two thirds of the number of clients, rounded down. */
  lemma LatchIff(g: Genesis, es: seq<Event>, shard: int)
    requires ValidRun(g, es) && 1 <= shard <= g.shards
    ensures shard in Run(g, es).rounds
    ensures Run(g, es).rounds[shard].validEnd <==>
      exists root ::
        RootVotes(g, es, shard, root) > 0 && 3 * RootVotes(g, es, shard, root) + 2 >= 2 * g.clientMax
  {
    hide Run, ValidRun, RootVotes, Counted;
    VotesAreUploads(g, es, shard, "");
    RunLatched(g, es);
    var votes := Run(g, es).rounds[shard].votes;
    forall root ensures VotesFor(votes, root) == RootVotes(g, es, shard, root) {
      VotesAreUploads(g, es, shard, root);
    }
    if Run(g, es).rounds[shard].validEnd {
      var root :| root in votes && TwoThirds(votes[root], g.clientMax);
      CountedAt(votes, root);
      assert RootVotes(g, es, shard, root) > 0 && 3 * RootVotes(g, es, shard, root) + 2 >= 2 * g.clientMax;
    }
    if root :| RootVotes(g, es, shard, root) > 0 && 3 * RootVotes(g, es, shard, root) + 2 >= 2 * g.clientMax {
      assert VotesFor(votes, root) > 0;
      assert root in votes && TwoThirds(votes[root], g.clientMax);
    }
  }

  lemma CountedAt(votes: map<string, nat>, root: string)
    requires Counted(votes) && root in votes
    ensures votes[root] > 0
  {
  }
}
