/** Every balance in terms of the transactions a run executed, by their fields. */
module ServerBalances {
  import opened Data
  import opened Postings
  import opened BlockExecution
  import opened PoolSpec
  import opened Server
  import opened ServerAccounting
  import opened ServerLedger
  import opened ServerSchedule

  lemma RelaysMore(xs: seq<SuperTransaction>, ys: seq<SuperTransaction>, a: string)
    ensures Delta(RelayPostings(xs + ys), a) == Delta(RelayPostings(xs), a) + Delta(RelayPostings(ys), a)
  {
    assert RelayPostings(xs + ys) == RelayPostings(xs) + RelayPostings(ys);
    DeltaConcat(RelayPostings(xs), RelayPostings(ys), a);
  }

  lemma InternalsMore(xs: seq<InternalTransaction>, ys: seq<InternalTransaction>, a: string)
    ensures Delta(InternalPostings(xs + ys), a) == Delta(InternalPostings(xs), a) + Delta(InternalPostings(ys), a)
  {
    assert InternalPostings(xs + ys) == InternalPostings(xs) + InternalPostings(ys);
    DeltaConcat(InternalPostings(xs), InternalPostings(ys), a);
  }

  lemma CrossesMore(xs: seq<CrossShardTransaction>, ys: seq<CrossShardTransaction>, a: string)
    ensures Delta(CrossPostings(xs + ys), a) == Delta(CrossPostings(xs), a) + Delta(CrossPostings(ys), a)
  {
    assert CrossPostings(xs + ys) == CrossPostings(xs) + CrossPostings(ys);
    DeltaConcat(CrossPostings(xs), CrossPostings(ys), a);
  }

  /** What the three streams of a run book on an account. */
  ghost function StreamsDelta(g: Genesis, es: seq<Event>, shard: int, a: string): int
    requires ValidRun(g, es) && shard in g.members
  {
    Delta(RelayPostings(ExecutedRelays(g, es, shard)), a)
      + Delta(InternalPostings(ExecutedInternals(g, es, shard)), a)
      + Delta(CrossPostings(ExecutedCrosses(g, es, shard)), a)
  }

  lemma StepDelta(g: Genesis, s: State, shard: int, a: string, ps: seq<Posting>)
    requires shard in g.members
    ensures Delta(ps + BlockPostings(NextBlock(g, s), shard), a) ==
      Delta(ps, a) + Delta(RelayPostings(RelaysAt(g, s.relays, shard)), a)
        + Delta(InternalPostings(NextBlock(g, s).internalList[shard]), a)
        + Delta(CrossPostings(NextBlock(g, s).crossShardList[shard]), a)
  {
    hide Delta, RelayPostings, InternalPostings, CrossPostings, RelaysAt, InternalsAt, CrossesAt;
    DeltaConcat(ps, BlockPostings(NextBlock(g, s), shard), a);
    BlockDelta(NextBlock(g, s), shard, a);
  }

  lemma {:induction false} BookedStreams(g: Genesis, es: seq<Event>, shard: int, a: string)
    requires ValidRun(g, es) && shard in g.members
    ensures Delta(Booked(g, es, shard), a) == StreamsDelta(g, es, shard, a)
  {
    hide Step, Enabled, Executes, NextBlock, BlockPostings, RelaysAt;
    if es != [] {
      var init := es[..|es| - 1];
      var s := Run(g, init);
      BookedStreams(g, init, shard, a);
      hide Delta, RelayPostings, InternalPostings, CrossPostings;
      if Executes(g, s, es[|es| - 1]) {
        StepDelta(g, s, shard, a, Booked(g, init, shard));
        KeysOf(g, s, shard);
        RelaysMore(ExecutedRelays(g, init, shard), RelaysAt(g, s.relays, shard), a);
        InternalsMore(ExecutedInternals(g, init, shard), NextBlock(g, s).internalList[shard], a);
        CrossesMore(ExecutedCrosses(g, init, shard), NextBlock(g, s).crossShardList[shard], a);
      } else {
        NoneMore(g, init, shard);
        assert Booked(g, init, shard) + [] == Booked(g, init, shard);
      }
    }
  }

  lemma KeysOf(g: Genesis, s: State, shard: int)
    requires shard in g.members
    ensures shard in NextBlock(g, s).internalList && shard in NextBlock(g, s).crossShardList
  {
  }

  lemma NoneMore(g: Genesis, es: seq<Event>, shard: int)
    requires ValidRun(g, es) && shard in g.members
    ensures ExecutedRelays(g, es, shard) + [] == ExecutedRelays(g, es, shard)
    ensures ExecutedInternals(g, es, shard) + [] == ExecutedInternals(g, es, shard)
    ensures ExecutedCrosses(g, es, shard) + [] == ExecutedCrosses(g, es, shard)
  {
    hide ExecutedRelays, ExecutedInternals, ExecutedCrosses;
  }

  /** In every reachable state a balance is 100000, plus the values of the executed relays and internal
      transactions that name the account as beneficiary, minus those of the executed internal and
      cross-shard transactions that name it as payer. */
  lemma BalanceIs(g: Genesis, es: seq<Event>, shard: int, a: string)
    requires ValidRun(g, es) && shard in g.members && a in g.members[shard]
    ensures shard in Run(g, es).ledger && a in Run(g, es).ledger[shard]
    ensures Run(g, es).ledger[shard][a] ==
      100000 + RelayIn(ExecutedRelays(g, es, shard), a) + InternalIn(ExecutedInternals(g, es, shard), a)
        - InternalOut(ExecutedInternals(g, es, shard), a) - CrossOut(ExecutedCrosses(g, es, shard), a)
  {
    hide Run, ValidRun, Booked, ExecutedRelays, ExecutedInternals, ExecutedCrosses;
    hide Delta, RelayIn, InternalIn, InternalOut, CrossOut, RelayPostings, InternalPostings, CrossPostings;
    LedgerIsBooked(g, es, shard);
    BookedStreams(g, es, shard, a);
    RelayMoves(ExecutedRelays(g, es, shard), a);
    InternalMoves(ExecutedInternals(g, es, shard), a);
    CrossMoves(ExecutedCrosses(g, es, shard), a);
  }

  /** The next commit ends the server if and only if one of the last `v` accepted relays of some shard
      names another shard, or a beneficiary the shard does not have. */
  lemma NextCommitExitsIff(g: Genesis, es: seq<Event>)
    requires AllReady(g) && ValidRun(g, es)
    ensures var s := Run(g, es);
      ExitsOn(s.ledger, NextBlock(g, s)) <==>
        exists i, tx :: i in g.members && tx in LastEntries(AcceptedUploads(g, es, i), g.v)
          && (tx.shard != i || tx.to !in g.members[i])
  {
    hide Run, ValidRun, AcceptedUploads, LastEntries, ExitsOn, NextBlock, AllReady;
    var s := Run(g, es);
    RunShape(g, es);
    ExitIffMisplacedRelay(g, s);
    forall i | i in g.members
      ensures RelaysAt(g, s.relays, i) == LastEntries(AcceptedUploads(g, es, i), g.v)
    {
      RelaysAre(g, es, i);
    }
  }

  lemma RelaysAre(g: Genesis, es: seq<Event>, i: int)
    requires ValidRun(g, es) && i in g.members
    ensures RelaysAt(g, Run(g, es).relays, i) == LastEntries(AcceptedUploads(g, es, i), g.v)
  {
    hide Run, ValidRun, AcceptedUploads, LastEntries;
    RelayPool(g, es, i);
  }
}
