/** The server can be brought to exit: a run that ends in a failed guard. */
module ServerExit {
  import opened Data
  import opened BlockExecution
  import opened PoolSpec
  import opened Rounds
  import opened Consensus
  import opened Server
  import opened ServerLedger
  import opened ServerOrder

  lemma RunMore(g: Genesis, es: seq<Event>, e: Event)
    requires ValidRun(g, es) && Enabled(g, Run(g, es), e)
    ensures ValidRun(g, es + [e]) && Run(g, es + [e]) == Step(g, Run(g, es), e)
  {
    assert (es + [e])[..|es|] == es;
  }

  lemma VoteStep(g: Genesis, s: State, shard: int, root: string, uploads: seq<SuperTransaction>, k: nat)
    requires shard in s.rounds && shard in s.relays && !s.fatal
    requires k < Needed(g.clientMax) && s.rounds[shard] == AfterVotes(root, k)
    ensures var e := Collect(shard, root, 0, uploads);
      && Enabled(g, s, e)
      && Step(g, s, e) ==
           if k + 1 < Needed(g.clientMax) then s.(rounds := s.rounds[shard := AfterVotes(root, k + 1)])
           else s.(rounds := s.rounds[shard := Round(map[root := k + 1], 0, true)],
                   relays := s.relays[shard := s.relays[shard] + Stored(uploads)])
  {
    hide Accepts, Collected;
    NextVote(root, 0, k, g.clientMax);
  }

  /** Votes for one root of a shard, one short of closing its latch. */
  lemma {:induction false} VotesRun(
    g: Genesis, start: seq<Event>, shard: int, root: string, uploads: seq<SuperTransaction>, k: nat)
    returns (es: seq<Event>)
    requires ValidRun(g, start) && k < Needed(g.clientMax)
    requires var s := Run(g, start); !s.fatal && shard in s.rounds && shard in s.relays && s.rounds[shard] == FRESH
    ensures ValidRun(g, es)
    ensures Run(g, es) == Run(g, start).(rounds := Run(g, start).rounds[shard := AfterVotes(root, k)])
  {
    hide Run, ValidRun, Step, Enabled;
    if k == 0 {
      es := start;
      assert Run(g, start).rounds[shard := FRESH] == Run(g, start).rounds;
    } else {
      es := VotesRun(g, start, shard, root, uploads, k - 1);
      VoteStep(g, Run(g, es), shard, root, uploads, k - 1);
      RunMore(g, es, Collect(shard, root, 0, uploads));
      es := es + [Collect(shard, root, 0, uploads)];
    }
  }

  /** A relay pool that ends in a misplaced relay makes the next commit fail. */
  lemma MisplacedFails(g: Genesis, s: State, shard: int, bad: SuperTransaction)
    requires AllReady(g) && MembersOf(s.ledger) == g.members && shard in g.members
    requires !RelayAllowed(g.members, shard, bad)
    requires shard in s.relays && s.relays[shard] == Stored(seq(g.v, i => bad))
    ensures ExitsOn(s.ledger, NextBlock(g, s))
  {
    hide EntriesReady, RelayAllowed, ExitsOn, NextBlock;
    RelayRoundTrip(seq(g.v, i => bad), g.v);
    assert RelaysAt(g, s.relays, shard)[0] == bad;
    assert !RelaysFit(g, s.relays, shard);
    ExitIffMisplacedRelay(g, s);
  }

  /** One more upload of the only block of the only tally. */
  lemma OneMoreUpload(g: Genesis, s: State, block: ProposalBlock, p: nat)
    requires s.tallies == [TwoBlocks(g.keyOf, block, p, block, 0)]
    ensures AfterRecord(g, s, 0, block).tallies == [map[g.keyOf(block) := LeaderInfo(block, p + 1)]]
    ensures Total(map[g.keyOf(block) := LeaderInfo(block, p + 1)]) == p + 1
  {
    TwoBlocksTotal(g.keyOf, block, p + 1, block, 0);
    hide Total;
    assert Recorded(s.tallies[0], g.keyOf(block), block) == map[g.keyOf(block) := LeaderInfo(block, p + 1)];
  }

  /** The upload that reaches the number of proposers with one single block commits it. */
  lemma OnlyBlockCommits(g: Genesis, s: State, block: ProposalBlock, p: nat)
    requires block.height == 1 && !s.fatal && s.rows == []
    requires s.tallies == [TwoBlocks(g.keyOf, block, p, block, 0)]
    requires p == if g.proposers == 0 then 0 else g.proposers - 1
    ensures var e := Submit(0, block, g.keyOf(block), 0); Enabled(g, s, e) && Commits(g, s, e)
  {
    hide Total, RecordedIn, TwoBlocks;
    OneMoreUpload(g, s, block, p);
  }

  /** For every configuration: if `v` accepted relays of a shard do not fit it, the next commit ends the
      server. */
  lemma ExitIsReachable(g: Genesis, shard: int, root: string, bad: SuperTransaction, block: ProposalBlock)
    returns (es: seq<Event>)
    requires AllReady(g) && shard in g.members && 1 <= shard <= g.shards
    requires !RelayAllowed(g.members, shard, bad) && block.height == 1
    ensures ValidRun(g, es) && Run(g, es).fatal
  {
    hide Run, ValidRun, Step, Enabled, Commits, ExitsOn, NextBlock, AllReady, RelayAllowed;
    var uploads := seq(g.v, i => bad);
    var p := if g.proposers == 0 then 0 else g.proposers - 1;
    es := UndecidedRun(g, block, p, block, 0);
    es := VotesRun(g, es, shard, root, uploads, Needed(g.clientMax) - 1);
    VoteStep(g, Run(g, es), shard, root, uploads, Needed(g.clientMax) - 1);
    RunMore(g, es, Collect(shard, root, 0, uploads));
    es := es + [Collect(shard, root, 0, uploads)];
    var s, e := Run(g, es), Submit(0, block, g.keyOf(block), 0);
    OnlyBlockCommits(g, s, block, p);
    RunShape(g, es);
    assert s.relays[shard] == Stored(uploads);
    MisplacedFails(g, s, shard, bad);
    StepFields(g, s, e);
    RunMore(g, es, e);
    es := es + [e];
  }
}
