/** How many uploads stand behind a decision: the count that opens it is taken from the captured tally,
    the decision from the live one. */
module ServerTotals {
  import opened Data
  import opened BlockExecution
  import opened Consensus
  import opened PoolSpec
  import opened Rounds
  import opened Server
  import opened ServerCommits
  import opened ServerLedger
  import opened ServerOrder
  import opened ServerExit
  import MapSums

  lemma RecordedTotal(t: Tally, key: string, block: ProposalBlock)
    ensures Total(Recorded(t, key, block)) == Total(t) + 1
  {
    var t' := Recorded(t, key, block);
    assert Counts(t') == Counts(t)[key := t'[key].count];
    MapSums.SumUpdate(Counts(t), key, t'[key].count);
  }

  lemma EmptyTotal()
    ensures Total(map[]) == 0
  {
    assert Counts(map[]) == map[];
  }

  /** The uploads of a run that were recorded in tally `m`. */
  ghost function UploadsTo(es: seq<Event>, m: nat): nat {
    if es == [] then 0
    else
      var e := es[|es| - 1];
      UploadsTo(es[..|es| - 1], m) + (if e.Submit? && e.tally == m then 1 else 0)
  }

  ghost predicate TotalsAre(es: seq<Event>, tallies: seq<Tally>) {
    && (forall m: nat :: m < |tallies| ==> Total(tallies[m]) == UploadsTo(es, m))
    && (forall m: nat :: m >= |tallies| ==> UploadsTo(es, m) == 0)
  }

  lemma StepTotals(g: Genesis, es: seq<Event>, s: State, e: Event)
    requires TotalsAre(es, s.tallies) && Enabled(g, s, e)
    ensures TotalsAre(es + [e], Step(g, s, e).tallies)
  {
    hide Total, Step, Commits, Executes, Recorded, UploadsTo;
    StepChain(g, s, e);
    EmptyTotal();
    forall m: nat ensures UploadsTo(es + [e], m) == UploadsTo(es, m) + (if e.Submit? && e.tally == m then 1 else 0) {
      UploadsToNext(es, e, m);
    }
    if e.Submit? { RecordedTotal(s.tallies[e.tally], g.keyOf(e.block), e.block); }
  }

  lemma UploadsToNext(es: seq<Event>, e: Event, m: nat)
    ensures UploadsTo(es + [e], m) == UploadsTo(es, m) + (if e.Submit? && e.tally == m then 1 else 0)
  {
    assert (es + [e])[..|es|] == es;
  }

  /** In every reachable state a tally's total is the number of uploads recorded in it. */
  lemma {:induction false} TotalIsUploads(g: Genesis, es: seq<Event>)
    requires ValidRun(g, es)
    ensures TotalsAre(es, Run(g, es).tallies)
  {
    hide Step, Enabled, Total;
    if es == [] {
      EmptyTotal();
    } else {
      var init, e := es[..|es| - 1], es[|es| - 1];
      TotalIsUploads(g, init);
      StepTotals(g, init, Run(g, init), e);
      assert init + [e] == es;
    }
  }

  /** The upload finds enough uploads in its tally, but no block is committed. */
  ghost predicate Rejects(g: Genesis, s: State, e: Event) {
    && e.Submit? && e.tally < |s.tallies|
    && Total(AfterRecord(g, s, e.tally, e.block).tallies[e.tally]) >= g.proposers && !Commits(g, s, e)
  }

  ghost predicate NoRejection(g: Genesis, es: seq<Event>)
    requires ValidRun(g, es)
  {
    es == []
    || (NoRejection(g, es[..|es| - 1]) && !Rejects(g, Run(g, es[..|es| - 1]), es[|es| - 1]))
  }

  lemma StepBelow(g: Genesis, s: State, e: Event)
    requires Shape(g, s) && Enabled(g, s, e) && !Step(g, s, e).fatal && !Rejects(g, s, e)
    requires g.shards > 0 && g.proposers > 0 && Total(Live(s)) < g.proposers
    ensures Step(g, s, e).tallies != [] && Total(Live(Step(g, s, e))) < g.proposers
  {
    hide Total, Step, Wins, ExitsOn, NextBlock, Recorded;
    StepChain(g, s, e);
    StepFields(g, s, e);
    StepKeepsShape(g, s, e);
    EmptyTotal();
  }

  /** Rejections are the only way to a live tally that reaches the number of proposers. */
  lemma {:induction false} TotalBelow(g: Genesis, es: seq<Event>)
    requires ValidRun(g, es) && NoRejection(g, es) && !Run(g, es).fatal
    requires g.shards > 0 && g.proposers > 0
    ensures Run(g, es).tallies != [] && Total(Live(Run(g, es))) < g.proposers
  {
    hide Step, Shape, Rejects, Total, IsWinner, RecordedIn;
    if es == [] {
      EmptyTotal();
    } else {
      var init := es[..|es| - 1];
      TotalBelow(g, init);
      RunShape(g, init);
      StepBelow(g, Run(g, init), es[|es| - 1]);
    }
  }

  lemma LiveAfterTotal(g: Genesis, s: State, m: nat, block: ProposalBlock)
    requires m < |s.tallies|
    ensures Total(Live(s)) <= Total(LiveAfter(g, s, m, block)) <= Total(Live(s)) + 1
  {
    hide Total, Recorded;
    RecordedTotal(s.tallies[m], g.keyOf(block), block);
  }

  /** Without a rejection so far, and with neither 2 nor 4 proposers, no upload is contested: every
      order of the scan leads to the same outcome. */
  lemma UncontestedWithoutRejection(g: Genesis, es: seq<Event>, m: nat, block: ProposalBlock)
    requires ValidRun(g, es) && NoRejection(g, es) && !Run(g, es).fatal
    requires g.shards > 0 && g.proposers > 0 && g.proposers != 2 && g.proposers != 4
    requires m < |Run(g, es).tallies|
    ensures !Contested(g, Run(g, es), m, block)
  {
    hide *;
    TotalBelow(g, es);
    LiveAfterTotal(g, Run(g, es), m, block);
    UncontestedWithin(g, es, m, block);
  }

  /** A commit through the live tally has at least as many live uploads as there are proposers. */
  lemma LiveCommitIsBacked(g: Genesis, es: seq<Event>, e: Event)
    requires ValidRun(g, es) && Enabled(g, Run(g, es), e) && Commits(g, Run(g, es), e)
    requires e.tally == |Run(g, es).tallies| - 1
    ensures UploadsTo(es + [e], e.tally) >= g.proposers
  {
    hide Run, ValidRun, Total, Wins, Recorded, UploadsTo;
    var s := Run(g, es);
    TotalIsUploads(g, es);
    RecordedTotal(s.tallies[e.tally], g.keyOf(e.block), e.block);
    UploadsToNext(es, e, e.tally);
  }

  lemma NextOfOne(keyOf: ProposalBlock -> string, block: ProposalBlock, k: nat)
    ensures Recorded(TwoBlocks(keyOf, block, k, block, 0), keyOf(block), block) ==
      TwoBlocks(keyOf, block, k + 1, block, 0)
  {
  }

  lemma TalliesAfter(g: Genesis, es: seq<Event>, e: Event)
    requires ValidRun(g, es) && Enabled(g, Run(g, es), e) && e.Submit?
    ensures var s' := AfterRecord(g, Run(g, es), e.tally, e.block);
      var live := |s'.tallies| - 1;
      && Total(s'.tallies[e.tally]) == UploadsTo(es + [e], e.tally)
      && CountOf(Live(s'), e.winner) == Uploads(g, es + [e], live, e.winner)
      && (e.winner in Live(s') ==> Live(s')[e.winner].count > 0)
  {
    hide Run, ValidRun, Total, Recorded, UploadsTo, Uploads, Uploaded;
    var s := Run(g, es);
    TotalIsUploads(g, es);
    RecordedTotal(s.tallies[e.tally], g.keyOf(e.block), e.block);
    UploadsToNext(es, e, e.tally);
    TalliesFaithful(g, es);
    RecordFaithful(g, es, e, s.tallies);
    assert Faithful(g, es + [e], |s.tallies| - 1, LiveAfter(g, s, e.tally, e.block));
  }

  /** When an upload commits, in terms of uploads: its tally has as many as there are proposers, the
      winning key has at least two thirds of that number, rounded down, in the live tally, and its block
      has the next height. */
  lemma CommitsIff(g: Genesis, es: seq<Event>, e: Event)
    requires ValidRun(g, es) && Enabled(g, Run(g, es), e) && e.Submit?
    ensures var s := Run(g, es);
      var live, votes := LiveAfter(g, s, e.tally, e.block), Uploads(g, es + [e], |s.tallies| - 1, e.winner);
      Commits(g, s, e) <==>
        && UploadsTo(es + [e], e.tally) >= g.proposers
        && votes > 0 && 3 * votes + 2 >= 2 * g.proposers
        && e.winner in live && live[e.winner].block.height == |s.chain| + 1
  {
    hide Run, ValidRun, Total, Recorded, UploadsTo, Uploads, Shape, WinsIn;
    var s := Run(g, es);
    TalliesAfter(g, es, e);
    HeightIsLength(g, es);
    WinsMeans(LiveAfter(g, s, e.tally, e.block), g.proposers, Height(s), e.winner);
  }

  /** One more upload of `block` to the live tally, below the number of proposers. */
  lemma OneLiveUpload(g: Genesis, s: State, block: ProposalBlock, k: nat, s0: State)
    requires s0.tallies != [] && !s0.fatal && k + 1 < g.proposers
    requires s == s0.(tallies := s0.tallies[|s0.tallies| - 1 := TwoBlocks(g.keyOf, block, k, block, 0)])
    ensures var e := Submit(|s0.tallies| - 1, block, g.keyOf(block), 0);
      && Enabled(g, s, e)
      && Step(g, s, e) == s0.(tallies := s0.tallies[|s0.tallies| - 1 := TwoBlocks(g.keyOf, block, k + 1, block, 0)])
  {
    var last := |s0.tallies| - 1;
    hide Total, Recorded, TwoBlocks, IsWinner, Wins;
    TwoBlocksTotal(g.keyOf, block, k + 1, block, 0);
    NextOfOne(g.keyOf, block, k);
    assert AfterRecord(g, s, last, block).tallies ==
      s0.tallies[last := TwoBlocks(g.keyOf, block, k + 1, block, 0)];
  }

  lemma {:induction false} LiveUploads(g: Genesis, start: seq<Event>, block: ProposalBlock, k: nat)
    returns (es: seq<Event>)
    requires ValidRun(g, start) && !Run(g, start).fatal && k < g.proposers
    requires Run(g, start).tallies != [] && Live(Run(g, start)) == map[]
    ensures ValidRun(g, es)
    ensures var s := Run(g, start);
      Run(g, es) == s.(tallies := s.tallies[|s.tallies| - 1 := TwoBlocks(g.keyOf, block, k, block, 0)])
  {
    hide Run, ValidRun, Step, Enabled;
    var s := Run(g, start);
    if k == 0 {
      es := start;
      assert s.tallies[|s.tallies| - 1 := map[]] == s.tallies;
    } else {
      es := LiveUploads(g, start, block, k - 1);
      var e := Submit(|s.tallies| - 1, block, g.keyOf(block), 0);
      OneLiveUpload(g, Run(g, es), block, k - 1, s);
      RunMore(g, es, e);
      es := es + [e];
    }
  }

  /** With empty relay pools no commit fails a guard. */
  lemma EmptyPoolsFit(g: Genesis, s: State)
    requires AllReady(g) && MembersOf(s.ledger) == g.members
    requires forall i :: i in s.relays ==> s.relays[i] == []
    ensures !ExitsOn(s.ledger, NextBlock(g, s))
  {
    hide EntriesReady, ExitsOn, NextBlock;
    forall i | i in g.members ensures RelaysFit(g, s.relays, i) {
      assert RelaysAt(g, s.relays, i) == [];
    }
    ExitIffMisplacedRelay(g, s);
  }

  /** The first commit of a run: `n` uploads of one block. */
  lemma FirstCommit(g: Genesis, a: ProposalBlock) returns (es: seq<Event>)
    requires AllReady(g) && g.proposers > 0 && g.shards > 0 && a.height == 1
    ensures ValidRun(g, es) && !Run(g, es).fatal
    ensures var s := Run(g, es);
      && Height(s) == 1 && |s.tallies| == 1 + g.shards && Live(s) == map[]
      && Total(s.tallies[0]) == g.proposers
  {
    hide Run, ValidRun, Step, Enabled, Commits, ExitsOn, NextBlock, AllReady, Total;
    var n := g.proposers;
    es := UndecidedRun(g, a, n - 1, a, 0);
    var s, e := Run(g, es), Submit(0, a, g.keyOf(a), 0);
    OnlyBlockCommits(g, s, a, n - 1);
    OneMoreUpload(g, s, a, n - 1);
    RunShape(g, es);
    EmptyPoolsFit(g, s);
    StepFields(g, s, e);
    StepChain(g, s, e);
    RunMore(g, es, e);
    es := es + [e];
    RunShape(g, es);
    ChainedHeight(Run(g, es).chain, Run(g, es).rows);
  }

  /** The uploads a stale commit can do with. */
  function Enough(n: nat): nat {
    if Quorum(n) == 0 then 1 else Quorum(n)
  }

  /** An upload to a full retired tally decides on a live tally with fewer uploads than proposers. */
  lemma StaleDecides(g: Genesis, s: State, a: ProposalBlock, b: ProposalBlock)
    requires |s.tallies| > 1 && !s.fatal && b.height == Height(s) + 1 && g.proposers >= 2
    requires Total(s.tallies[0]) >= g.proposers
    requires Live(s) == TwoBlocks(g.keyOf, b, Enough(g.proposers), b, 0)
    ensures var e := Submit(0, a, g.keyOf(b), 0);
      && Enabled(g, s, e) && Commits(g, s, e)
      && Total(LiveAfter(g, s, 0, a)) == Enough(g.proposers) < g.proposers
  {
    hide Total, Recorded;
    RecordedTotal(s.tallies[0], g.keyOf(a), a);
    TwoBlocksTotal(g.keyOf, b, Enough(g.proposers), b, 0);
    assert LiveAfter(g, s, 0, a) == Live(s);
  }

  /** Such a commit is reachable for every number of proposers from 2 on: after the first commit, as few
      uploads of the next block as the quorum needs, and one late upload to the first tally. */
  lemma StaleCommitIsReachable(g: Genesis, a: ProposalBlock, b: ProposalBlock)
    returns (es: seq<Event>, e: Event)
    requires AllReady(g) && g.proposers >= 2 && g.shards > 0 && a.height == 1 && b.height == 2
    ensures ValidRun(g, es) && Enabled(g, Run(g, es), e) && Commits(g, Run(g, es), e)
    ensures e.tally < |Run(g, es).tallies| - 1
    ensures UploadsTo(es + [e], |Run(g, es).tallies| - 1) < g.proposers
  {
    hide Run, ValidRun, Enabled, Commits, AllReady, Total, TwoBlocks, UploadsTo, LiveAfter;
    es := FirstCommit(g, a);
    es := LiveUploads(g, es, b, Enough(g.proposers));
    e := Submit(0, a, g.keyOf(b), 0);
    var s := Run(g, es);
    StaleDecides(g, s, a, b);
    LiveAfterTotal(g, s, 0, a);
    TotalIsUploads(g, es);
    UploadsToNext(es, e, |s.tallies| - 1);
  }
}
