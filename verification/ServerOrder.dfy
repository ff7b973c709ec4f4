/** When the outcome of an upload depends on the order in which the tally is scanned. */
module ServerOrder {
  import opened Data
  import opened Consensus
  import opened Server
  import opened ServerCommits

  /** The live tally right after an upload of `block` to tally `m`. */
  function LiveAfter(g: Genesis, s: State, m: nat, block: ProposalBlock): Tally
    requires m < |s.tallies|
  {
    Live(AfterRecord(g, s, m, block))
  }

  /** The upload makes the server decide, and two different keys share the highest count, at the quorum,
      one of them with a block of the next height. */
  ghost predicate Contested(g: Genesis, s: State, m: nat, block: ProposalBlock)
    requires m < |s.tallies|
  {
    var live := LiveAfter(g, s, m, block);
    && Total(AfterRecord(g, s, m, block).tallies[m]) >= g.proposers
    && exists a, b ::
         && a != b && IsWinner(live, a) && IsWinner(live, b)
         && live[a].count >= Quorum(g.proposers) && live[a].block.height == Height(s) + 1
  }

  /** What an upload decides for, if anything. */
  ghost function Decision(g: Genesis, s: State, e: Event): Option<ProposalBlock>
    requires e.Submit? && e.tally < |s.tallies|
  {
    if Commits(g, s, e) then Some(LiveAfter(g, s, e.tally, e.block)[e.winner].block) else None
  }

  /** Every order of the scan leads to the same decision. */
  ghost predicate OneDecision(g: Genesis, s: State, m: nat, block: ProposalBlock, now: int)
    requires m < |s.tallies|
  {
    forall v, w :: Enabled(g, s, Submit(m, block, v, now)) && Enabled(g, s, Submit(m, block, w, now)) ==>
      Decision(g, s, Submit(m, block, v, now)) == Decision(g, s, Submit(m, block, w, now))
  }

  /** In reachable states a tally stores each block under its own key. */
  lemma LiveKeyed(g: Genesis, es: seq<Event>, m: nat, block: ProposalBlock)
    requires ValidRun(g, es) && m < |Run(g, es).tallies|
    ensures var live := LiveAfter(g, Run(g, es), m, block); Positive(live) && Keyed(live, g.keyOf)
  {
    hide Run, ValidRun, Faithful, Recorded, Uploads;
    var s, e := Run(g, es), Submit(m, block, "", 0);
    TalliesFaithful(g, es);
    RecordFaithful(g, es, e, s.tallies);
    assert Faithful(g, es + [e], |s.tallies| - 1, LiveAfter(g, s, m, block));
    FaithfulPositive(g, es + [e], |s.tallies| - 1, LiveAfter(g, s, m, block));
  }

  /** Two ends of the scan that differ are a contest as soon as one of them commits. */
  lemma TwoEndsContest(g: Genesis, s: State, m: nat, block: ProposalBlock, v: string, w: string, now: int)
    requires m < |s.tallies| && v != w && Commits(g, s, Submit(m, block, v, now))
    requires Enabled(g, s, Submit(m, block, v, now)) && Enabled(g, s, Submit(m, block, w, now))
    ensures Contested(g, s, m, block)
  {
    hide Total, IsWinner, Quorum, VerifyMinVote, Recorded;
    var live := LiveAfter(g, s, m, block);
    assert live != map[];
    assert IsWinner(live, v) && IsWinner(live, w);
  }

  /** Without a contest the outcome is one: the same decision, by the same key, and the same state. */
  lemma UncontestedIsUnique(g: Genesis, s: State, m: nat, block: ProposalBlock, v: string, w: string, now: int)
    requires m < |s.tallies| && !Contested(g, s, m, block)
    requires Enabled(g, s, Submit(m, block, v, now)) && Enabled(g, s, Submit(m, block, w, now))
    ensures Commits(g, s, Submit(m, block, v, now)) ==> v == w
    ensures Commits(g, s, Submit(m, block, v, now)) <==> Commits(g, s, Submit(m, block, w, now))
    ensures Step(g, s, Submit(m, block, v, now)) == Step(g, s, Submit(m, block, w, now))
  {
    hide Contested, Enabled, Commits, Commit;
    if v != w {
      if Commits(g, s, Submit(m, block, v, now)) { TwoEndsContest(g, s, m, block, v, w, now); }
      if Commits(g, s, Submit(m, block, w, now)) { TwoEndsContest(g, s, m, block, w, v, now); }
    }
  }

  /** A contest has two outcomes: one order commits a block, another one a different block or none. */
  lemma ContestedIsSplit(g: Genesis, s: State, m: nat, block: ProposalBlock, now: int)
    requires m < |s.tallies| && !s.fatal && Contested(g, s, m, block)
    requires Keyed(LiveAfter(g, s, m, block), g.keyOf)
    ensures !OneDecision(g, s, m, block, now)
  {
    hide Total, Recorded, Quorum, VerifyMinVote;
    var live := LiveAfter(g, s, m, block);
    var a, b :| a != b && IsWinner(live, a) && IsWinner(live, b)
      && live[a].count >= Quorum(g.proposers) && live[a].block.height == Height(s) + 1;
    VerifyRejectsOnlyHeight(g.proposers, live[a].count);
    assert live[a].block != live[b].block;
    assert Enabled(g, s, Submit(m, block, a, now)) && Enabled(g, s, Submit(m, block, b, now));
    assert Decision(g, s, Submit(m, block, a, now)) == Some(live[a].block);
  }

  /** In every reachable state and for every upload: all orders of the scan lead to the same decision
      if and only if the upload is not contested. */
  lemma OneDecisionIff(g: Genesis, es: seq<Event>, m: nat, block: ProposalBlock, now: int)
    requires ValidRun(g, es) && !Run(g, es).fatal && m < |Run(g, es).tallies|
    ensures OneDecision(g, Run(g, es), m, block, now) <==> !Contested(g, Run(g, es), m, block)
  {
    hide Run, ValidRun, Contested, Enabled, Commits, Step, LiveAfter;
    var s := Run(g, es);
    LiveKeyed(g, es, m, block);
    if Contested(g, s, m, block) {
      ContestedIsSplit(g, s, m, block, now);
    } else {
      forall v, w | Enabled(g, s, Submit(m, block, v, now)) && Enabled(g, s, Submit(m, block, w, now))
        ensures Decision(g, s, Submit(m, block, v, now)) == Decision(g, s, Submit(m, block, w, now))
      {
        UncontestedIsUnique(g, s, m, block, v, w, now);
      }
    }
  }

  /** A bound that rules contests out: at most as many uploads as proposers, and neither 2 nor 4. */
  lemma UncontestedWithin(g: Genesis, es: seq<Event>, m: nat, block: ProposalBlock)
    requires ValidRun(g, es) && m < |Run(g, es).tallies|
    requires Total(LiveAfter(g, Run(g, es), m, block)) <= g.proposers && g.proposers != 2 && g.proposers != 4
    ensures !Contested(g, Run(g, es), m, block)
  {
    hide Run, ValidRun, Total;
    LiveKeyed(g, es, m, block);
    UniqueWithin(LiveAfter(g, Run(g, es), m, block), g.proposers);
  }

  /** One more upload to the first tally, of a block that is not in the majority or not decided on. */
  lemma UndecidedStep(g: Genesis, s: State, a: ProposalBlock, p: nat, b: ProposalBlock, j: nat)
    requires (j > 0 ==> g.keyOf(a) != g.keyOf(b)) && 0 < p && j <= p
    requires a.height != 1 || p + j < g.proposers
    requires s == Initial(g).(tallies :=
      [if j > 0 then TwoBlocks(g.keyOf, a, p, b, j - 1) else TwoBlocks(g.keyOf, a, p - 1, b, 0)])
    ensures var e := Submit(0, if j > 0 then b else a, g.keyOf(a), 0);
      && Enabled(g, s, e)
      && Step(g, s, e) == s.(tallies := [TwoBlocks(g.keyOf, a, p, b, j)])
  {
    hide Total;
    TwoBlocksTotal(g.keyOf, a, p, b, j);
    var block := if j > 0 then b else a;
    assert Recorded(s.tallies[0], g.keyOf(block), block) == TwoBlocks(g.keyOf, a, p, b, j);
    assert AfterRecord(g, s, 0, block).tallies == [TwoBlocks(g.keyOf, a, p, b, j)];
  }

  /** A run of `p` uploads of `a`, then `j` of `b`, none of which commits. */
  lemma {:induction false} UndecidedRun(g: Genesis, a: ProposalBlock, p: nat, b: ProposalBlock, j: nat)
    returns (es: seq<Event>)
    requires (j > 0 ==> g.keyOf(a) != g.keyOf(b)) && j <= p
    requires p == 0 || a.height != 1 || p + j < g.proposers
    ensures ValidRun(g, es) && Run(g, es) == Initial(g).(tallies := [TwoBlocks(g.keyOf, a, p, b, j)])
    decreases p, j
  {
    hide Step, Enabled;
    if p == 0 {
      es := [];
    } else {
      if j > 0 {
        es := UndecidedRun(g, a, p, b, j - 1);
      } else {
        es := UndecidedRun(g, a, p - 1, b, 0);
      }
      var e := Submit(0, if j > 0 then b else a, g.keyOf(a), 0);
      UndecidedStep(g, Run(g, es), a, p, b, j);
      assert (es + [e])[..|es|] == es;
      es := es + [e];
    }
  }

  /** The upload that evens two blocks out at the quorum is contested. */
  lemma EvenIsContested(g: Genesis, s: State, a: ProposalBlock, b: ProposalBlock, p: nat)
    requires g.keyOf(a) != g.keyOf(b) && b.height == 1
    requires p > 0 && p >= Quorum(g.proposers) && 2 * p >= g.proposers
    requires s == Initial(g).(tallies := [TwoBlocks(g.keyOf, a, p, b, p - 1)])
    ensures Contested(g, s, 0, b) && Total(LiveAfter(g, s, 0, b)) == 2 * p
  {
    hide Total;
    TwoBlocksTotal(g.keyOf, a, p, b, p);
    assert Recorded(s.tallies[0], g.keyOf(b), b) == TwoBlocks(g.keyOf, a, p, b, p);
    assert AfterRecord(g, s, 0, b).tallies == [TwoBlocks(g.keyOf, a, p, b, p)];
    assert IsWinner(LiveAfter(g, s, 0, b), g.keyOf(b)) && IsWinner(LiveAfter(g, s, 0, b), g.keyOf(a));
  }

  /** Contests are reachable for every number of proposers: a block of a wrong height that wins the scan
      is rejected, but its tally stays, and a second block can draw level with it. */
  lemma ContestIsReachable(g: Genesis, a: ProposalBlock, b: ProposalBlock) returns (es: seq<Event>)
    requires g.keyOf(a) != g.keyOf(b) && a.height != 1 && b.height == 1
    ensures ValidRun(g, es) && !Run(g, es).fatal && |Run(g, es).tallies| == 1
    ensures Contested(g, Run(g, es), 0, b)
  {
    hide Run, ValidRun, Contested;
    var p := if Quorum(g.proposers) == 0 then 1 else Quorum(g.proposers);
    es := UndecidedRun(g, a, p, b, p - 1);
    EvenIsContested(g, Run(g, es), a, b, p);
  }

  /** With 2 or 4 proposers one upload of each is enough, even if every block has the next height. */
  lemma SplitVoteIsReachable(g: Genesis, a: ProposalBlock, b: ProposalBlock) returns (es: seq<Event>)
    requires g.proposers == 2 || g.proposers == 4
    requires g.keyOf(a) != g.keyOf(b) && a.height == 1 && b.height == 1
    ensures ValidRun(g, es) && !Run(g, es).fatal && |Run(g, es).tallies| == 1
    ensures Total(LiveAfter(g, Run(g, es), 0, b)) == g.proposers
    ensures Contested(g, Run(g, es), 0, b)
  {
    hide Run, ValidRun, Contested;
    var p := g.proposers / 2;
    es := UndecidedRun(g, a, p, b, p - 1);
    EvenIsContested(g, Run(g, es), a, b, p);
  }
}
