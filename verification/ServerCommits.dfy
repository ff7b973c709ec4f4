/** Commit safety over all runs: what a block on the chain tells about the uploads before it. */
module ServerCommits {
  import opened Data
  import opened Consensus
  import opened Server

  /** Uploads with key `key` that were recorded in tally `m` during a run. */
  ghost function Uploads(g: Genesis, es: seq<Event>, m: nat, key: string): nat {
    if es == [] then 0
    else
      var e := es[|es| - 1];
      Uploads(g, es[..|es| - 1], m, key)
        + (if e.Submit? && e.tally == m && g.keyOf(e.block) == key then 1 else 0)
  }

  ghost predicate Uploaded(es: seq<Event>, m: nat, block: ProposalBlock) {
    exists j :: 0 <= j < |es| && es[j].Submit? && es[j].tally == m && es[j].block == block
  }

  /** A tally's entries are exactly what was uploaded to it, each stored under its own key. */
  ghost predicate Faithful(g: Genesis, es: seq<Event>, m: nat, t: Tally) {
    && (forall key :: CountOf(t, key) == Uploads(g, es, m, key))
    && (forall key :: key in t ==>
          t[key].count > 0 && g.keyOf(t[key].block) == key && Uploaded(es, m, t[key].block))
  }

  lemma UploadedMore(es: seq<Event>, e: Event, m: nat, block: ProposalBlock)
    requires Uploaded(es, m, block) || (e.Submit? && e.tally == m && e.block == block)
    ensures Uploaded(es + [e], m, block)
  {
    if Uploaded(es, m, block) {
      var j :| 0 <= j < |es| && es[j].Submit? && es[j].tally == m && es[j].block == block;
      assert (es + [e])[j] == es[j];
    } else {
      assert (es + [e])[|es|] == e;
    }
  }

  lemma UploadsMore(g: Genesis, es: seq<Event>, e: Event, m: nat, key: string)
    ensures Uploads(g, es + [e], m, key) ==
      Uploads(g, es, m, key) + (if e.Submit? && e.tally == m && g.keyOf(e.block) == key then 1 else 0)
  {
    assert (es + [e])[..|es|] == es;
  }

  lemma FaithfulStep(g: Genesis, es: seq<Event>, e: Event, m: nat, t: Tally)
    requires Faithful(g, es, m, t)
    ensures Faithful(g, es + [e], m,
      if e.Submit? && e.tally == m then Recorded(t, g.keyOf(e.block), e.block) else t)
  {
    hide Uploaded, Uploads;
    var t' := if e.Submit? && e.tally == m then Recorded(t, g.keyOf(e.block), e.block) else t;
    forall key ensures CountOf(t', key) == Uploads(g, es + [e], m, key) {
      UploadsMore(g, es, e, m, key);
    }
    forall key | key in t'
      ensures t'[key].count > 0 && g.keyOf(t'[key].block) == key && Uploaded(es + [e], m, t'[key].block)
    {
      UploadedMore(es, e, m, t'[key].block);
    }
  }

  ghost predicate AllFaithful(g: Genesis, es: seq<Event>, tallies: seq<Tally>) {
    && (forall m: nat :: m < |tallies| ==> Faithful(g, es, m, tallies[m]))
    && (forall m: nat, key :: m >= |tallies| ==> Uploads(g, es, m, key) == 0)
  }

  lemma RecordFaithful(g: Genesis, es: seq<Event>, e: Event, tallies: seq<Tally>)
    requires AllFaithful(g, es, tallies)
    requires e.Submit? ==> e.tally < |tallies|
    ensures AllFaithful(g, es + [e],
      if e.Submit? then RecordedIn(g, tallies, e.tally, e.block) else tallies)
  {
    hide Faithful, Uploads, Recorded;
    forall m: nat, key | m >= |tallies| ensures Uploads(g, es + [e], m, key) == 0 {
      UploadsMore(g, es, e, m, key);
    }
    forall m: nat | m < |tallies| { FaithfulStep(g, es, e, m, tallies[m]); }
  }

  lemma FreshFaithful(g: Genesis, es: seq<Event>, tallies: seq<Tally>, added: seq<Tally>)
    requires AllFaithful(g, es, tallies) && forall i :: 0 <= i < |added| ==> added[i] == map[]
    ensures AllFaithful(g, es, tallies + added)
  {
    hide Uploads;
    forall m: nat | m < |tallies + added| ensures Faithful(g, es, m, (tallies + added)[m]) {
      if m < |tallies| { assert (tallies + added)[m] == tallies[m]; }
    }
  }

  lemma StepFaithful(g: Genesis, es: seq<Event>, s: State, e: Event)
    requires AllFaithful(g, es, s.tallies) && Enabled(g, s, e)
    ensures AllFaithful(g, es + [e], Step(g, s, e).tallies)
  {
    hide Step, Commits, ExitsOn, Packed, RecordedIn, AllFaithful;
    RecordFaithful(g, es, e, s.tallies);
    StepChain(g, s, e);
    FreshFaithful(g, es + [e], if e.Submit? then RecordedIn(g, s.tallies, e.tally, e.block) else s.tallies,
                  if Executes(g, s, e) then NewTallies(g.shards) else []);
  }

  lemma InitialFaithful(g: Genesis)
    ensures AllFaithful(g, [], Initial(g).tallies)
  {
  }

  /** Every tally, live or retired, counts what was uploaded to it. */
  lemma {:induction false} TalliesFaithful(g: Genesis, es: seq<Event>)
    requires ValidRun(g, es)
    ensures AllFaithful(g, es, Run(g, es).tallies)
  {
    hide Step, Enabled, AllFaithful, Initial;
    if es == [] {
      InitialFaithful(g);
    } else {
      TalliesFaithful(g, es[..|es| - 1]);
      StepFaithful(g, es[..|es| - 1], Run(g, es[..|es| - 1]), es[|es| - 1]);
      assert es[..|es| - 1] + [es[|es| - 1]] == es;
    }
  }

  /** `b` is what a commit at time `now` makes of an upload of `block` to tally `m`. */
  ghost predicate BuiltFrom(g: Genesis, es: seq<Event>, m: nat, block: ProposalBlock, now: int, b: Block) {
    Uploaded(es, m, block) && IsBlockOf(g.txRoot, block, b.header.vote, now, b)
  }

  /** The commit at the end of run `es` decided for block `b`: `b` is built from a block that was
      uploaded to the tally live at that moment, and its vote is the number of uploads to that tally
      with that block's key, at least two thirds of the proposers. */
  ghost predicate Origin(g: Genesis, es: seq<Event>, b: Block)
  {
    && es != [] && ValidRun(g, es)
    && var init, e := es[..|es| - 1], es[|es| - 1];
       var s := Run(g, init);
       var live := |s.tallies| - 1;
       && Commits(g, s, e)
       && b.header.height == |s.chain| + 1
       && b.header.vote == Uploads(g, es, live, e.winner) && 3 * b.header.vote + 2 >= 2 * g.proposers
       && exists block :: BuiltFrom(g, es, live, block, e.now, b) && g.keyOf(block) == e.winner
  }

  /** The live tally right after an upload counts all uploads up to it. */
  lemma AfterUploadFaithful(g: Genesis, es: seq<Event>, e: Event)
    requires ValidRun(g, es) && Enabled(g, Run(g, es), e) && e.Submit?
    ensures var s := Run(g, es);
      Faithful(g, es + [e], |s.tallies| - 1, Live(AfterRecord(g, s, e.tally, e.block)))
  {
    hide Run, ValidRun, Faithful, Uploads, Total, IsWinner, Recorded;
    var s := Run(g, es);
    TalliesFaithful(g, es);
    RecordFaithful(g, es, e, s.tallies);
    assert Live(AfterRecord(g, s, e.tally, e.block)) == RecordedIn(g, s.tallies, e.tally, e.block)[|s.tallies| - 1];
  }

  lemma CommitHasOrigin(g: Genesis, es: seq<Event>)
    requires es != [] && ValidRun(g, es)
    requires Commits(g, Run(g, es[..|es| - 1]), es[|es| - 1])
    ensures var chain := Run(g, es).chain; chain != [] && Origin(g, es, chain[|chain| - 1])
  {
    hide Step, ExitsOn, Packed, Faithful, Uploads, Uploaded, Total, Recorded, IsWinner, VerifyMinVote, MaxHeight;
    var init, e := es[..|es| - 1], es[|es| - 1];
    var s := Run(g, init);
    var live := |s.tallies| - 1;
    HeightIsLength(g, init);
    StepChain(g, s, e);
    AfterUploadFaithful(g, init, e);
    assert init + [e] == es;
    LiveFaithful(g, es, live, Live(AfterRecord(g, s, e.tally, e.block)), e.winner);
  }

  lemma LiveFaithful(g: Genesis, es: seq<Event>, m: nat, t: Tally, key: string)
    requires Faithful(g, es, m, t) && key in t
    ensures t[key].count == Uploads(g, es, m, key)
    ensures g.keyOf(t[key].block) == key && Uploaded(es, m, t[key].block)
  {
    assert CountOf(t, key) == t[key].count;
  }

  ghost predicate HasOrigin(g: Genesis, es: seq<Event>, b: Block) {
    exists run :: run <= es && Origin(g, run, b)
  }

  /** Commit safety: in every reachable state, whatever tallies the requests held, block `i` has
      height `i+1`, the table agrees with the chain, and every block on the chain has an origin. */
  lemma {:induction false} CommitSafety(g: Genesis, es: seq<Event>)
    requires ValidRun(g, es)
    ensures Chained(Run(g, es).chain, Run(g, es).rows)
    ensures Height(Run(g, es)) == |Run(g, es).chain|
    ensures forall b :: b in Run(g, es).chain ==> HasOrigin(g, es, b)
  {
    hide Step, ExitsOn, Packed, Origin, Commits;
    RunShape(g, es);
    ChainedHeight(Run(g, es).chain, Run(g, es).rows);
    if es != [] {
      var init, e := es[..|es| - 1], es[|es| - 1];
      var s := Run(g, init);
      CommitSafety(g, init);
      StepChain(g, s, e);
      forall b | b in s.chain ensures HasOrigin(g, es, b) {
        var run :| run <= init && Origin(g, run, b);
        assert run <= es;
      }
      if Commits(g, s, e) { CommitHasOrigin(g, es); }
    }
  }

  /** Uploads of exactly the block `block` that were recorded in tally `m` during a run. */
  ghost function UploadsOf(es: seq<Event>, m: nat, block: ProposalBlock): nat {
    if es == [] then 0
    else
      var e := es[|es| - 1];
      UploadsOf(es[..|es| - 1], m, block) + (if e.Submit? && e.tally == m && e.block == block then 1 else 0)
  }

  /** No two different blocks uploaded in a run share a key. */
  ghost predicate Injective(g: Genesis, es: seq<Event>) {
    forall d, e :: d in es && e in es && d.Submit? && e.Submit? && g.keyOf(d.block) == g.keyOf(e.block) ==>
      d.block == e.block
  }

  lemma {:induction false} KeyCountsBlock(g: Genesis, es: seq<Event>, m: nat, block: ProposalBlock)
    requires forall e :: e in es && e.Submit? && g.keyOf(e.block) == g.keyOf(block) ==> e.block == block
    ensures Uploads(g, es, m, g.keyOf(block)) == UploadsOf(es, m, block)
  {
    if es != [] {
      assert es[|es| - 1] in es;
      KeyCountsBlock(g, es[..|es| - 1], m, block);
    }
  }

  lemma UploadedIn(g: Genesis, es: seq<Event>, m: nat, block: ProposalBlock)
    requires Uploaded(es, m, block) && Injective(g, es)
    ensures forall e :: e in es && e.Submit? && g.keyOf(e.block) == g.keyOf(block) ==> e.block == block
  {
    var j :| 0 <= j < |es| && es[j].Submit? && es[j].tally == m && es[j].block == block;
    assert es[j] in es;
  }

  /** Where the key tells uploaded blocks apart, the vote of a committed block is the number of uploads
      of exactly the block it was built from. */
  lemma VoteCountsBlock(g: Genesis, es: seq<Event>, b: Block) returns (block: ProposalBlock)
    requires Origin(g, es, b) && Injective(g, es)
    ensures var live := |Run(g, es[..|es| - 1]).tallies| - 1;
      && BuiltFrom(g, es, live, block, es[|es| - 1].now, b)
      && b.header.vote == UploadsOf(es, live, block)
  {
    hide Run, Uploads, UploadsOf, Uploaded, Injective, Wins, Total;
    var e := es[|es| - 1];
    var live := |Run(g, es[..|es| - 1]).tallies| - 1;
    block :| BuiltFrom(g, es, live, block, e.now, b) && g.keyOf(block) == e.winner;
    UploadedIn(g, es, live, block);
    KeyCountsBlock(g, es, live, block);
  }

  lemma FaithfulPositive(g: Genesis, es: seq<Event>, m: nat, t: Tally)
    requires Faithful(g, es, m, t)
    ensures Positive(t) && Keyed(t, g.keyOf)
  {
  }
}
