/** The server's rounds and counts are those of the lock-by-lock machine when no vote arrives during a
    commit. */
module ServerRounds {
  import opened Rounds
  import opened Server
  import opened Consensus
  import I = RoundInterleaving

  function ConfigOf(g: Genesis): I.Config {
    I.Config(g.shards, g.clientMax)
  }

  /** The server between two handlers, as the finer machine sees it. */
  ghost function Between(rounds: map<int, Round>, total: int): I.System {
    I.System(rounds, {}, I.Idle, total)
  }

  function Repeat(e: I.Event, n: nat): seq<I.Event> {
    if n == 0 then [] else Repeat(e, n - 1) + [e]
  }

  /** The steps of a commit with nothing in between. */
  function CommitSteps(n: nat): seq<I.Event> {
    [I.Begin] + Repeat(I.ReadShard, n) + [I.AddTotal] + Repeat(I.ResetShard, n) + [I.Finish]
  }

  /** The shards up to `n` whose round a commit counts. */
  function CountedShards(rounds: map<int, Round>, n: nat, clientMax: nat): set<int> {
    if n == 0 then {}
    else
      CountedShards(rounds, n - 1, clientMax)
        + (if n in rounds && HasQuorum(rounds[n].votes, clientMax) then {n} else {})
  }

  function UpTo(n: nat): set<int> {
    if n == 0 then {} else UpTo(n - 1) + {n}
  }

  lemma {:induction false} CountedWithin(rounds: map<int, Round>, n: nat, clientMax: nat)
    ensures CountedShards(rounds, n, clientMax) <= UpTo(n)
  {
    if n > 0 { CountedWithin(rounds, n - 1, clientMax); }
  }

  lemma {:induction false} ReadAll(c: I.Config, es: seq<I.Event>, rounds: map<int, Round>, total: int, n: nat)
    requires n <= c.shards && forall i :: i in rounds <==> 1 <= i <= c.shards
    requires I.ValidRun(c, es) && I.Run(c, es) == I.System(rounds, {}, I.Reading(1, 0), total)
    ensures I.ValidRun(c, es + Repeat(I.ReadShard, n))
    ensures I.Run(c, es + Repeat(I.ReadShard, n)) ==
      I.System(rounds, CountedShards(rounds, n, c.clientMax), I.Reading(n + 1, CountedSum(rounds, n, c.clientMax)), total)
  {
    hide I.Run, I.ValidRun, HasQuorum;
    if n == 0 {
      assert es + [] == es;
    } else {
      ReadAll(c, es, rounds, total, n - 1);
      I.Extend(c, es + Repeat(I.ReadShard, n - 1), I.ReadShard);
      assert es + Repeat(I.ReadShard, n - 1) + [I.ReadShard] == es + Repeat(I.ReadShard, n);
    }
  }

  lemma {:induction false} ResetAll(
    c: I.Config, es: seq<I.Event>, rounds: map<int, Round>, counted: set<int>, total: int, n: nat)
    requires n <= c.shards && forall i :: i in rounds <==> 1 <= i <= c.shards
    requires I.ValidRun(c, es) && I.Run(c, es) == I.System(rounds, counted, I.Resetting(1), total)
    ensures I.ValidRun(c, es + Repeat(I.ResetShard, n))
    ensures var s := I.Run(c, es + Repeat(I.ResetShard, n));
      && s == I.System(Refreshed(rounds, n), counted - UpTo(n), I.Resetting(n + 1), total)
      && forall i :: i in s.rounds <==> 1 <= i <= c.shards
  {
    hide I.Run, I.ValidRun;
    if n == 0 {
      assert es + [] == es;
    } else {
      ResetAll(c, es, rounds, counted, total, n - 1);
      I.Extend(c, es + Repeat(I.ResetShard, n - 1), I.ResetShard);
      assert es + Repeat(I.ResetShard, n - 1) + [I.ResetShard] == es + Repeat(I.ResetShard, n);
    }
  }

  /** A commit without a vote in between counts exactly `CountedSum` and starts fresh rounds, as
      `Server.Commit` does in one step. */
  lemma AtomicCommit(c: I.Config, es: seq<I.Event>, rounds: map<int, Round>, total: int)
    requires forall i :: i in rounds <==> 1 <= i <= c.shards
    requires I.ValidRun(c, es) && I.Run(c, es) == Between(rounds, total)
    ensures I.ValidRun(c, es + CommitSteps(c.shards))
    ensures I.Run(c, es + CommitSteps(c.shards)) ==
      Between(FreshRounds(c.shards), total + CountedSum(rounds, c.shards, c.clientMax))
  {
    hide I.Run, I.ValidRun, CountedSum, CountedShards, Repeat, Refreshed, UpTo;
    var n := c.shards;
    I.Extend(c, es, I.Begin);
    var a := es + [I.Begin];
    ReadAll(c, a, rounds, total, n);
    var b := a + Repeat(I.ReadShard, n);
    I.Extend(c, b, I.AddTotal);
    ResetAll(c, b + [I.AddTotal], rounds, I.Run(c, b).counted, I.Run(c, b + [I.AddTotal]).total, n);
    var d := b + [I.AddTotal] + Repeat(I.ResetShard, n);
    AllRefreshed(rounds, n);
    I.Extend(c, d, I.Finish);
    CountedWithin(rounds, n, c.clientMax);
    assert d + [I.Finish] == es + CommitSteps(n);
  }

  /** How a step of the server looks to the finer machine. */
  ghost function StepsOf(g: Genesis, s: State, e: Event): seq<I.Event> {
    if e.Collect? then [I.Vote(e.shard, e.root, e.txNum)]
    else if Executes(g, s, e) then CommitSteps(g.shards)
    else []
  }

  lemma StepRefines(g: Genesis, s: State, e: Event, run: seq<I.Event>)
    requires Shape(g, s) && Enabled(g, s, e) && !Step(g, s, e).fatal
    requires I.ValidRun(ConfigOf(g), run) && I.Run(ConfigOf(g), run) == Between(s.rounds, s.total)
    ensures I.ValidRun(ConfigOf(g), run + StepsOf(g, s, e))
    ensures I.Run(ConfigOf(g), run + StepsOf(g, s, e)) == Between(Step(g, s, e).rounds, Step(g, s, e).total)
  {
    hide I.Run, I.ValidRun, Step, Wins, Total, ExitsOn, NextBlock, CommitSteps, CountedSum, Collected;
    StepFields(g, s, e);
    if e.Collect? {
      I.Extend(ConfigOf(g), run, I.Vote(e.shard, e.root, e.txNum));
    } else if Executes(g, s, e) {
      AtomicCommit(ConfigOf(g), run, s.rounds, s.total);
    } else {
      assert run + [] == run;
    }
  }

  /** The server's run as the finer machine sees it. */
  ghost function Refined(g: Genesis, es: seq<Event>): seq<I.Event>
    requires ValidRun(g, es)
  {
    if es == [] then []
    else Refined(g, es[..|es| - 1]) + StepsOf(g, Run(g, es[..|es| - 1]), es[|es| - 1])
  }

  /** Every run of the server is a run of the finer machine whose commits are undisturbed: the same
      rounds, the same total. */
  lemma {:induction false} Refines(g: Genesis, es: seq<Event>)
    requires ValidRun(g, es) && !Run(g, es).fatal
    ensures I.ValidRun(ConfigOf(g), Refined(g, es))
    ensures I.Run(ConfigOf(g), Refined(g, es)) == Between(Run(g, es).rounds, Run(g, es).total)
  {
    hide Step, Shape, StepsOf, I.Step, IsWinner, Total, RecordedIn;
    if es != [] {
      var init := es[..|es| - 1];
      RunShape(g, init);
      Refines(g, init);
      StepRefines(g, Run(g, init), es[|es| - 1], Refined(g, init));
    }
  }
}
