/** How a commit counts the rounds of the shards, as a machine of the individual steps that take a
    lock: a commit reads shard after shard without the shard locks, and later resets shard after
    shard, so votes may arrive in between. */
module RoundInterleaving {
  import opened Rounds

  datatype Config = Config(shards: nat, clientMax: nat)

  /** Where a commit stands: not running, about to read a shard with `num` counted so far, or about
      to reset a shard. */
  datatype Phase = Idle | Reading(next: int, num: int) | Resetting(next: int)

  /** `counted` marks the shards whose current round the running commit has already counted. */
  datatype System = System(rounds: map<int, Round>, counted: set<int>, phase: Phase, total: int)

  datatype Event = Vote(shard: int, root: string, txNum: int) | Begin | ReadShard | AddTotal | ResetShard | Finish

  predicate Enabled(c: Config, s: System, e: Event) {
    match e
    case Vote(shard, _, _) => shard in s.rounds
    case Begin => s.phase.Idle?
    case ReadShard => s.phase.Reading? && s.phase.next in s.rounds
    case AddTotal => s.phase.Reading? && s.phase.next == c.shards + 1
    case ResetShard => s.phase.Resetting? && s.phase.next in s.rounds
    case Finish => s.phase.Resetting? && s.phase.next == c.shards + 1
  }

  function Step(c: Config, s: System, e: Event): System
    requires Enabled(c, s, e)
  {
    match e
    case Vote(shard, root, txNum) =>
      s.(rounds := s.rounds[shard := Collected(s.rounds[shard], root, txNum, c.clientMax)])
    case Begin => s.(phase := Reading(1, 0))
    case ReadShard =>
      var i, num := s.phase.next, s.phase.num;
      if HasQuorum(s.rounds[i].votes, c.clientMax) then
        s.(phase := Reading(i + 1, num + s.rounds[i].txNum), counted := s.counted + {i})
      else
        s.(phase := Reading(i + 1, num))
    case AddTotal => s.(phase := Resetting(1), total := s.total + s.phase.num)
    case ResetShard =>
      var i := s.phase.next;
      s.(rounds := s.rounds[i := FRESH], counted := s.counted - {i}, phase := Resetting(i + 1))
    case Finish => s.(phase := Idle)
  }

  function Start(c: Config): System {
    System(FreshRounds(c.shards), {}, Idle, 0)
  }

  /** An interleaving in which every step was possible when it was taken. */
  ghost predicate ValidRun(c: Config, es: seq<Event>)
    decreases |es|, 0
  {
    es == [] || (ValidRun(c, es[..|es| - 1]) && Enabled(c, Run(c, es[..|es| - 1]), es[|es| - 1]))
  }

  ghost function Run(c: Config, es: seq<Event>): System
    requires ValidRun(c, es)
    decreases |es|, 1
  {
    if es == [] then Start(c) else Step(c, Run(c, es[..|es| - 1]), es[|es| - 1])
  }

  predicate IsAccepted(c: Config, s: System, e: Event) {
    e.Vote? && e.shard in s.rounds && Accepts(s.rounds[e.shard], e.root, c.clientMax)
  }

  /** The transactions of all rounds accepted in a run. */
  ghost function AcceptedSum(c: Config, es: seq<Event>): int
    requires ValidRun(c, es)
  {
    if es == [] then 0
    else
      var init, e := es[..|es| - 1], es[|es| - 1];
      AcceptedSum(c, init) + (if IsAccepted(c, Run(c, init), e) then e.txNum else 0)
  }

  /** What shard `i` has accepted and no commit has counted yet. */
  ghost function Waiting(s: System, i: int): int
    requires i in s.rounds
  {
    if i in s.counted then 0 else s.rounds[i].txNum
  }

  /** The transactions of accepted rounds that a commit wiped without having counted them. */
  ghost function LostSum(c: Config, es: seq<Event>): int
    requires ValidRun(c, es)
  {
    if es == [] then 0
    else
      var init := es[..|es| - 1];
      var s := Run(c, init);
      LostSum(c, init) + (if es[|es| - 1].ResetShard? then Waiting(s, s.phase.next) else 0)
  }

  /** How many rounds of `shard` were accepted since its last reset. */
  ghost function AcceptedSince(c: Config, es: seq<Event>, shard: int): nat
    requires ValidRun(c, es)
  {
    if es == [] then 0
    else
      var init, e := es[..|es| - 1], es[|es| - 1];
      var s := Run(c, init);
      if e.ResetShard? && s.phase.next == shard then 0
      else AcceptedSince(c, init, shard) + (if e.Vote? && e.shard == shard && IsAccepted(c, s, e) then 1 else 0)
  }

  /** What the shards up to `n` still have to report to the running or the next commit. */
  ghost function Pending(s: System, n: nat): int
    requires forall i :: 1 <= i <= n ==> i in s.rounds
  {
    if n == 0 then 0 else Pending(s, n - 1) + Waiting(s, n)
  }

  function InFlight(s: System): int {
    if s.phase.Reading? then s.phase.num else 0
  }

  ghost predicate Inv(c: Config, s: System) {
    && (forall i :: i in s.rounds <==> 1 <= i <= c.shards)
    && (forall i :: i in s.rounds ==> Latched(s.rounds[i], c.clientMax))
    && (s.phase.Reading? || s.phase.Resetting? ==> 1 <= s.phase.next <= c.shards + 1)
    && (forall i :: i in s.counted ==>
          && i in s.rounds && s.rounds[i].validEnd
          && (s.phase.Reading? ==> i < s.phase.next)
          && (s.phase.Resetting? ==> i >= s.phase.next)
          && !s.phase.Idle?)
  }

  lemma StepKeepsInv(c: Config, s: System, e: Event)
    requires Inv(c, s) && Enabled(c, s, e)
    ensures Inv(c, Step(c, s, e))
  {
    if e.Vote? {
      CollectedLatched(s.rounds[e.shard], e.root, e.txNum, c.clientMax);
    }
  }

  lemma {:induction false} RunInv(c: Config, es: seq<Event>)
    requires ValidRun(c, es)
    ensures Inv(c, Run(c, es))
  {
    if es != [] {
      RunInv(c, es[..|es| - 1]);
      StepKeepsInv(c, Run(c, es[..|es| - 1]), es[|es| - 1]);
    }
  }

  /** Two systems whose shards differ at most at `k`. */
  lemma {:induction false} PendingChange(s: System, s': System, n: nat, k: int)
    requires forall i :: 1 <= i <= n ==> i in s.rounds && i in s'.rounds
    requires forall i :: 1 <= i <= n && i != k ==> Waiting(s', i) == Waiting(s, i)
    ensures Pending(s', n) == Pending(s, n) + (if 1 <= k <= n then Waiting(s', k) - Waiting(s, k) else 0)
  {
    if n > 0 { PendingChange(s, s', n - 1, k); }
  }

  /** Exact accounting over every interleaving: what was accepted is in the total, in flight,
      waiting in a shard, or was wiped by a commit that had read the shard before. Nothing counts
      twice. */
  lemma {:induction false} Accounting(c: Config, es: seq<Event>)
    requires ValidRun(c, es)
    ensures Inv(c, Run(c, es))
    ensures var s := Run(c, es);
      s.total + InFlight(s) + Pending(s, c.shards) + LostSum(c, es) == AcceptedSum(c, es)
  {
    RunInv(c, es);
    if es == [] {
      NothingPending(Run(c, es), c.shards);
    } else {
      var init, e := es[..|es| - 1], es[|es| - 1];
      Accounting(c, init);
      var s, s' := Run(c, init), Run(c, es);
      var k := match e case Vote(i, _, _) => i case ReadShard => s.phase.next case ResetShard => s.phase.next case _ => 0;
      PendingChange(s, s', c.shards, k);
    }
  }

  lemma {:induction false} NothingPending(s: System, n: nat)
    requires forall i :: 1 <= i <= n ==> i in s.rounds && Waiting(s, i) == 0
    ensures Pending(s, n) == 0
  {
    if n > 0 { NothingPending(s, n - 1); }
  }

  ghost predicate NonNegative(es: seq<Event>) {
    forall e :: e in es && e.Vote? ==> e.txNum >= 0
  }

  lemma {:induction false} AmountsNonNegative(c: Config, es: seq<Event>)
    requires ValidRun(c, es) && NonNegative(es)
    ensures forall i :: i in Run(c, es).rounds ==> Run(c, es).rounds[i].txNum >= 0
    ensures LostSum(c, es) >= 0
  {
    if es != [] {
      var init := es[..|es| - 1];
      assert forall e :: e in init ==> e in es;
      AmountsNonNegative(c, init);
      assert es[|es| - 1] in es;
    }
  }

  lemma {:induction false} PendingNonNegative(s: System, n: nat)
    requires forall i :: 1 <= i <= n ==> i in s.rounds && s.rounds[i].txNum >= 0
    ensures Pending(s, n) >= 0
  {
    if n > 0 { PendingNonNegative(s, n - 1); }
  }

  /** No accepted round is counted twice: with non-negative reports the total never exceeds the
      accepted sum, whatever arrives while a commit runs. */
  lemma NeverOvercounts(c: Config, es: seq<Event>)
    requires ValidRun(c, es) && NonNegative(es)
    ensures Run(c, es).total + InFlight(Run(c, es)) <= AcceptedSum(c, es)
  {
    Accounting(c, es);
    AmountsNonNegative(c, es);
    PendingNonNegative(Run(c, es), c.shards);
  }

  /** No vote arrives while a commit is under way. */
  ghost predicate AtomicCommits(c: Config, es: seq<Event>)
    requires ValidRun(c, es)
  {
    es == [] ||
    var init := es[..|es| - 1];
    AtomicCommits(c, init) && (es[|es| - 1].Vote? ==> Run(c, init).phase.Idle?)
  }

  ghost predicate ReadSettled(s: System) {
    forall i :: i in s.rounds && i !in s.counted ==>
      && (s.phase.Reading? && i < s.phase.next ==> s.rounds[i].txNum == 0)
      && (s.phase.Resetting? ==> s.rounds[i].txNum == 0)
  }

  /** With atomic commits nothing is lost: total plus pending is exactly what was accepted. */
  lemma {:induction false} AtomicLosesNothing(c: Config, es: seq<Event>)
    requires ValidRun(c, es) && AtomicCommits(c, es)
    ensures LostSum(c, es) == 0 && ReadSettled(Run(c, es))
    ensures var s := Run(c, es);
      Inv(c, s) && s.total + InFlight(s) + Pending(s, c.shards) == AcceptedSum(c, es)
  {
    Accounting(c, es);
    if es != [] {
      AtomicLosesNothing(c, es[..|es| - 1]);
      RunInv(c, es[..|es| - 1]);
    }
  }

  /** The running commit has read shard `i` and has not reset it yet. */
  predicate InWindow(s: System, i: int) {
    (s.phase.Reading? && i < s.phase.next) || (s.phase.Resetting? && i >= s.phase.next)
  }

  /** Step `k` of the run accepts a round that the running commit has read before. */
  ghost predicate Late(c: Config, es: seq<Event>, k: int) {
    && 0 <= k < |es| && ValidRun(c, es[..k])
    && IsAccepted(c, Run(c, es[..k]), es[k]) && InWindow(Run(c, es[..k]), es[k].shard)
  }

  /** The transactions of all late rounds. */
  ghost function LateSum(c: Config, es: seq<Event>): int {
    if es == [] then 0
    else
      var n := |es| - 1;
      LateSum(c, es[..n]) + (if Late(c, es, n) then es[n].txNum else 0)
  }

  ghost function Exposed(s: System, i: int): int
    requires i in s.rounds
  {
    if InWindow(s, i) then Waiting(s, i) else 0
  }

  ghost function ExposedSum(s: System, n: nat): int
    requires forall i :: 1 <= i <= n ==> i in s.rounds
  {
    if n == 0 then 0 else ExposedSum(s, n - 1) + Exposed(s, n)
  }

  lemma {:induction false} ExposedChange(s: System, s': System, n: nat, k: int)
    requires forall i :: 1 <= i <= n ==> i in s.rounds && i in s'.rounds
    requires forall i :: 1 <= i <= n && i != k ==> Exposed(s', i) == Exposed(s, i)
    ensures ExposedSum(s', n) == ExposedSum(s, n) + (if 1 <= k <= n then Exposed(s', k) - Exposed(s, k) else 0)
  {
    if n > 0 { ExposedChange(s, s', n - 1, k); }
  }

  lemma {:induction false} NothingExposed(s: System, n: nat)
    requires forall i :: 1 <= i <= n ==> i in s.rounds && Exposed(s, i) == 0
    ensures ExposedSum(s, n) == 0
  {
    if n > 0 { NothingExposed(s, n - 1); }
  }

  /** Late rounds are exactly those that were wiped, or will be by the running commit. */
  lemma {:induction false} LateAccounting(c: Config, es: seq<Event>)
    requires ValidRun(c, es)
    ensures Inv(c, Run(c, es))
    ensures LateSum(c, es) == LostSum(c, es) + ExposedSum(Run(c, es), c.shards)
  {
    RunInv(c, es);
    if es == [] {
      NothingExposed(Run(c, es), c.shards);
    } else {
      var init, e := es[..|es| - 1], es[|es| - 1];
      LateAccounting(c, init);
      var s, s' := Run(c, init), Run(c, es);
      var k := match e
        case Vote(i, _, _) => i
        case ReadShard => s.phase.next
        case ResetShard => s.phase.next
        case _ => 0;
      ExposedChange(s, s', c.shards, k);
    }
  }

  lemma LatePrefix(c: Config, es: seq<Event>, k: int)
    requires es != [] && k < |es| - 1
    ensures Late(c, es[..|es| - 1], k) <==> Late(c, es, k)
  {
    hide Run, ValidRun, IsAccepted, InWindow;
    if k >= 0 { assert es[..|es| - 1][..k] == es[..k]; }
  }

  lemma {:induction false} LateZero(c: Config, es: seq<Event>)
    requires NonNegative(es)
    ensures LateSum(c, es) >= 0
    ensures LateSum(c, es) == 0 <==> forall k :: Late(c, es, k) ==> es[k].txNum == 0
  {
    hide Late;
    LateIsVote(c, es);
    if es != [] {
      var n := |es| - 1;
      var init := es[..n];
      assert forall e :: e in init ==> e in es;
      assert es[n] in es;
      LateZero(c, init);
      LateIsVote(c, init);
      forall k | k < n ensures Late(c, init, k) <==> Late(c, es, k) { LatePrefix(c, es, k); }
    }
  }

  lemma LateIsVote(c: Config, es: seq<Event>)
    ensures forall k :: Late(c, es, k) ==> 0 <= k < |es| && es[k].Vote?
  {
    hide Run, ValidRun, InWindow;
  }

  /** When no commit runs, what the commits have lost is exactly what late rounds reported. With
      non-negative reports the accounting is exact if and only if every late round reports nothing. */
  lemma NothingLostIff(c: Config, es: seq<Event>)
    requires ValidRun(c, es) && Run(c, es).phase.Idle?
    ensures LostSum(c, es) == LateSum(c, es)
    ensures Inv(c, Run(c, es))
    ensures NonNegative(es) ==>
      (Run(c, es).total + Pending(Run(c, es), c.shards) == AcceptedSum(c, es) <==>
       forall k :: Late(c, es, k) ==> es[k].txNum == 0)
  {
    Accounting(c, es);
    LateAccounting(c, es);
    NothingExposed(Run(c, es), c.shards);
    if NonNegative(es) { LateZero(c, es); }
  }

  /** A run extended by one possible step. */
  lemma Extend(c: Config, es: seq<Event>, e: Event)
    requires ValidRun(c, es) && Enabled(c, Run(c, es), e)
    ensures ValidRun(c, es + [e]) && Run(c, es + [e]) == Step(c, Run(c, es), e)
    ensures AcceptedSum(c, es + [e]) == AcceptedSum(c, es) + (if IsAccepted(c, Run(c, es), e) then e.txNum else 0)
  {
    assert (es + [e])[..|es|] == es;
  }

  /** Shard 1 one vote short of closing its latch. */
  lemma {:induction false} VotesBefore(c: Config, root: string, txNum: int, k: nat) returns (es: seq<Event>)
    requires c.shards >= 1 && k < Needed(c.clientMax)
    ensures ValidRun(c, es) && AcceptedSum(c, es) == 0
    ensures Run(c, es) ==
      Start(c).(rounds := FreshRounds(c.shards)[1 := AfterVotes(root, k)])
  {
    hide HasQuorum, Collected, Accepts;
    if k == 0 {
      es := [];
      assert FreshRounds(c.shards)[1 := FRESH] == FreshRounds(c.shards);
    } else {
      es := VotesBefore(c, root, txNum, k - 1);
      NextVote(root, txNum, k - 1, c.clientMax);
      Extend(c, es, Vote(1, root, txNum));
      es := es + [Vote(1, root, txNum)];
    }
  }

  /** The round of shard 1 closes after a commit has read that shard. */
  lemma LateVote(c: Config, root: string, txNum: int) returns (es: seq<Event>)
    requires c.shards == 2
    ensures ValidRun(c, es) && AcceptedSum(c, es) == txNum
    ensures Run(c, es) ==
      System(FreshRounds(2)[1 := Round(map[root := Needed(c.clientMax)], txNum, true)], {}, Reading(2, 0), 0)
  {
    hide AcceptedSum, Run, ValidRun, Collected, Accepts;
    es := VotesBefore(c, root, txNum, Needed(c.clientMax) - 1);
    NextVote(root, txNum, Needed(c.clientMax) - 1, c.clientMax);
    OpenBelow(root, Needed(c.clientMax) - 1, c.clientMax);
    Extend(c, es, Begin);
    es := es + [Begin];
    Extend(c, es, ReadShard);
    es := es + [ReadShard];
    Extend(c, es, Vote(1, root, txNum));
    es := es + [Vote(1, root, txNum)];
  }

  /** Loss is reachable with two shards and any number of clients: the reset wipes a round that was
      accepted after the commit had read its shard. */
  lemma LossIsPossible(clientMax: nat, root: string, txNum: int) returns (c: Config, es: seq<Event>)
    ensures c == Config(2, clientMax) && ValidRun(c, es) && Run(c, es) == Start(c)
    ensures AcceptedSum(c, es) == LostSum(c, es) == txNum
  {
    hide AcceptedSum, LostSum, Run, ValidRun, HasQuorum;
    c := Config(2, clientMax);
    es := LateVote(c, root, txNum);
    FreshIsOpen(clientMax);
    Extend(c, es, ReadShard);
    es := es + [ReadShard];
    Extend(c, es, AddTotal);
    es := es + [AddTotal];
    Extend(c, es, ResetShard);
    es := es + [ResetShard];
    Extend(c, es, ResetShard);
    es := es + [ResetShard];
    Extend(c, es, Finish);
    es := es + [Finish];
    assert Run(c, es).rounds == FreshRounds(2);
    Accounting(c, es);
    NothingPending(Run(c, es), 2);
  }

  /** Once-per-round latch: since its last reset a shard accepted one round if its latch is closed
      and none otherwise. */
  lemma {:induction false} OncePerRound(c: Config, es: seq<Event>, shard: int)
    requires ValidRun(c, es) && 1 <= shard <= c.shards
    ensures shard in Run(c, es).rounds && Latched(Run(c, es).rounds[shard], c.clientMax)
    ensures AcceptedSince(c, es, shard) == if Run(c, es).rounds[shard].validEnd then 1 else 0
  {
    RunInv(c, es);
    if es != [] {
      OncePerRound(c, es[..|es| - 1], shard);
    }
  }
}
