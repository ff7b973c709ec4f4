/** The whole server as a machine of uploads: proposal blocks that are tallied and committed, and
    state roots that are collected per shard. Handlers are atomic steps, except that a proposal is
    recorded in a tally it captured earlier, which a commit may have retired since. */
module Server {
  import opened Data
  import opened Postings
  import opened BlockExecution
  import opened PoolSpec
  import opened Rounds
  import opened Consensus

  /** Everything start-up fixes. Pools hold `m` batches of `v` entries per shard; `keyOf`, `txRoot`
      and `digest` are the encodings. */
  datatype Genesis = Genesis(
    shards: nat, proposers: nat, clientMax: nat, v: nat, m: nat,
    internalPool: map<int, seq<WitnessTrans>>, crossPool: map<int, seq<WitnessTrans>>,
    internalBatches: map<int, seq<BatchTrans>>, crossBatches: map<int, seq<BatchTrans>>,
    members: Members, directory: map<string, int>,
    keyOf: ProposalBlock -> string, txRoot: seq<int> -> string, digest: seq<WitnessTrans> -> string)

  /** `tallies` are all tallies ever in use, the live one last. */
  datatype State = State(
    tallies: seq<Tally>, chain: seq<Block>, rows: seq<BlockRow>, ledger: Ledger,
    relays: map<int, seq<WitnessTrans>>, rounds: map<int, Round>, total: int, fatal: bool)

  datatype Event =
    | Submit(tally: nat, block: ProposalBlock, winner: string, now: int)
    | Collect(shard: int, root: string, txNum: int, uploads: seq<SuperTransaction>)

  function Live(s: State): Tally
    requires s.tallies != []
  {
    s.tallies[|s.tallies| - 1]
  }

  function Height(s: State): nat {
    MaxHeight(s.rows)
  }

  function InitialLedger(members: Members): Ledger {
    map s | s in members :: map a | a in members[s] :: INITIAL_BALANCE
  }

  function Initial(g: Genesis): State {
    State([map[]], [], [], InitialLedger(g.members), map s | s in g.members :: [], FreshRounds(g.shards), 0, false)
  }

  function RecordedIn(g: Genesis, tallies: seq<Tally>, m: nat, block: ProposalBlock): seq<Tally>
    requires m < |tallies|
  {
    tallies[m := Recorded(tallies[m], g.keyOf(block), block)]
  }

  function AfterRecord(g: Genesis, s: State, m: nat, block: ProposalBlock): State
    requires m < |s.tallies|
  {
    s.(tallies := RecordedIn(g, s.tallies, m, block))
  }

  /** The scan of the live tally decides for `winner`, and VerifyBlock accepts its block. */
  predicate WinsIn(live: Tally, proposers: nat, height: nat, winner: string) {
    && winner in live
    && live[winner].count >= Quorum(proposers)
    && live[winner].block.height == height + 1
    && live[winner].count >= VerifyMinVote(proposers)
  }

  /** What that comes to: the second vote check adds nothing to the first. */
  lemma WinsMeans(live: Tally, proposers: nat, height: nat, winner: string)
    ensures WinsIn(live, proposers, height, winner) <==>
      winner in live && 3 * live[winner].count + 2 >= 2 * proposers && live[winner].block.height == height + 1
  {
  }

  predicate Wins(g: Genesis, s: State, winner: string) {
    s.tallies != [] && WinsIn(Live(s), g.proposers, Height(s), winner)
  }

  /** A commit needs enough uploads in the tally the request holds, and a winner in the live one. */
  ghost predicate Commits(g: Genesis, s: State, e: Event) {
    && e.Submit? && e.tally < |s.tallies|
    && var s' := AfterRecord(g, s, e.tally, e.block);
       Total(s'.tallies[e.tally]) >= g.proposers && Wins(g, s', e.winner)
  }

  /** What the commit that raises the height from `h` to `h+1` executes in shard `s`. */
  function InternalsAt(g: Genesis, h: nat, s: int): seq<InternalTransaction> {
    Internals(Window(Pool(g.internalPool, s), h, g.v))
  }

  function CrossesAt(g: Genesis, h: nat, s: int): seq<CrossShardTransaction> {
    Crosses(Window(Pool(g.crossPool, s), h, g.v))
  }

  function RelaysAt(g: Genesis, relays: map<int, seq<WitnessTrans>>, s: int): seq<SuperTransaction> {
    Supers(LastEntries(Pool(relays, s), g.v))
  }

  function Packed(g: Genesis, relays: map<int, seq<WitnessTrans>>, h: nat): TransactionBlock {
    TransactionBlock(
      h + 1,
      map s | s in g.members :: InternalsAt(g, h, s),
      map s | s in g.members :: CrossesAt(g, h, s),
      map s | s in g.members :: RelaysAt(g, relays, s))
  }

  /** Field by field, what is selected at a height. */
  lemma SelectedFields(g: Genesis, relays: map<int, seq<WitnessTrans>>, h: nat, s: int)
    ensures AllSameInternal(Window(Pool(g.internalPool, s), h, g.v), InternalsAt(g, h, s))
    ensures AllSameCross(Window(Pool(g.crossPool, s), h, g.v), CrossesAt(g, h, s))
    ensures AllSameRelay(LastEntries(Pool(relays, s), g.v), RelaysAt(g, relays, s))
  {
    hide Window, LastEntries, AllSameInternal, AllSameCross, AllSameRelay;
    FieldsKept(Window(Pool(g.internalPool, s), h, g.v));
    FieldsKept(Window(Pool(g.crossPool, s), h, g.v));
    FieldsKept(LastEntries(Pool(relays, s), g.v));
  }

  /** What a commit in state `s` would execute. */
  function NextBlock(g: Genesis, s: State): TransactionBlock {
    Packed(g, s.relays, Height(s))
  }

  /** What the shards up to `n` report to a commit. */
  function CountedSum(rounds: map<int, Round>, n: nat, clientMax: nat): int {
    if n == 0 then 0
    else
      CountedSum(rounds, n - 1, clientMax)
        + (if n in rounds && HasQuorum(rounds[n].votes, clientMax) then rounds[n].txNum else 0)
  }

  /** The tallies a commit creates, one for each shard it resets. */
  function NewTallies(n: nat): (tallies: seq<Tally>)
    ensures |tallies| == n && forall i :: 0 <= i < n ==> tallies[i] == map[]
  {
    if n == 0 then [] else NewTallies(n - 1) + [map[]]
  }

  /** The server exits when an executor's guard fails. */
  ghost predicate ExitsOn(ledger: Ledger, b: TransactionBlock) {
    !BlockAllowed(MembersOf(ledger), b)
  }

  /** The block a commit appends. */
  function Decided(g: Genesis, s: State, winner: string, now: int): Block
    requires s.tallies != [] && winner in Live(s)
  {
    MakeBlock(g.txRoot, Live(s)[winner].block, Live(s)[winner].count, now)
  }

  /** The decided block is appended. */
  function Extended(g: Genesis, s: State, winner: string, now: int): State
    requires s.tallies != [] && winner in Live(s)
  {
    var b := Decided(g, s, winner, now);
    s.(chain := s.chain + [b], rows := s.rows + [RowOf(b)])
  }

  /** The transactions of the height just reached are executed, and the rounds counted. */
  ghost function Executed(g: Genesis, s: State, winner: string, now: int): State
    requires s.tallies != [] && winner in Live(s)
  {
    Extended(g, s, winner, now).(
      ledger := ApplyBlock(s.ledger, NextBlock(g, s)),
      total := s.total + CountedSum(s.rounds, g.shards, g.clientMax))
  }

  /** Every shard starts a new round, with new tallies. */
  function Renewed(g: Genesis, s: State): State {
    s.(rounds := FreshRounds(g.shards), tallies := s.tallies + NewTallies(g.shards))
  }

  ghost function Commit(g: Genesis, s: State, winner: string, now: int): State
    requires Wins(g, s, winner)
  {
    if ExitsOn(s.ledger, NextBlock(g, s)) then Extended(g, s, winner, now).(fatal := true)
    else Renewed(g, Executed(g, s, winner, now))
  }

  ghost predicate Enabled(g: Genesis, s: State, e: Event) {
    && !s.fatal
    && match e
       case Submit(m, block, winner, _) =>
         && m < |s.tallies|
         && var s' := AfterRecord(g, s, m, block);
            Total(s'.tallies[m]) >= g.proposers && Live(s') != map[] ==> IsWinner(Live(s'), winner)
       case Collect(shard, _, _, _) => shard in s.rounds && shard in s.relays
  }

  ghost function Step(g: Genesis, s: State, e: Event): State
    requires Enabled(g, s, e)
  {
    match e
    case Submit(m, block, winner, now) =>
      var s' := AfterRecord(g, s, m, block);
      if Commits(g, s, e) then Commit(g, s', winner, now) else s'
    case Collect(shard, root, txNum, uploads) =>
      var r := s.rounds[shard];
      var s' := s.(rounds := s.rounds[shard := Collected(r, root, txNum, g.clientMax)]);
      if Accepts(r, root, g.clientMax) then s'.(relays := s.relays[shard := s.relays[shard] + Stored(uploads)])
      else s'
  }

  /** Runs: sequences of uploads, each possible when it arrives. */
  ghost predicate ValidRun(g: Genesis, es: seq<Event>)
    decreases |es|, 0
  {
    es == [] || (ValidRun(g, es[..|es| - 1]) && Enabled(g, Run(g, es[..|es| - 1]), es[|es| - 1]))
  }

  ghost function Run(g: Genesis, es: seq<Event>): State
    requires ValidRun(g, es)
    decreases |es|, 1
  {
    if es == [] then Initial(g) else Step(g, Run(g, es[..|es| - 1]), es[|es| - 1])
  }

  /** The event `e` accepts a shard's round. */
  predicate AcceptsRound(g: Genesis, s: State, e: Event) {
    e.Collect? && e.shard in s.rounds && Accepts(s.rounds[e.shard], e.root, g.clientMax)
  }

  /** The event `e` commits a block and the server goes on. */
  ghost predicate Executes(g: Genesis, s: State, e: Event) {
    Commits(g, s, e) && !ExitsOn(s.ledger, NextBlock(g, s))
  }

  /** Field by field, what a step does. */
  lemma StepFields(g: Genesis, s: State, e: Event)
    requires Enabled(g, s, e)
    ensures var s' := Step(g, s, e);
      && s'.ledger == (if Executes(g, s, e) then ApplyBlock(s.ledger, NextBlock(g, s)) else s.ledger)
      && s'.total == s.total + (if Executes(g, s, e) then CountedSum(s.rounds, g.shards, g.clientMax) else 0)
      && s'.fatal == (Commits(g, s, e) && ExitsOn(s.ledger, NextBlock(g, s)))
    ensures Step(g, s, e).relays ==
      if AcceptsRound(g, s, e) then s.relays[e.shard := s.relays[e.shard] + Stored(e.uploads)] else s.relays
    ensures Step(g, s, e).rounds ==
      if Executes(g, s, e) then FreshRounds(g.shards)
      else if e.Collect? then s.rounds[e.shard := Collected(s.rounds[e.shard], e.root, e.txNum, g.clientMax)]
      else s.rounds
  {
    hide ExitsOn, Packed;
  }

  /** What a step does to the tallies, the chain and the block table. */
  lemma StepChain(g: Genesis, s: State, e: Event)
    requires Enabled(g, s, e)
    ensures var s' := Step(g, s, e);
      if Commits(g, s, e) then
        var b := Decided(g, AfterRecord(g, s, e.tally, e.block), e.winner, e.now);
        && s'.chain == s.chain + [b] && s'.rows == s.rows + [RowOf(b)]
        && b.header.height == Height(s) + 1
      else
        s'.chain == s.chain && s'.rows == s.rows
    ensures Step(g, s, e).tallies ==
      (if e.Submit? then RecordedIn(g, s.tallies, e.tally, e.block) else s.tallies)
        + (if Executes(g, s, e) then NewTallies(g.shards) else [])
  {
    hide ExitsOn, Packed;
  }

  /** The shape every reachable state has. */
  ghost predicate Shape(g: Genesis, s: State) {
    && s.tallies != []
    && Chained(s.chain, s.rows)
    && s.relays.Keys == g.members.Keys
    && MembersOf(s.ledger) == g.members
    && (forall i :: i in s.rounds <==> 1 <= i <= g.shards)
  }

  lemma ApplyKeepsMembers(ledger: Ledger, b: TransactionBlock)
    ensures MembersOf(ApplyBlock(ledger, b)) == MembersOf(ledger)
  {
    assert forall s :: s in ledger ==> ApplyBlock(ledger, b)[s].Keys == ledger[s].Keys;
  }

  lemma InitialShape(g: Genesis)
    ensures Shape(g, Initial(g))
  {
    var l := InitialLedger(g.members);
    assert forall s :: s in g.members ==> l[s].Keys == g.members[s];
  }

  lemma StepKeepsShape(g: Genesis, s: State, e: Event)
    requires Shape(g, s) && Enabled(g, s, e)
    ensures Shape(g, Step(g, s, e))
  {
    hide Step, ExitsOn, Packed, ApplyBlock, MembersOf, Commits;
    StepFields(g, s, e);
    StepChain(g, s, e);
    ChainedHeight(s.chain, s.rows);
    ApplyKeepsMembers(s.ledger, NextBlock(g, s));
  }

  lemma {:induction false} RunShape(g: Genesis, es: seq<Event>)
    requires ValidRun(g, es)
    ensures Shape(g, Run(g, es))
  {
    hide Step, Shape, Initial, Enabled;
    if es == [] {
      InitialShape(g);
    } else {
      RunShape(g, es[..|es| - 1]);
      StepKeepsShape(g, Run(g, es[..|es| - 1]), es[|es| - 1]);
    }
  }

  /** The chain grows exactly when a block is executed, unless the server exits. */
  lemma StepHeight(g: Genesis, s: State, e: Event)
    requires Shape(g, s) && Enabled(g, s, e) && !Step(g, s, e).fatal
    ensures |s.chain| == Height(s)
    ensures |Step(g, s, e).chain| == |s.chain| + (if Executes(g, s, e) then 1 else 0)
  {
    hide Step, Enabled, ExitsOn, Wins, Packed;
    StepChain(g, s, e);
    StepFields(g, s, e);
    ChainedHeight(s.chain, s.rows);
  }

  lemma HeightIsLength(g: Genesis, es: seq<Event>)
    requires ValidRun(g, es)
    ensures Height(Run(g, es)) == |Run(g, es).chain|
  {
    RunShape(g, es);
    ChainedHeight(Run(g, es).chain, Run(g, es).rows);
  }
}
