/** The ledger over all runs of the server. */
module ServerLedger {
  import opened Data
  import opened Postings
  import opened BlockExecution
  import opened PoolSpec
  import opened Server
  import opened ServerAccounting
  import MapSums
  import Windows

  ghost predicate PoolEntry(g: Genesis, s: int, kind: int, w: WitnessTrans) {
    && w.kind == kind && w.shard == s && w.value == 1 && HasAccount(g.members, s, w.from)
    && (kind == INTERNAL ==> HasAccount(g.members, s, w.to))
    && (kind == CROSS ==>
          w.toShard == (if s == g.shards then 1 else s + 1) && HasAccount(g.members, w.toShard, w.to))
  }

  /** The pools of a shard hold `m` batches of valid start-up entries. */
  ghost predicate EntriesReady(g: Genesis, s: int) {
    && s in g.internalPool && s in g.crossPool
    && |g.internalPool[s]| == |g.crossPool[s]| == g.m * g.v
    && (forall w :: w in g.internalPool[s] ==> PoolEntry(g, s, INTERNAL, w))
    && (forall w :: w in g.crossPool[s] ==> PoolEntry(g, s, CROSS, w))
  }

  ghost predicate AllReady(g: Genesis) {
    && g.v > 0 && g.m > 0
    && forall s :: s in g.members ==> EntriesReady(g, s)
  }

  /** What the commit that raises the height from `h` takes from a shard's start-up pools. */
  lemma WindowReady(g: Genesis, s: int, h: nat)
    requires AllReady(g) && s in g.members
    ensures var w := Window(Pool(g.internalPool, s), h, g.v);
      |w| == g.v && forall x :: x in w ==> PoolEntry(g, s, INTERNAL, x)
    ensures var w := Window(Pool(g.crossPool, s), h, g.v);
      |w| == g.v && forall x :: x in w ==> PoolEntry(g, s, CROSS, x)
  {
    hide PoolEntry;
    WindowIsChunk(g.internalPool[s], g.m, h, g.v);
    WindowIsChunk(g.crossPool[s], g.m, h, g.v);
  }

  /** The relays a commit would execute in shard `s` all target accounts of that shard. */
  ghost predicate RelaysFit(g: Genesis, relays: map<int, seq<WitnessTrans>>, s: int) {
    RelaysAllowed(g.members, s, RelaysAt(g, relays, s))
  }

  lemma PooledAllowed(g: Genesis, s: int, h: nat)
    requires AllReady(g) && s in g.members
    ensures InternalsAllowed(g.members, s, InternalsAt(g, h, s))
    ensures CrossesAllowed(g.members, s, CrossesAt(g, h, s))
  {
    WindowReady(g, s, h);
    hide Window, AllReady;
    var w, c := Window(Pool(g.internalPool, s), h, g.v), Window(Pool(g.crossPool, s), h, g.v);
    forall tx | tx in Internals(w) ensures InternalAllowed(g.members, s, tx) {
      var i :| 0 <= i < |w| && tx == ToInternal(w[i]);
      assert PoolEntry(g, s, INTERNAL, w[i]);
    }
    forall tx | tx in Crosses(c) ensures CrossAllowed(g.members, s, tx) {
      var i :| 0 <= i < |c| && tx == ToCross(c[i]);
      assert PoolEntry(g, s, CROSS, c[i]);
    }
  }

  /** No executor's guard fails at a commit, so the server does not exit, if and only if every relay
      in the selected windows targets an account of the shard whose pool holds it. */
  lemma ExitIffMisplacedRelay(g: Genesis, s: State)
    requires AllReady(g) && MembersOf(s.ledger) == g.members
    ensures !ExitsOn(s.ledger, NextBlock(g, s)) <==> forall i :: i in g.members ==> RelaysFit(g, s.relays, i)
  {
    hide AllReady, InternalsAllowed, CrossesAllowed, RelaysAllowed, InternalsAt, CrossesAt, RelaysAt;
    forall i | i in g.members
      ensures InternalsAllowed(g.members, i, NextBlock(g, s).internalList[i])
      ensures CrossesAllowed(g.members, i, NextBlock(g, s).crossShardList[i])
      ensures RelaysAllowed(g.members, i, NextBlock(g, s).superList[i]) <==> RelaysFit(g, s.relays, i)
    {
      PooledAllowed(g, i, Height(s));
    }
  }

  /** Every uploaded relay targets an existing account of the uploading shard. */
  ghost predicate WellTargeted(g: Genesis, es: seq<Event>) {
    forall e :: e in es && e.Collect? ==> RelaysAllowed(g.members, e.shard, e.uploads)
  }

  lemma {:induction false} UploadsAllowed(g: Genesis, es: seq<Event>, shard: int)
    requires ValidRun(g, es) && WellTargeted(g, es)
    ensures RelaysAllowed(g.members, shard, AcceptedUploads(g, es, shard))
  {
    hide Step, Enabled, RelayAllowed;
    if es != [] {
      var init, e := es[..|es| - 1], es[|es| - 1];
      assert forall x :: x in init ==> x in es;
      assert e in es;
      UploadsAllowed(g, init, shard);
      forall tx | tx in AcceptedUploads(g, es, shard) ensures RelayAllowed(g.members, shard, tx) {
        if tx !in AcceptedUploads(g, init, shard) { assert tx in e.uploads && e.shard == shard; }
      }
    }
  }

  /** No fatal exit on any run whose uploads are well targeted. */
  lemma {:induction false} NeverExits(g: Genesis, es: seq<Event>)
    requires AllReady(g) && ValidRun(g, es) && WellTargeted(g, es)
    ensures !Run(g, es).fatal
  {
    hide Step, ExitsOn, Packed, AllReady, RelaysFit, Commits, AcceptedUploads;
    if es != [] {
      var init, e := es[..|es| - 1], es[|es| - 1];
      var s := Run(g, init);
      assert forall x :: x in init ==> x in es;
      forall i | i in g.members ensures RelaysFit(g, s.relays, i) { RelaysFitOnRun(g, init, i); }
      RunShape(g, init);
      ExitIffMisplacedRelay(g, s);
      StepFields(g, s, e);
    }
  }

  lemma RelaysFitOnRun(g: Genesis, es: seq<Event>, shard: int)
    requires ValidRun(g, es) && WellTargeted(g, es) && shard in g.members
    ensures RelaysFit(g, Run(g, es).relays, shard)
  {
    hide Run, ValidRun, AcceptedUploads, Window;
    RelayPool(g, es, shard);
    UploadsAllowed(g, es, shard);
  }

  /** Everything the commits of a run booked in `shard`. */
  ghost function Booked(g: Genesis, es: seq<Event>, shard: int): seq<Posting>
    requires ValidRun(g, es)
  {
    if es == [] then []
    else
      var s, e := Run(g, es[..|es| - 1]), es[|es| - 1];
      Booked(g, es[..|es| - 1], shard) + (if Executes(g, s, e) then BlockPostings(NextBlock(g, s), shard) else [])
  }

  /** The relays the commits of a run executed in `shard`. */
  ghost function ExecutedRelays(g: Genesis, es: seq<Event>, shard: int): seq<SuperTransaction>
    requires ValidRun(g, es)
  {
    if es == [] then []
    else
      var s, e := Run(g, es[..|es| - 1]), es[|es| - 1];
      ExecutedRelays(g, es[..|es| - 1], shard)
        + (if Executes(g, s, e) then RelaysAt(g, s.relays, shard) else [])
  }

  lemma StepLedger(g: Genesis, s: State, e: Event, shard: int, m: map<string, int>, ps: seq<Posting>)
    requires Enabled(g, s, e) && shard in s.ledger && s.ledger[shard] == Applied(m, ps)
    ensures shard in Step(g, s, e).ledger
    ensures Step(g, s, e).ledger[shard] ==
      Applied(m, ps + (if Executes(g, s, e) then BlockPostings(NextBlock(g, s), shard) else []))
  {
    hide Step, ExitsOn, Packed, Commits, BlockPostings, Applied;
    StepFields(g, s, e);
    if Executes(g, s, e) {
      AppliedConcat(m, ps, BlockPostings(NextBlock(g, s), shard));
    } else {
      assert ps + [] == ps;
    }
  }

  /** In every reachable state each balance is the initial one plus all that was booked. */
  lemma {:induction false} LedgerIsBooked(g: Genesis, es: seq<Event>, shard: int)
    requires ValidRun(g, es) && shard in g.members
    ensures shard in Run(g, es).ledger
    ensures Run(g, es).ledger[shard] == Applied(InitialLedger(g.members)[shard], Booked(g, es, shard))
  {
    hide Step, Enabled, Executes, NextBlock;
    if es == [] {
      assert InitialLedger(g.members)[shard] == Applied(InitialLedger(g.members)[shard], []);
    } else {
      var init := es[..|es| - 1];
      LedgerIsBooked(g, init, shard);
      StepLedger(g, Run(g, init), es[|es| - 1], shard, InitialLedger(g.members)[shard], Booked(g, init, shard));
    }
  }

  function ValueSum(txs: seq<SuperTransaction>): int {
    if txs == [] then 0 else ValueSum(txs[..|txs| - 1]) + txs[|txs| - 1].value
  }

  lemma {:induction false} ValueSumConcat(xs: seq<SuperTransaction>, ys: seq<SuperTransaction>)
    ensures ValueSum(xs + ys) == ValueSum(xs) + ValueSum(ys)
  {
    if ys == [] {
      assert xs + ys == xs;
    } else {
      assert (xs + ys)[..|xs + ys| - 1] == xs + ys[..|ys| - 1];
      ValueSumConcat(xs, ys[..|ys| - 1]);
    }
  }

  lemma {:induction false} NetOfInternals(txs: seq<InternalTransaction>)
    ensures NetTotal(InternalPostings(txs)) == 0
  {
    if txs != [] {
      NetOfInternals(txs[..|txs| - 1]);
      assert InternalPostings(txs)[..|txs| - 1] == InternalPostings(txs[..|txs| - 1]);
    }
  }

  lemma {:induction false} NetOfCrosses(txs: seq<CrossShardTransaction>)
    requires forall tx :: tx in txs ==> tx.value == 1
    ensures NetTotal(CrossPostings(txs)) == -|txs|
  {
    if txs != [] {
      assert txs[|txs| - 1] in txs;
      NetOfCrosses(txs[..|txs| - 1]);
      assert CrossPostings(txs)[..|txs| - 1] == CrossPostings(txs[..|txs| - 1]);
    }
  }

  lemma {:induction false} NetOfRelays(txs: seq<SuperTransaction>)
    ensures NetTotal(RelayPostings(txs)) == ValueSum(txs)
  {
    if txs != [] {
      NetOfRelays(txs[..|txs| - 1]);
      assert RelayPostings(txs)[..|txs| - 1] == RelayPostings(txs[..|txs| - 1]);
    }
  }

  /** One commit changes a shard's total by the relay credits minus one unit for each of the `v`
      cross-shard transactions. */
  lemma NetOfBlock(g: Genesis, s: State, shard: int)
    requires AllReady(g) && shard in g.members
    ensures NetTotal(BlockPostings(NextBlock(g, s), shard)) ==
      ValueSum(RelaysAt(g, s.relays, shard)) - g.v
  {
    var b := NextBlock(g, s);
    PooledValues(g, Height(s), shard);
    NetOfInternals(b.internalList[shard]);
    NetOfCrosses(b.crossShardList[shard]);
    NetOfRelays(b.superList[shard]);
    NetTotalConcat(RelaysOf(b, shard), InternalsOf(b, shard));
    NetTotalConcat(RelaysOf(b, shard) + InternalsOf(b, shard), CrossesOf(b, shard));
  }

  lemma PooledValues(g: Genesis, h: nat, shard: int)
    requires AllReady(g) && shard in g.members
    ensures var txs := InternalsAt(g, h, shard);
      |txs| == g.v && forall tx :: tx in txs ==> tx.value == 1
    ensures var txs := CrossesAt(g, h, shard);
      |txs| == g.v && forall tx :: tx in txs ==> tx.value == 1
  {
    WindowReady(g, shard, h);
    hide Window, AllReady;
    var w, c := Window(Pool(g.internalPool, shard), h, g.v), Window(Pool(g.crossPool, shard), h, g.v);
    forall tx | tx in Internals(w) ensures tx.value == 1 {
      var i :| 0 <= i < |w| && tx == ToInternal(w[i]);
      assert PoolEntry(g, shard, INTERNAL, w[i]);
    }
    forall tx | tx in Crosses(c) ensures tx.value == 1 {
      var i :| 0 <= i < |c| && tx == ToCross(c[i]);
      assert PoolEntry(g, shard, CROSS, c[i]);
    }
  }

  lemma ExecutedIsAllowed(g: Genesis, s: State, e: Event)
    requires Shape(g, s) && Executes(g, s, e)
    ensures BlockAllowed(g.members, NextBlock(g, s))
  {
    hide Commits, NextBlock, BlockAllowed, MembersOf;
  }

  lemma AllKnownConcat(ps: seq<Posting>, qs: seq<Posting>, addresses: set<string>)
    requires AllKnown(ps, addresses) && AllKnown(qs, addresses)
    ensures AllKnown(ps + qs, addresses)
  {
    hide Known;
  }

  /** One step's share in the total of a shard. */
  lemma StepNet(
    g: Genesis, s: State, e: Event, shard: int, ps: seq<Posting>, relays: seq<SuperTransaction>)
    requires AllReady(g) && shard in g.members && Shape(g, s) && Enabled(g, s, e) && !Step(g, s, e).fatal
    requires AllKnown(ps, g.members[shard])
    requires NetTotal(ps) == ValueSum(relays) - g.v * |s.chain|
    ensures var ps' := ps + (if Executes(g, s, e) then BlockPostings(NextBlock(g, s), shard) else []);
      var relays' := relays + (if Executes(g, s, e) then RelaysAt(g, s.relays, shard) else []);
      NetTotal(ps') == ValueSum(relays') - g.v * |Step(g, s, e).chain| && AllKnown(ps', g.members[shard])
  {
    hide *;
    StepHeight(g, s, e);
    if Executes(g, s, e) {
      var b, window := BlockPostings(NextBlock(g, s), shard), RelaysAt(g, s.relays, shard);
      NetOfBlock(g, s, shard);
      NetTotalConcat(ps, b);
      ValueSumConcat(relays, window);
      ExecutedIsAllowed(g, s, e);
      BlockPostingsKnown(g.members, NextBlock(g, s), shard);
      AllKnownConcat(ps, b, g.members[shard]);
      assert g.v * (|s.chain| + 1) == g.v * |s.chain| + g.v;
    } else {
      assert ps + [] == ps && relays + [] == relays;
    }
  }

  lemma {:induction false} BookedNet(g: Genesis, es: seq<Event>, shard: int)
    requires AllReady(g) && ValidRun(g, es) && shard in g.members && !Run(g, es).fatal
    ensures AllKnown(Booked(g, es, shard), g.members[shard])
    ensures NetTotal(Booked(g, es, shard)) == ValueSum(ExecutedRelays(g, es, shard)) - g.v * |Run(g, es).chain|
  {
    hide Step, AllReady, Executes, AllKnown, NetTotal, ValueSum;
    if es == [] {
      NothingBooked(g, shard);
    } else {
      var init := es[..|es| - 1];
      BookedNet(g, init, shard);
      RunShape(g, init);
      StepNet(g, Run(g, init), es[|es| - 1], shard, Booked(g, init, shard), ExecutedRelays(g, init, shard));
    }
  }

  lemma NothingBooked(g: Genesis, shard: int)
    requires shard in g.members
    ensures AllKnown([], g.members[shard]) && NetTotal([]) == ValueSum([]) - g.v * |Initial(g).chain|
  {
  }

  /** Exact ledger accounting: after any run a shard's total is the initial one, minus one unit for
      each of the `v` cross-shard transactions of every block, plus all executed relay credits.
      Internal transactions leave it unchanged. */
  lemma LedgerTotal(g: Genesis, es: seq<Event>, shard: int)
    requires AllReady(g) && ValidRun(g, es) && shard in g.members && !Run(g, es).fatal
    ensures shard in Run(g, es).ledger
    ensures MapSums.Sum(Run(g, es).ledger[shard]) ==
      INITIAL_BALANCE * |g.members[shard]| - g.v * |Run(g, es).chain| + ValueSum(ExecutedRelays(g, es, shard))
  {
    hide Run, ValidRun, Booked, ExecutedRelays, NetTotal;
    var m := InitialLedger(g.members)[shard];
    LedgerIsBooked(g, es, shard);
    BookedNet(g, es, shard);
    TotalAfter(m, Booked(g, es, shard));
    MapSums.SumConstant(m, INITIAL_BALANCE);
    assert m.Keys == g.members[shard];
  }

  ghost predicate NonNegativeUploads(es: seq<Event>) {
    forall e, tx :: e in es && e.Collect? && tx in e.uploads ==> tx.value >= 0
  }

  lemma {:induction false} UploadsNonNegative(g: Genesis, es: seq<Event>, shard: int)
    requires ValidRun(g, es) && NonNegativeUploads(es)
    ensures forall tx :: tx in AcceptedUploads(g, es, shard) ==> tx.value >= 0
  {
    hide Step, Enabled;
    if es != [] {
      var init, e := es[..|es| - 1], es[|es| - 1];
      assert forall x :: x in init ==> x in es;
      UploadsNonNegative(g, init, shard);
      assert e in es;
    }
  }

  /** One commit lowers no balance by more than `2v`. */
  lemma BlockLossBound(g: Genesis, s: State, shard: int, a: string)
    requires AllReady(g) && shard in g.members
    requires forall tx :: tx in RelaysAt(g, s.relays, shard) ==> tx.value >= 0
    ensures Delta(BlockPostings(NextBlock(g, s), shard), a) >= -2 * g.v
  {
    var b := NextBlock(g, s);
    PooledValues(g, Height(s), shard);
    UnitLossBound(InternalsOf(b, shard), a);
    UnitLossBound(CrossesOf(b, shard), a);
    CreditsNonNegative(RelaysOf(b, shard), a);
    BlockDelta(b, shard, a);
  }

  lemma StepLossBound(g: Genesis, s: State, e: Event, shard: int, a: string, ps: seq<Posting>)
    requires AllReady(g) && shard in g.members && Enabled(g, s, e)
    requires forall tx :: tx in RelaysAt(g, s.relays, shard) ==> tx.value >= 0
    requires Delta(ps, a) >= -2 * g.v * |s.chain|
    ensures Delta(ps + (if Executes(g, s, e) then BlockPostings(NextBlock(g, s), shard) else []), a)
         >= -2 * g.v * |Step(g, s, e).chain|
  {
    hide Step, AllReady, NextBlock, BlockPostings, Delta, ExitsOn, RelaysAt;
    StepChain(g, s, e);
    var v, n := g.v, |s.chain|;
    assert -2 * v * (n + 1) == -2 * v * n - 2 * v;
    if Executes(g, s, e) {
      BlockLossBound(g, s, shard, a);
      DeltaConcat(ps, BlockPostings(NextBlock(g, s), shard), a);
    } else {
      assert ps + [] == ps;
    }
  }

  lemma {:induction false} BookedLossBound(g: Genesis, es: seq<Event>, shard: int, a: string)
    requires AllReady(g) && ValidRun(g, es) && shard in g.members && NonNegativeUploads(es)
    ensures Delta(Booked(g, es, shard), a) >= -2 * g.v * |Run(g, es).chain|
  {
    hide Step, AllReady, Executes, Enabled;
    if es != [] {
      var init := es[..|es| - 1];
      var s := Run(g, init);
      assert forall x :: x in init ==> x in es;
      BookedLossBound(g, init, shard, a);
      UploadsNonNegative(g, init, shard);
      RelayPool(g, init, shard);
      StepLossBound(g, s, es[|es| - 1], shard, a, Booked(g, init, shard));
    }
  }

  /** With non-negative relay values no account is below its initial balance minus `2v` per block. */
  lemma BalanceBound(g: Genesis, es: seq<Event>, shard: int, a: string)
    requires AllReady(g) && ValidRun(g, es) && NonNegativeUploads(es)
    requires shard in g.members && a in g.members[shard]
    ensures shard in Run(g, es).ledger && a in Run(g, es).ledger[shard]
    ensures Run(g, es).ledger[shard][a] >= INITIAL_BALANCE - 2 * g.v * |Run(g, es).chain|
  {
    hide Run, ValidRun, Booked, Delta;
    LedgerIsBooked(g, es, shard);
    BookedLossBound(g, es, shard, a);
  }
}
