/** Bookkeeping view of the three transaction kinds. An internal transfer debits and credits one
    shard, a cross-shard transfer only debits its source shard, a relay only credits its target. */
module Postings {
  import opened Data
  import MapSums

  datatype Posting = Posting(debit: Option<string>, credit: Option<string>, value: int)

  /** What one posting adds to the balance of address `a`. */
  function Effect(p: Posting, a: string): int {
    (if p.credit == Some(a) then p.value else 0) - (if p.debit == Some(a) then p.value else 0)
  }

  /** What one posting adds to the total of the shard it is executed in. */
  function Net(p: Posting): int {
    (if p.credit.Some? then p.value else 0) - (if p.debit.Some? then p.value else 0)
  }

  function Delta(ps: seq<Posting>, a: string): int {
    if ps == [] then 0 else Delta(ps[..|ps| - 1], a) + Effect(ps[|ps| - 1], a)
  }

  function NetTotal(ps: seq<Posting>): int {
    if ps == [] then 0 else NetTotal(ps[..|ps| - 1]) + Net(ps[|ps| - 1])
  }

  predicate Known(p: Posting, addresses: set<string>) {
    && (p.debit.Some? ==> p.debit.value in addresses)
    && (p.credit.Some? ==> p.credit.value in addresses)
  }

  ghost predicate AllKnown(ps: seq<Posting>, addresses: set<string>) {
    forall p :: p in ps ==> Known(p, addresses)
  }

  /** Executing a list of postings: every balance moves by its incoming minus its outgoing value. */
  function Applied(m: map<string, int>, ps: seq<Posting>): map<string, int> {
    map a | a in m :: m[a] + Delta(ps, a)
  }

  lemma {:induction false} DeltaConcat(ps: seq<Posting>, qs: seq<Posting>, a: string)
    ensures Delta(ps + qs, a) == Delta(ps, a) + Delta(qs, a)
  {
    if qs == [] {
      assert ps + qs == ps;
    } else {
      assert (ps + qs)[..|ps + qs| - 1] == ps + qs[..|qs| - 1];
      DeltaConcat(ps, qs[..|qs| - 1], a);
    }
  }

  lemma {:induction false} NetTotalConcat(ps: seq<Posting>, qs: seq<Posting>)
    ensures NetTotal(ps + qs) == NetTotal(ps) + NetTotal(qs)
  {
    if qs == [] {
      assert ps + qs == ps;
    } else {
      assert (ps + qs)[..|ps + qs| - 1] == ps + qs[..|qs| - 1];
      NetTotalConcat(ps, qs[..|qs| - 1]);
    }
  }

  /** Two lists executed in either order, or as one list, leave the same balances. */
  lemma AppliedConcat(m: map<string, int>, ps: seq<Posting>, qs: seq<Posting>)
    ensures Applied(Applied(m, ps), qs) == Applied(m, ps + qs) == Applied(Applied(m, qs), ps)
  {
    forall a | a in m
      ensures Applied(Applied(m, ps), qs)[a] == Applied(m, ps + qs)[a] == Applied(Applied(m, qs), ps)[a]
    {
      DeltaConcat(ps, qs, a);
    }
  }

  predicate Mentions(p: Posting, a: string) {
    p.debit == Some(a) || p.credit == Some(a)
  }

  lemma {:induction false} UnmentionedUnchanged(ps: seq<Posting>, a: string)
    requires forall p :: p in ps ==> !Mentions(p, a)
    ensures Delta(ps, a) == 0
  {
    if ps != [] {
      UnmentionedUnchanged(ps[..|ps| - 1], a);
      assert !Mentions(ps[|ps| - 1], a);
    }
  }

  /** A shard's total moves by the net value of the postings, so internal transfers preserve it. */
  lemma {:induction false} TotalAfter(m: map<string, int>, ps: seq<Posting>)
    requires AllKnown(ps, m.Keys)
    ensures MapSums.Sum(Applied(m, ps)) == MapSums.Sum(m) + NetTotal(ps)
  {
    if ps == [] {
      assert Applied(m, ps) == m;
    } else {
      var init, p := ps[..|ps| - 1], ps[|ps| - 1];
      var m' := Applied(m, init);
      TotalAfter(m, init);
      OneTotal(m', p);
      assert Applied(m, ps) == map a | a in m' :: m'[a] + Effect(p, a);
    }
  }

  /** `m` with `v` added to the balance of `a`, if an address is given. */
  function Add(m: map<string, int>, a: Option<string>, v: int): map<string, int>
    requires a.Some? ==> a.value in m
  {
    if a.Some? then m[a.value := m[a.value] + v] else m
  }

  lemma AddTotal(m: map<string, int>, a: Option<string>, v: int)
    requires a.Some? ==> a.value in m
    ensures MapSums.Sum(Add(m, a, v)) == MapSums.Sum(m) + (if a.Some? then v else 0)
  {
    if a.Some? { MapSums.SumUpdate(m, a.value, m[a.value] + v); }
  }

  lemma OneTotal(m: map<string, int>, p: Posting)
    requires Known(p, m.Keys)
    ensures MapSums.Sum(map a | a in m :: m[a] + Effect(p, a)) == MapSums.Sum(m) + Net(p)
  {
    AddTotal(m, p.debit, -p.value);
    AddTotal(Add(m, p.debit, -p.value), p.credit, p.value);
    var m' := Add(Add(m, p.debit, -p.value), p.credit, p.value);
    assert (map a | a in m :: m[a] + Effect(p, a)) == m';
  }

  /** A list of `n` postings of value 1 lowers no balance by more than `n`. */
  lemma {:induction false} UnitLossBound(ps: seq<Posting>, a: string)
    requires forall p :: p in ps ==> p.value == 1
    ensures Delta(ps, a) >= -|ps|
  {
    if ps != [] {
      UnitLossBound(ps[..|ps| - 1], a);
    }
  }

  lemma {:induction false} CreditsNonNegative(ps: seq<Posting>, a: string)
    requires forall p :: p in ps ==> p.value >= 0 && p.debit.None?
    ensures Delta(ps, a) >= 0
  {
    if ps != [] {
      CreditsNonNegative(ps[..|ps| - 1], a);
    }
  }

  /** How each kind of transaction is booked by its executor. */
  function OfInternal(tx: InternalTransaction): Posting { Posting(Some(tx.from), Some(tx.to), tx.value) }

  function OfCross(tx: CrossShardTransaction): Posting { Posting(Some(tx.from), None, tx.value) }

  function OfRelay(tx: SuperTransaction): Posting { Posting(None, Some(tx.to), tx.value) }

  function InternalPostings(txs: seq<InternalTransaction>): seq<Posting> {
    seq(|txs|, i requires 0 <= i < |txs| => OfInternal(txs[i]))
  }

  function CrossPostings(txs: seq<CrossShardTransaction>): seq<Posting> {
    seq(|txs|, i requires 0 <= i < |txs| => OfCross(txs[i]))
  }

  function RelayPostings(txs: seq<SuperTransaction>): seq<Posting> {
    seq(|txs|, i requires 0 <= i < |txs| => OfRelay(txs[i]))
  }

  /** How a raw pool entry is booked, by its kind. */
  function OfWitness(w: WitnessTrans): Posting {
    if w.kind == INTERNAL then Posting(Some(w.from), Some(w.to), w.value)
    else if w.kind == CROSS then Posting(Some(w.from), None, w.value)
    else Posting(None, Some(w.to), w.value)
  }

  function WitnessPostings(ws: seq<WitnessTrans>): seq<Posting> {
    seq(|ws|, i requires 0 <= i < |ws| => OfWitness(ws[i]))
  }
}
