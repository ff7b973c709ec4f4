/** The account state: balances in heap objects that two maps share. Every executor reads a balance
    through `accountMap` and writes it through `newAccountMap`. */
module Accounts {
  import opened Data
  import opened Postings
  import opened Iteration
  import opened BlockExecution
  import opened Footprint
  import opened PoolSpec

  class Account {
    const id: int
    const shard: int
    const address: string
    var value: int

    constructor (id: int, shard: int, address: string, value: int)
      ensures this.id == id && this.shard == shard && this.address == address && this.value == value
    {
      this.id, this.shard, this.address, this.value := id, shard, address, value;
    }
  }

  function RecordOf(acc: Account): AccountRecord
    reads acc
  {
    AccountRecord(acc.id, acc.shard, acc.address, acc.value)
  }

  /** A new account at place `k` of the list. */
  ghost predicate Placed(acc: Account, k: nat, addressList: seq<string>)
    reads acc
  {
    k < |addressList| && acc.address == addressList[k] && acc.value == INITIAL_BALANCE
  }

  /** The first id of shard `s` when each shard has `n` accounts. */
  function FirstId(s: int, n: nat): nat
    requires s >= 1
  {
    if s == 1 then 0 else FirstId(s - 1, n) + n
  }

  lemma {:induction false} FirstIdIs(s: int, n: nat)
    requires s >= 1
    ensures FirstId(s, n) == (s - 1) * n
  {
    if s > 1 {
      FirstIdIs(s - 1, n);
      assert (s - 1) * n == (s - 2) * n + n;
    }
  }

  /** Shard `s` owns the ids of its block. */
  predicate Owns(s: int, k: int, n: nat) {
    s >= 1 && FirstId(s, n) <= k < FirstId(s, n) + n
  }

  lemma OwnedBlock(s: int, k: int, n: nat)
    requires Owns(s, k, n)
    ensures n * (s - 1) <= k < n * s
  {
    FirstIdIs(s, n);
    assert n * s == n * (s - 1) + n;
  }

  lemma PlacedDistinct(book: seq<Account>, addressList: seq<string>)
    requires NoDuplicates(addressList)
    requires forall k :: 0 <= k < |book| ==> Placed(book[k], k, addressList)
    ensures forall j, k :: 0 <= j < k < |book| ==> book[j].address != book[k].address
  {
    forall j, k | 0 <= j < k < |book| ensures book[j].address != book[k].address {
      assert Placed(book[j], j, addressList) && Placed(book[k], k, addressList);
    }
  }

  ghost predicate DistinctIds(list: seq<AccountRecord>) {
    forall i, j :: 0 <= i < j < |list| ==> list[i].id != list[j].id
  }

  /** `list` holds some of the records, each at most once; a record's id is its index. */
  ghost predicate OneEach(records: seq<AccountRecord>, list: seq<AccountRecord>) {
    DistinctIds(list) && forall r :: r in list ==> 0 <= r.id < |records| && records[r.id] == r
  }

  lemma OneMore(records: seq<AccountRecord>, list: seq<AccountRecord>, r: AccountRecord)
    requires OneEach(records, list) && r !in list && 0 <= r.id < |records| && records[r.id] == r
    ensures OneEach(records, list + [r])
  {
    assert forall j :: 0 <= j < |list| ==> list[j] in list;
  }

  /** `list` holds exactly the records of the shards below `i`. */
  ghost predicate ListedUpTo(records: seq<AccountRecord>, list: seq<AccountRecord>, i: int) {
    && OneEach(records, list)
    && (forall r :: r in list ==> r.shard < i)
    && (forall k :: 0 <= k < |records| && records[k].shard < i ==> records[k] in list)
  }

  ghost predicate Ascending(list: seq<AccountRecord>) {
    forall i, j :: 0 <= i < j < |list| ==> list[i].id < list[j].id
  }

  lemma AscendingFrom(x: AccountRecord, rest: seq<AccountRecord>)
    requires Ascending(rest) && forall y :: y in rest ==> x.id < y.id
    ensures Ascending([x] + rest)
  {
    assert forall i :: 0 <= i < |rest| ==> rest[i] in rest;
  }

  function Insert(r: AccountRecord, list: seq<AccountRecord>): (sorted: seq<AccountRecord>)
    requires Ascending(list) && forall x :: x in list ==> x.id != r.id
    ensures Ascending(sorted) && forall x :: x in sorted <==> x == r || x in list
  {
    if list == [] || r.id < list[0].id then [r] + list
    else
      var rest := Insert(r, list[1..]);
      assert forall x :: x in list[1..] ==> x in list && list[0].id < x.id;
      assert forall x :: x in list <==> x == list[0] || x in list[1..];
      AscendingFrom(list[0], rest);
      [list[0]] + rest
  }

  /** The library's sort, on lists without equal ids. */
  function SortById(list: seq<AccountRecord>): (sorted: seq<AccountRecord>)
    requires DistinctIds(list)
    ensures Ascending(sorted) && forall x :: x in sorted <==> x in list
  {
    if list == [] then []
    else
      assert forall x :: x in list <==> x == list[0] || x in list[1..];
      Insert(list[0], SortById(list[1..]))
  }

  /** Ids that are exactly `0..n-1` and ascending leave no freedom: entry `k` has id `k`. */
  lemma CanonicalOrder(list: seq<AccountRecord>, records: seq<AccountRecord>)
    requires Ascending(list)
    requires forall k :: 0 <= k < |records| ==> records[k].id == k
    requires forall x :: x in list <==> x in records
    ensures list == records
  {
    forall k: nat | k < |list|
      ensures k < |records| && list[k] == records[k]
    {
      CanonicalIndex(list, records, k);
    }
    if |list| > 0 { CanonicalIndex(list, records, |list| - 1); }
    if |records| > 0 {
      assert records[|records| - 1] in list;
      var i :| 0 <= i < |list| && list[i] == records[|records| - 1];
      CanonicalIndex(list, records, i);
    }
    assert |list| == |records|;
  }

  lemma {:induction false} CanonicalIndex(list: seq<AccountRecord>, records: seq<AccountRecord>, k: nat)
    requires Ascending(list) && k < |list|
    requires forall k :: 0 <= k < |records| ==> records[k].id == k
    requires forall x :: x in list <==> x in records
    ensures k < |records| && list[k] == records[k]
    decreases k
  {
    forall i | 0 <= i < k ensures i < |records| && list[i] == records[i] {
      CanonicalIndex(list, records, i);
    }
    assert list[k] in records;
    var j :| 0 <= j < |records| && list[k] == records[j];
    assert j >= k by { if k > 0 { assert list[k - 1].id == k - 1; } }
    assert records[k] in list;
    var i :| 0 <= i < |list| && list[i] == records[k];
    assert i >= k;
  }

  /** Which id an address stands for; ids and addresses of accounts never change. */
  ghost function BookDirectory(book: seq<Account>): map<string, int> {
    if book == [] then map[]
    else
      var last := book[|book| - 1];
      BookDirectory(book[..|book| - 1])[last.address := last.id]
  }

  lemma {:induction false} DirectoryOfRecords(book: seq<Account>, list: seq<AccountRecord>)
    requires |list| == |book|
    requires forall k :: 0 <= k < |book| ==> list[k].id == book[k].id && list[k].address == book[k].address
    ensures DirectoryOf(list) == BookDirectory(book)
  {
    if book != [] {
      DirectoryOfRecords(book[..|book| - 1], list[..|list| - 1]);
    }
  }

  /** With distinct addresses the directory finds every account. */
  lemma {:induction false} DirectoryFinds(book: seq<Account>)
    requires forall j, k :: 0 <= j < k < |book| ==> book[j].address != book[k].address
    ensures forall k :: 0 <= k < |book| ==>
      book[k].address in BookDirectory(book) && BookDirectory(book)[book[k].address] == book[k].id
  {
    if book != [] {
      var init := book[..|book| - 1];
      DirectoryFinds(init);
      forall k | 0 <= k < |book| - 1
        ensures book[k].address in BookDirectory(book) && BookDirectory(book)[book[k].address] == book[k].id
      {
        assert init[k] == book[k];
      }
    }
  }

  /** Block `j` of `n` ids lies within the first `shardNum` blocks. */
  lemma BlockFits(j: nat, shardNum: nat, n: nat)
    requires 1 <= j <= shardNum
    ensures FirstId(j, n) == (j - 1) * n
    ensures FirstId(j, n) + n <= n * shardNum
  {
    FirstIdIs(j, n);
    assert shardNum * n == j * n + (shardNum - j) * n;
  }

  lemma {:induction false} DirectoryOnly(book: seq<Account>, a: string)
    requires a in BookDirectory(book)
    ensures exists j :: 0 <= j < |book| && book[j].address == a && book[j].id == BookDirectory(book)[a]
  {
    var n := |book| - 1;
    if a == book[n].address {
      assert book[n].id == BookDirectory(book)[a];
    } else {
      DirectoryOnly(book[..n], a);
      var j :| 0 <= j < n && book[..n][j].address == a && book[..n][j].id == BookDirectory(book[..n])[a];
      assert book[j].address == a;
    }
  }

  /** A declared footprint is exact: it holds the id of an account if and only if executing some entry of
      the list debits or credits that account. */
  lemma {:induction false} FootprintExact(book: seq<Account>, ws: seq<WitnessTrans>, k: nat)
    requires k < |book| && forall i :: 0 <= i < |book| ==> book[i].id == i
    requires forall i, j :: 0 <= i < j < |book| ==> book[i].address != book[j].address
    ensures k in FootprintIds(BookDirectory(book), ws) <==>
      exists w :: w in ws && Mentions(OfWitness(w), book[k].address)
  {
    if ws != [] {
      var d, w := BookDirectory(book), ws[|ws| - 1];
      FootprintExact(book, ws[..|ws| - 1], k);
      DirectoryFinds(book);
      forall a | a in d && d[a] == k ensures a == book[k].address { DirectoryOnly(book, a); }
      assert k in IdsOf(d, w) <==> book[k].address in Touched(w);
      TouchedIsBooked(w, book[k].address);
      assert forall x :: x in ws <==> x in ws[..|ws| - 1] || x == w;
    }
  }

  /** What a batch declares, by its kind: payers and beneficiaries of internal entries, payers of
      cross-shard entries, beneficiaries of relays. */
  lemma BatchDeclares(
    book: seq<Account>, digest: seq<WitnessTrans> -> string, ws: seq<WitnessTrans>, b: BatchTrans,
    shard: int, kind: int, k: nat)
    requires k < |book| && forall i :: 0 <= i < |book| ==> book[i].id == i
    requires forall i, j :: 0 <= i < j < |book| ==> book[i].address != book[j].address
    requires IsBatch(digest, BookDirectory(book), ws, b, shard, kind) && OfKind(ws, kind)
    ensures k in b.relatedAccount <==>
      exists w :: w in ws &&
        (if kind == INTERNAL then w.from == book[k].address || w.to == book[k].address
         else if kind == CROSS then w.from == book[k].address
         else w.to == book[k].address)
  {
    FootprintExact(book, ws, k);
    var id: int := k;
    assert id in b.relatedAccount <==> id in FootprintIds(BookDirectory(book), ws);
  }

  class State {
    var accountMap: map<int, map<string, Account>>
    var newAccountMap: map<int, map<string, Account>>

    // All accounts, by id.
    ghost var book: seq<Account>

    ghost predicate Aliased()
      reads this
    {
      newAccountMap == accountMap
    }

    predicate Has(shard: int, address: string)
      reads this
    {
      shard in accountMap && address in accountMap[shard]
    }

    ghost predicate Valid()
      reads this
    {
      && Aliased()
      && (forall s, a :: Has(s, a) ==>
            var acc := accountMap[s][a];
            0 <= acc.id < |book| && book[acc.id] == acc && acc.shard == s && acc.address == a)
      && (forall k :: 0 <= k < |book| ==>
            book[k].id == k && Has(book[k].shard, book[k].address)
            && accountMap[book[k].shard][book[k].address] == book[k])
    }

    ghost function Members(): Members
      reads this
    {
      map s | s in accountMap :: accountMap[s].Keys
    }

    ghost function Ledger(): Ledger
      reads this, book
      requires Valid()
    {
      map s | s in accountMap :: map a | a in accountMap[s] :: accountMap[s][a].value
    }

    /** Addresses are disjoint across shards: one address names one account of the whole server. */
    ghost predicate DistinctAddresses()
      reads this
    {
      forall j, k :: 0 <= j < k < |book| ==> book[j].address != book[k].address
    }

    ghost predicate HasShards(shardNum: nat)
      reads this
    {
      forall s :: s in accountMap <==> 1 <= s <= shardNum
    }

    /** The account list in its canonical order, entry `k` being the account with id `k`. */
    ghost function Records(): seq<AccountRecord>
      reads this, book
    {
      seq(|book|, k requires 0 <= k < |book| reads this, book => RecordOf(book[k]))
    }

    constructor ()
      ensures accountMap == newAccountMap == map[] && book == []
    {
      accountMap, newAccountMap, book := map[], map[], [];
    }

    /** Gives shard `j` the `n` addresses from index `(j-1)*n` on, with consecutive ids. */
    method InitAccountList(shardNum: nat, n: nat, addressList: seq<string>)
      requires accountMap == newAccountMap == map[] && book == []
      requires |addressList| >= n * shardNum
      requires NoDuplicates(addressList)
      modifies this
      ensures Valid() && DistinctAddresses()
      ensures forall k :: 0 <= k < |book| ==> fresh(book[k])
      ensures HasShards(shardNum) && |book| == shardNum * n
      ensures forall k :: 0 <= k < |book| ==> Placed(book[k], k, addressList) && Owns(book[k].shard, k, n)
      ensures forall k :: 0 <= k < |book| ==>
        && book[k].id == k && book[k].value == 100000 && book[k].address == addressList[k]
        && n * (book[k].shard - 1) <= k < n * book[k].shard
    {
      for j := 1 to shardNum + 1
        invariant Valid() && HasShards(j - 1)
        invariant |book| == FirstId(j, n)
        invariant forall k :: 0 <= k < |book| ==> fresh(book[k]) && Placed(book[k], k, addressList)
        invariant forall k :: 0 <= k < |book| ==> Owns(book[k].shard, k, n)
      {
        BlockFits(j, shardNum, n);
        AddShard(j, n, (j - 1) * n, addressList);
      }
      FirstIdIs(shardNum + 1, n);
      PlacedDistinct(book, addressList);
      forall k | 0 <= k < |book| ensures n * (book[k].shard - 1) <= k < n * book[k].shard {
        OwnedBlock(book[k].shard, k, n);
      }
    }

    method AddShard(j: nat, n: nat, base: nat, addressList: seq<string>)
      requires Valid() && j !in accountMap
      requires |book| == base && base + n <= |addressList|
      requires NoDuplicates(addressList)
      requires forall k :: 0 <= k < |book| ==> Placed(book[k], k, addressList)
      modifies this
      ensures Valid() && accountMap.Keys == old(accountMap.Keys) + {j}
      ensures |book| == base + n && forall k :: 0 <= k < base ==> book[k] == old(book)[k]
      ensures forall k :: 0 <= k < |book| ==> Placed(book[k], k, addressList)
      ensures forall k :: base <= k < |book| ==> fresh(book[k]) && book[k].shard == j
    {
      accountMap := accountMap[j := map[]];
      newAccountMap := newAccountMap[j := map[]];
      FillShard(j, n, base, addressList);
    }

    method FillShard(j: nat, n: nat, base: nat, addressList: seq<string>)
      requires Valid() && j in accountMap
      requires |book| == base && base + n <= |addressList|
      requires NoDuplicates(addressList)
      requires forall k :: 0 <= k < |book| ==> Placed(book[k], k, addressList)
      modifies this
      ensures Valid() && accountMap.Keys == old(accountMap.Keys)
      ensures |book| == base + n && forall k :: 0 <= k < base ==> book[k] == old(book)[k]
      ensures forall k :: 0 <= k < |book| ==> Placed(book[k], k, addressList)
      ensures forall k :: base <= k < |book| ==> fresh(book[k]) && book[k].shard == j
    {
      hide Valid, NoDuplicates;
      for i := 0 to n
        invariant Valid() && accountMap.Keys == old(accountMap.Keys)
        invariant |book| == base + i && forall k :: 0 <= k < base ==> book[k] == old(book)[k]
        invariant forall k :: 0 <= k < |book| ==> Placed(book[k], k, addressList)
        invariant forall k :: base <= k < |book| ==> fresh(book[k]) && book[k].shard == j
      {
        AddAccount(base + i, j, addressList);
      }
    }

    method AddAccount(id: nat, j: nat, addressList: seq<string>)
      requires Valid() && j in accountMap
      requires |book| == id < |addressList| && NoDuplicates(addressList)
      requires forall k :: 0 <= k < |book| ==> Placed(book[k], k, addressList)
      modifies this
      ensures Valid() && accountMap.Keys == old(accountMap.Keys)
      ensures |book| == id + 1 && forall k :: 0 <= k < id ==> book[k] == old(book)[k]
      ensures fresh(book[id]) && Placed(book[id], id, addressList) && book[id].shard == j
    {
      var acc := new Account(id, j, addressList[id], INITIAL_BALANCE);
      forall a | Has(j, a) ensures a != addressList[id] {
        assert Placed(book[accountMap[j][a].id], accountMap[j][a].id, addressList);
      }
      accountMap := accountMap[j := accountMap[j][acc.address := acc]];
      newAccountMap := newAccountMap[j := newAccountMap[j][acc.address := acc]];
      book := book + [acc];
    }

    method AppendShard(list: seq<AccountRecord>, i: int, ghost records: seq<AccountRecord>)
      returns (acc: seq<AccountRecord>)
      requires Valid() && i in accountMap && records == Records()
      requires ListedUpTo(records, list, i)
      ensures ListedUpTo(records, acc, i + 1)
    {
      acc := list;
      var rest := accountMap[i].Keys;
      while rest != {}
        invariant rest <= accountMap[i].Keys
        invariant OneEach(records, acc)
        invariant forall r :: r in acc ==> r.shard <= i && (r.shard == i ==> r.address !in rest)
        invariant forall k :: 0 <= k < |records| && records[k].shard < i ==> records[k] in acc
        invariant forall k :: 0 <= k < |records| && records[k].shard == i && records[k].address !in rest ==> records[k] in acc
      {
        var a := Pick(rest);
        assert Has(i, a);
        var r := RecordOf(accountMap[i][a]);
        assert records[r.id] == r;
        OneMore(records, acc, r);
        acc := acc + [r];
        rest := rest - {a};
      }
    }

    /** All accounts sorted by id, although the maps are visited in an unknown order. */
    method GetAccountList(shardNum: nat) returns (list: seq<AccountRecord>)
      requires Valid()
      requires HasShards(shardNum)
      ensures list == Records()
    {
      ghost var records := Records();
      var acc: seq<AccountRecord> := [];
      for i := 1 to shardNum + 1
        invariant ListedUpTo(records, acc, i)
      {
        acc := AppendShard(acc, i, records);
      }
      list := SortById(acc);
      CanonicalOrder(list, records);
    }

    /** The addresses of one shard, each once, in an unknown order. */
    method GetAddressList(shard: int) returns (list: seq<string>)
      requires shard in accountMap
      ensures NoDuplicates(list)
      ensures forall a :: a in list <==> Has(shard, a)
    {
      list := Listed(accountMap[shard].Keys);
    }

    /** Payer and beneficiary may be one account: the credit reads the balance after the debit,
        because both maps hold the same object. */
    method ExecuteInternal(tx: InternalTransaction, shard: int) returns (ok: bool)
      requires Valid()
      modifies book
      ensures Valid()
      ensures ok <==> InternalAllowed(Members(), shard, tx)
      ensures ok <==> shard == tx.shard && Has(shard, tx.from) && Has(shard, tx.to)
      ensures ok && tx.from != tx.to ==>
        && accountMap[shard][tx.from].value == old(accountMap[shard][tx.from].value) - tx.value
        && accountMap[shard][tx.to].value == old(accountMap[shard][tx.to].value) + tx.value
      ensures ok && tx.from == tx.to ==>
        accountMap[shard][tx.from].value == old(accountMap[shard][tx.from].value)
      ensures forall k :: 0 <= k < |book| && (ok ==>
        book[k] != accountMap[shard][tx.from] && book[k] != accountMap[shard][tx.to]) ==>
          book[k].value == old(book[k].value)
      ensures ok ==> forall k :: 0 <= k < |book| ==>
        book[k].value == old(book[k].value)
          + (if book[k].shard == shard then Effect(OfInternal(tx), book[k].address) else 0)
    {
      if shard != tx.shard { return false; }
      if !Has(shard, tx.from) { return false; }
      if !Has(shard, tx.to) { return false; }
      var value1 := accountMap[shard][tx.from].value - tx.value;
      newAccountMap[shard][tx.from].value := value1;
      var value2 := accountMap[shard][tx.to].value + tx.value;
      newAccountMap[shard][tx.to].value := value2;
      ok := true;
    }

    /** Debits the payer and returns the relay the target shard would have to execute. */
    method ExecuteCross(tx: CrossShardTransaction, shard: int) returns (relay: Option<SuperTransaction>)
      requires Valid()
      modifies book
      ensures Valid()
      ensures relay.Some? <==> CrossAllowed(Members(), shard, tx)
      ensures relay.Some? <==> shard == tx.shard1 && Has(shard, tx.from)
      ensures relay.Some? ==> relay.value == SuperTransaction(tx.shard1, tx.shard2, tx.from, tx.to, tx.value)
      ensures relay.Some? ==>
        accountMap[shard][tx.from].value == old(accountMap[shard][tx.from].value) - tx.value
      ensures forall k :: 0 <= k < |book| && (relay.Some? ==> book[k] != accountMap[shard][tx.from]) ==>
        book[k].value == old(book[k].value)
      ensures relay.Some? ==> forall k :: 0 <= k < |book| ==>
        book[k].value == old(book[k].value)
          + (if book[k].shard == shard then Effect(OfCross(tx), book[k].address) else 0)
    {
      if shard != tx.shard1 { return None; }
      if !Has(shard, tx.from) { return None; }
      newAccountMap[shard][tx.from].value := accountMap[shard][tx.from].value - tx.value;
      relay := Some(SuperTransaction(tx.shard1, tx.shard2, tx.from, tx.to, tx.value));
    }

    method ExecuteRelay(tx: SuperTransaction, shard: int) returns (ok: bool)
      requires Valid()
      modifies book
      ensures Valid()
      ensures ok <==> RelayAllowed(Members(), shard, tx)
      ensures ok <==> shard == tx.shard && Has(shard, tx.to)
      ensures ok ==> accountMap[shard][tx.to].value == old(accountMap[shard][tx.to].value) + tx.value
      ensures forall k :: 0 <= k < |book| && (ok ==> book[k] != accountMap[shard][tx.to]) ==>
        book[k].value == old(book[k].value)
      ensures ok ==> forall k :: 0 <= k < |book| ==>
        book[k].value == old(book[k].value)
          + (if book[k].shard == shard then Effect(OfRelay(tx), book[k].address) else 0)
    {
      if shard != tx.shard { return false; }
      if !Has(shard, tx.to) { return false; }
      newAccountMap[shard][tx.to].value := accountMap[shard][tx.to].value + tx.value;
      ok := true;
    }

    /** No balance moved outside the accounts that the batch of `ws` declares. */
    twostate predicate OnlyFootprint(new ws: seq<WitnessTrans>)
      reads this, book
      requires book == old(book)
    {
      forall k :: 0 <= k < |book| && k !in FootprintIds(BookDirectory(book), ws) ==>
        book[k].value == old(book[k].value)
    }

    twostate lemma OutsideUnchanged(new ws: seq<WitnessTrans>, shard: int)
      requires Valid() && book == old(book)
      requires forall k :: 0 <= k < |book| ==>
        book[k].value == old(book[k].value)
          + (if book[k].shard == shard then Delta(WitnessPostings(ws), book[k].address) else 0)
      ensures DistinctAddresses() ==> OnlyFootprint(ws)
    {
      forall k | DistinctAddresses() && 0 <= k < |book| && k !in FootprintIds(BookDirectory(book), ws)
        ensures book[k].value == old(book[k].value)
      {
        DirectoryFinds(book);
        FootprintSound(BookDirectory(book), ws, book[k].address);
      }
    }

    twostate lemma InternalsFootprint(new txs: seq<InternalTransaction>, shard: int)
      requires Valid() && book == old(book)
      requires forall k :: 0 <= k < |book| ==>
        book[k].value == old(book[k].value)
          + (if book[k].shard == shard then Delta(InternalPostings(txs), book[k].address) else 0)
      ensures DistinctAddresses() ==>
        forall ws :: OfKind(ws, INTERNAL) && Internals(ws) == txs ==> OnlyFootprint(ws)
    {
      forall ws | OfKind(ws, INTERNAL) && Internals(ws) == txs ensures DistinctAddresses() ==> OnlyFootprint(ws) {
        ExecutedAsStored(ws, INTERNAL);
        OutsideUnchanged(ws, shard);
      }
    }

    twostate lemma CrossesFootprint(new txs: seq<CrossShardTransaction>, shard: int)
      requires Valid() && book == old(book)
      requires forall k :: 0 <= k < |book| ==>
        book[k].value == old(book[k].value)
          + (if book[k].shard == shard then Delta(CrossPostings(txs), book[k].address) else 0)
      ensures DistinctAddresses() ==>
        forall ws :: OfKind(ws, CROSS) && Crosses(ws) == txs ==> OnlyFootprint(ws)
    {
      forall ws | OfKind(ws, CROSS) && Crosses(ws) == txs ensures DistinctAddresses() ==> OnlyFootprint(ws) {
        ExecutedAsStored(ws, CROSS);
        OutsideUnchanged(ws, shard);
      }
    }

    twostate lemma RelaysFootprint(new txs: seq<SuperTransaction>, shard: int)
      requires Valid() && book == old(book)
      requires forall k :: 0 <= k < |book| ==>
        book[k].value == old(book[k].value)
          + (if book[k].shard == shard then Delta(RelayPostings(txs), book[k].address) else 0)
      ensures DistinctAddresses() ==>
        forall ws :: OfKind(ws, RELAY) && Supers(ws) == txs ==> OnlyFootprint(ws)
    {
      forall ws | OfKind(ws, RELAY) && Supers(ws) == txs ensures DistinctAddresses() ==> OnlyFootprint(ws) {
        ExecutedAsStored(ws, RELAY);
        OutsideUnchanged(ws, shard);
      }
    }

    method ExecuteInternals(txs: seq<InternalTransaction>, shard: int) returns (ok: bool)
      requires Valid()
      modifies book
      ensures Valid()
      ensures ok <==> InternalsAllowed(Members(), shard, txs)
      ensures ok ==> forall k :: 0 <= k < |book| ==>
        book[k].value == old(book[k].value)
          + (if book[k].shard == shard then Delta(InternalPostings(txs), book[k].address) else 0)
      ensures ok ==> forall k :: 0 <= k < |book| ==>
        book[k].value == old(book[k].value) + (if book[k].shard == shard then InternalIn(txs, book[k].address) - InternalOut(txs, book[k].address) else 0)
      ensures ok && DistinctAddresses() ==>
        forall ws :: OfKind(ws, INTERNAL) && Internals(ws) == txs ==> OnlyFootprint(ws)
    {
      hide Valid, Members, InternalAllowed;
      ghost var ps := InternalPostings(txs);
      for i := 0 to |txs|
        invariant Valid() && InternalsAllowed(Members(), shard, txs[..i])
        invariant forall k :: 0 <= k < |book| ==>
          book[k].value == old(book[k].value)
            + (if book[k].shard == shard then Delta(ps[..i], book[k].address) else 0)
      {
        ok := ExecuteInternal(txs[i], shard);
        if !ok { return; }
        assert ps[..i + 1][..i] == ps[..i] && txs[..i + 1] == txs[..i] + [txs[i]];
      }
      assert ps[..|txs|] == ps && txs[..|txs|] == txs;
      ok := true;
      InternalsFootprint(txs, shard);
      forall k | 0 <= k < |book| { InternalMoves(txs, book[k].address); }
    }

    method ExecuteCrosses(txs: seq<CrossShardTransaction>, shard: int) returns (ok: bool)
      requires Valid()
      modifies book
      ensures Valid()
      ensures ok <==> CrossesAllowed(Members(), shard, txs)
      ensures ok ==> forall k :: 0 <= k < |book| ==>
        book[k].value == old(book[k].value)
          + (if book[k].shard == shard then Delta(CrossPostings(txs), book[k].address) else 0)
      ensures ok ==> forall k :: 0 <= k < |book| ==>
        book[k].value == old(book[k].value) + (if book[k].shard == shard then -CrossOut(txs, book[k].address) else 0)
      ensures ok && DistinctAddresses() ==>
        forall ws :: OfKind(ws, CROSS) && Crosses(ws) == txs ==> OnlyFootprint(ws)
    {
      hide Valid, Members, CrossAllowed;
      ghost var ps := CrossPostings(txs);
      for i := 0 to |txs|
        invariant Valid() && CrossesAllowed(Members(), shard, txs[..i])
        invariant forall k :: 0 <= k < |book| ==>
          book[k].value == old(book[k].value)
            + (if book[k].shard == shard then Delta(ps[..i], book[k].address) else 0)
      {
        var relay := ExecuteCross(txs[i], shard);
        if relay.None? { return false; }
        assert ps[..i + 1][..i] == ps[..i] && txs[..i + 1] == txs[..i] + [txs[i]];
      }
      assert ps[..|txs|] == ps && txs[..|txs|] == txs;
      ok := true;
      CrossesFootprint(txs, shard);
      forall k | 0 <= k < |book| { CrossMoves(txs, book[k].address); }
    }

    method ExecuteRelays(txs: seq<SuperTransaction>, shard: int) returns (ok: bool)
      requires Valid()
      modifies book
      ensures Valid()
      ensures ok <==> RelaysAllowed(Members(), shard, txs)
      ensures ok ==> forall k :: 0 <= k < |book| ==>
        book[k].value == old(book[k].value)
          + (if book[k].shard == shard then Delta(RelayPostings(txs), book[k].address) else 0)
      ensures ok ==> forall k :: 0 <= k < |book| ==>
        book[k].value == old(book[k].value) + (if book[k].shard == shard then RelayIn(txs, book[k].address) else 0)
      ensures ok && DistinctAddresses() ==>
        forall ws :: OfKind(ws, RELAY) && Supers(ws) == txs ==> OnlyFootprint(ws)
    {
      hide Valid, Members, RelayAllowed;
      ghost var ps := RelayPostings(txs);
      for i := 0 to |txs|
        invariant Valid() && RelaysAllowed(Members(), shard, txs[..i])
        invariant forall k :: 0 <= k < |book| ==>
          book[k].value == old(book[k].value)
            + (if book[k].shard == shard then Delta(ps[..i], book[k].address) else 0)
      {
        ok := ExecuteRelay(txs[i], shard);
        if !ok { return; }
        assert ps[..i + 1][..i] == ps[..i] && txs[..i + 1] == txs[..i] + [txs[i]];
      }
      assert ps[..|txs|] == ps && txs[..|txs|] == txs;
      ok := true;
      RelaysFootprint(txs, shard);
      forall k | 0 <= k < |book| { RelayMoves(txs, book[k].address); }
    }

    /** What VerifyGSRoot does to a shard with enough root votes. Both maps share their accounts, so
        no balance depends on it. */
    method Promote(shard: int)
      requires Valid() && shard in newAccountMap
      modifies this`accountMap
      ensures accountMap == old(accountMap)
    {
      accountMap := accountMap[shard := newAccountMap[shard]];
    }

    /** A block's relays, then its internal and its cross-shard transactions, each kind shard by
        shard in the unknown order of the map. `ok` is false where the server would exit. */
    method UpdateAccount(b: TransactionBlock) returns (ok: bool)
      requires Valid()
      modifies this`newAccountMap, book
      ensures Valid()
      ensures ok <==> BlockAllowed(Members(), b)
      ensures ok ==> forall s, a :: Has(s, a) ==>
        accountMap[s][a].value == old(accountMap[s][a].value) + Movement(b, s, a)
      ensures ok ==> Ledger() == ApplyBlock(old(Ledger()), b)
    {
      newAccountMap := accountMap;
      assert Valid() && Members() == old(Members()) && Ledger() == old(Ledger());
      hide Valid, Ledger, ApplyBlock, Movement, Delta, BlockPostings, BlockAllowed, Members;
      ok := ExecuteLists(b);
      if ok {
        LedgerApplied(b);
        MovedAsSaid(b);
      }
    }

    method ExecuteLists(b: TransactionBlock) returns (ok: bool)
      requires Valid()
      modifies book
      ensures Valid()
      ensures ok <==> BlockAllowed(Members(), b)
      ensures ok ==> forall k :: 0 <= k < |book| ==>
        book[k].value == old(book[k].value) + Delta(BlockPostings(b, book[k].shard), book[k].address)
    {
      hide Valid, Delta, BlockPostings, RelaysOf, InternalsOf, CrossesOf;
      hide RelaysAllowed, InternalsAllowed, CrossesAllowed, Members;
      ok := UpdateRelays(b);
      if !ok { return; }
      ok := UpdateInternals(b);
      if !ok { return; }
      ok := UpdateCrosses(b);
      if !ok { return; }
      forall k | 0 <= k < |book| { BlockDelta(b, book[k].shard, book[k].address); }
    }

    twostate lemma MovedAsSaid(new b: TransactionBlock)
      requires Valid() && book == old(book) && accountMap == old(accountMap)
      requires forall k :: 0 <= k < |book| ==>
        book[k].value == old(book[k].value) + Delta(BlockPostings(b, book[k].shard), book[k].address)
      ensures forall s, a :: Has(s, a) ==>
        accountMap[s][a].value == old(accountMap[s][a].value) + Movement(b, s, a)
    {
      hide Movement, Delta, BlockPostings;
      forall s, a | Has(s, a)
        ensures accountMap[s][a].value == old(accountMap[s][a].value) + Movement(b, s, a)
      {
        BalanceMoved(b, s, a);
        BlockMovement(b, s, a);
      }
    }

    twostate lemma BalanceMoved(new b: TransactionBlock, s: int, new a: string)
      requires Valid() && book == old(book) && accountMap == old(accountMap) && Has(s, a)
      requires forall k :: 0 <= k < |book| ==>
        book[k].value == old(book[k].value) + Delta(BlockPostings(b, book[k].shard), book[k].address)
      ensures accountMap[s][a].value == old(accountMap[s][a].value) + Delta(BlockPostings(b, s), a)
    {
      hide Delta, BlockPostings;
      assert book[accountMap[s][a].id] == accountMap[s][a];
    }

    twostate lemma LedgerApplied(b: TransactionBlock)
      requires old(Valid()) && Valid()
      requires book == old(book) && accountMap == old(accountMap)
      requires forall k :: 0 <= k < |book| ==>
        book[k].value == old(book[k].value) + Delta(BlockPostings(b, book[k].shard), book[k].address)
      ensures Ledger() == ApplyBlock(old(Ledger()), b)
    {
      hide Delta, BlockPostings, Valid;
      forall s, a | Has(s, a)
        ensures accountMap[s][a].value == old(accountMap[s][a].value) + Delta(BlockPostings(b, s), a)
      {
        BalanceMoved(b, s, a);
      }
      forall s | s in accountMap
        ensures Ledger()[s] == Applied(old(Ledger())[s], BlockPostings(b, s))
      {
        assert forall a :: a in accountMap[s] ==> Has(s, a);
      }
    }

    method UpdateRelays(b: TransactionBlock) returns (ok: bool)
      requires Valid()
      modifies book
      ensures Valid()
      ensures ok <==> forall s :: s in b.superList ==> RelaysAllowed(Members(), s, b.superList[s])
      ensures ok ==> forall k :: 0 <= k < |book| ==>
        book[k].value == old(book[k].value) + Delta(RelaysOf(b, book[k].shard), book[k].address)
    {
      hide Valid, Members, DistinctAddresses, OnlyFootprint, RelaysAllowed;
      var rest := b.superList.Keys;
      while rest != {}
        invariant Valid() && rest <= b.superList.Keys
        invariant forall s :: s in b.superList && s !in rest ==> RelaysAllowed(Members(), s, b.superList[s])
        invariant forall k :: 0 <= k < |book| ==>
          book[k].value == old(book[k].value)
            + (if book[k].shard in rest then 0 else Delta(RelaysOf(b, book[k].shard), book[k].address))
      {
        var s := Pick(rest);
        ok := ExecuteRelays(b.superList[s], s);
        if !ok { return; }
        rest := rest - {s};
      }
      ok := true;
    }

    method UpdateInternals(b: TransactionBlock) returns (ok: bool)
      requires Valid()
      modifies book
      ensures Valid()
      ensures ok <==> forall s :: s in b.internalList ==> InternalsAllowed(Members(), s, b.internalList[s])
      ensures ok ==> forall k :: 0 <= k < |book| ==>
        book[k].value == old(book[k].value) + Delta(InternalsOf(b, book[k].shard), book[k].address)
    {
      hide Valid, Members, DistinctAddresses, OnlyFootprint, InternalsAllowed;
      var rest := b.internalList.Keys;
      while rest != {}
        invariant Valid() && rest <= b.internalList.Keys
        invariant forall s :: s in b.internalList && s !in rest ==> InternalsAllowed(Members(), s, b.internalList[s])
        invariant forall k :: 0 <= k < |book| ==>
          book[k].value == old(book[k].value)
            + (if book[k].shard in rest then 0 else Delta(InternalsOf(b, book[k].shard), book[k].address))
      {
        var s := Pick(rest);
        ok := ExecuteInternals(b.internalList[s], s);
        if !ok { return; }
        rest := rest - {s};
      }
      ok := true;
    }

    method UpdateCrosses(b: TransactionBlock) returns (ok: bool)
      requires Valid()
      modifies book
      ensures Valid()
      ensures ok <==> forall s :: s in b.crossShardList ==> CrossesAllowed(Members(), s, b.crossShardList[s])
      ensures ok ==> forall k :: 0 <= k < |book| ==>
        book[k].value == old(book[k].value) + Delta(CrossesOf(b, book[k].shard), book[k].address)
    {
      hide Valid, Members, DistinctAddresses, OnlyFootprint, CrossesAllowed;
      var rest := b.crossShardList.Keys;
      while rest != {}
        invariant Valid() && rest <= b.crossShardList.Keys
        invariant forall s :: s in b.crossShardList && s !in rest ==> CrossesAllowed(Members(), s, b.crossShardList[s])
        invariant forall k :: 0 <= k < |book| ==>
          book[k].value == old(book[k].value)
            + (if book[k].shard in rest then 0 else Delta(CrossesOf(b, book[k].shard), book[k].address))
      {
        var s := Pick(rest);
        ok := ExecuteCrosses(b.crossShardList[s], s);
        if !ok { return; }
        rest := rest - {s};
      }
      ok := true;
    }
  }
}
