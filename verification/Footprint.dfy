/** Which accounts a batch declares (FindAccountIds), and why that declaration is sound. */
module Footprint {
  import opened Data
  import opened Postings
  import opened Iteration

  function DirectoryOf(accounts: seq<AccountRecord>): map<string, int> {
    if accounts == [] then map[]
    else
      var last := accounts[|accounts| - 1];
      DirectoryOf(accounts[..|accounts| - 1])[last.address := last.id]
  }

  function Touched(w: WitnessTrans): set<string> {
    if w.kind == INTERNAL then {w.from, w.to} else if w.kind == CROSS then {w.from} else {w.to}
  }

  /** What an entry touches is what executing it books. */
  lemma TouchedIsBooked(w: WitnessTrans, a: string)
    ensures a in Touched(w) <==> Mentions(OfWitness(w), a)
  {
  }

  function IdsOf(directory: map<string, int>, w: WitnessTrans): set<int> {
    set a | a in Touched(w) && a in directory :: directory[a]
  }

  function FootprintIds(directory: map<string, int>, ws: seq<WitnessTrans>): set<int> {
    if ws == [] then {}
    else FootprintIds(directory, ws[..|ws| - 1]) + IdsOf(directory, ws[|ws| - 1])
  }

  /** The ids of the accounts a transaction list touches, each once, in no particular order. */
  method FindAccountIds(accounts: seq<AccountRecord>, ws: seq<WitnessTrans>) returns (accountIds: seq<int>)
    ensures NoDuplicates(accountIds)
    ensures forall id :: id in accountIds <==> id in FootprintIds(DirectoryOf(accounts), ws)
  {
    var directory: map<string, int> := map[];
    for i := 0 to |accounts|
      invariant directory == DirectoryOf(accounts[..i])
    {
      assert accounts[..i + 1][..i] == accounts[..i];
      directory := directory[accounts[i].address := accounts[i].id];
    }
    assert accounts[..|accounts|] == accounts;

    var uniqueIds: set<int> := {};
    for i := 0 to |ws|
      invariant uniqueIds == FootprintIds(directory, ws[..i])
    {
      assert ws[..i + 1][..i] == ws[..i];
      ghost var before := uniqueIds;
      var w := ws[i];
      if w.kind == INTERNAL {
        if w.from in directory { uniqueIds := uniqueIds + {directory[w.from]}; }
        if w.to in directory { uniqueIds := uniqueIds + {directory[w.to]}; }
      } else if w.kind == CROSS {
        if w.from in directory { uniqueIds := uniqueIds + {directory[w.from]}; }
      } else {
        if w.to in directory { uniqueIds := uniqueIds + {directory[w.to]}; }
      }
      assert uniqueIds == before + IdsOf(directory, w);
    }
    assert ws[..|ws|] == ws;

    accountIds := Listed(uniqueIds);
  }

  lemma {:induction false} TouchedIdsInFootprint(directory: map<string, int>, ws: seq<WitnessTrans>, i: nat, a: string)
    requires i < |ws| && a in Touched(ws[i]) && a in directory
    ensures directory[a] in FootprintIds(directory, ws)
  {
    if i < |ws| - 1 {
      TouchedIdsInFootprint(directory, ws[..|ws| - 1], i, a);
    }
  }

  /** Footprint soundness: executing a list changes no balance outside its declared accounts. */
  lemma FootprintSound(directory: map<string, int>, ws: seq<WitnessTrans>, a: string)
    requires a in directory && directory[a] !in FootprintIds(directory, ws)
    ensures Delta(WitnessPostings(ws), a) == 0
  {
    forall p | p in WitnessPostings(ws) ensures !Mentions(p, a) {
      var i: nat :| i < |ws| && p == OfWitness(ws[i]);
      if a in Touched(ws[i]) {
        TouchedIdsInFootprint(directory, ws, i, a);
      }
    }
    UnmentionedUnchanged(WitnessPostings(ws), a);
  }

  /** Executing two lists commutes whatever accounts they touch; disjointness is not needed for that. */
  lemma ListsCommute(m: map<string, int>, ws: seq<WitnessTrans>, vs: seq<WitnessTrans>)
    ensures Applied(Applied(m, WitnessPostings(ws)), WitnessPostings(vs)) ==
      Applied(Applied(m, WitnessPostings(vs)), WitnessPostings(ws))
  {
    AppliedConcat(m, WitnessPostings(ws), WitnessPostings(vs));
  }

  /** What disjoint footprints add: after both lists each balance is what the one list that declares the
      account makes of it, as if the other had not been executed. */
  lemma DisjointBatches(
    directory: map<string, int>, m: map<string, int>, ws: seq<WitnessTrans>, vs: seq<WitnessTrans>)
    requires m.Keys <= directory.Keys
    requires FootprintIds(directory, ws) !! FootprintIds(directory, vs)
    ensures var p, q := WitnessPostings(ws), WitnessPostings(vs);
      forall a :: a in m ==>
        Applied(Applied(m, p), q)[a] ==
          if directory[a] in FootprintIds(directory, ws) then Applied(m, p)[a]
          else if directory[a] in FootprintIds(directory, vs) then Applied(m, q)[a]
          else m[a]
  {
    var p, q := WitnessPostings(ws), WitnessPostings(vs);
    AppliedConcat(m, p, q);
    forall a | a in m
      ensures directory[a] !in FootprintIds(directory, ws) ==> Delta(p, a) == 0
      ensures directory[a] !in FootprintIds(directory, vs) ==> Delta(q, a) == 0
    {
      if directory[a] !in FootprintIds(directory, ws) { FootprintSound(directory, ws, a); }
      if directory[a] !in FootprintIds(directory, vs) { FootprintSound(directory, vs, a); }
    }
  }
}
