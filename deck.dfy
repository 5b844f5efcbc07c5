/** Decks and users (database.go:24-37 and 157-249): the history rules of a
    deck, its legality under the price limit, and the lookup of a user's deck
    by normalised name. A deck's snapshots are values; a snapshot in the
    source is returned by reference, here by its index in the history. */
module Decks {
  import opened Strings
  import opened Normalize
  import opened Snapshots

  // ---------------------------------------------------------------------------
  // The trailing run of identical snapshots and the best current price

  /** Snapshot j has the cards of the newest snapshot. */
  predicate SameAsNewest(snaps: seq<Snapshot>, j: nat)
    requires j < |snaps|
  {
    HasIdenticalCards(snaps[j], snaps[|snaps| - 1])
  }

  /** For each snapshot, whether it has the cards of the newest one. */
  function SameFlags(snaps: seq<Snapshot>): (same: seq<bool>)
    ensures |same| == |snaps|
    ensures forall j :: 0 <= j < |snaps| ==> same[j] == SameAsNewest(snaps, j)
  {
    seq(|snaps|, j requires 0 <= j < |snaps| => SameAsNewest(snaps, j))
  }

  /** The first index of the trailing run of set flags at or below hi. */
  function RunStartFrom(same: seq<bool>, hi: nat): (lo: nat)
    requires hi < |same|
    requires forall j :: hi <= j < |same| ==> same[j]
    ensures lo <= hi
    ensures forall j :: lo <= j < |same| ==> same[j]
    ensures lo > 0 ==> !same[lo - 1]
  {
    if hi > 0 && same[hi - 1] then RunStartFrom(same, hi - 1) else hi
  }

  /** The start of the trailing run of snapshots with the same cards as the
      newest one: every snapshot from there on has them, and the one just
      before (if any) does not. */
  function RunStart(snaps: seq<Snapshot>): (lo: nat)
    requires snaps != []
    ensures lo < |snaps|
    ensures forall j :: lo <= j < |snaps| ==> SameAsNewest(snaps, j)
    ensures lo > 0 ==> !SameAsNewest(snaps, lo - 1)
  {
    var same := SameFlags(snaps);
    var n := |snaps| - 1;
    assert same[n] by { IdenticalCardsEquivalence(snaps[n], snaps[n], snaps[n]); }
    RunStartFrom(same, n)
  }

  /** What CurrentPriceSnapshot promises of index i: it lies in the trailing
      run, no snapshot of the run is cheaper, and every newer one is dearer. */
  predicate IsCurrentPrice(snaps: seq<Snapshot>, i: int)
  {
    && snaps != []
    && RunStart(snaps) <= i < |snaps|
    && (forall j :: RunStart(snaps) <= j < |snaps| ==> Total(snaps[i]) <= Total(snaps[j]))
    && (forall j :: i < j < |snaps| ==> Total(snaps[i]) < Total(snaps[j]))
  }

  /** The newest of the cheapest snapshots with index in [lo, hi]. */
  function Cheapest(snaps: seq<Snapshot>, lo: nat, hi: nat): (c: nat)
    requires lo <= hi < |snaps|
    ensures lo <= c <= hi
    ensures forall j :: lo <= j <= hi ==> Total(snaps[c]) <= Total(snaps[j])
    ensures forall j :: c < j <= hi ==> Total(snaps[c]) < Total(snaps[j])
    decreases hi - lo
  {
    if lo == hi then hi
    else
      var c := Cheapest(snaps, lo + 1, hi);
      if Total(snaps[lo]) < Total(snaps[c]) then lo else c
  }

  /** The index CurrentPriceSnapshot finds: none for an empty history, and
      otherwise the newest cheapest snapshot of the trailing run. */
  function CurrentPrice(snaps: seq<Snapshot>): (r: Option<nat>)
    ensures r.None? <==> snaps == []
    ensures r.Some? ==> r.value < |snaps|
  {
    if snaps == [] then None else Some(Cheapest(snaps, RunStart(snaps), |snaps| - 1))
  }

  /** CurrentPrice picks the one index that satisfies IsCurrentPrice. */
  lemma CurrentPriceCharacterised(snaps: seq<Snapshot>)
    ensures CurrentPrice(snaps).Some? ==> IsCurrentPrice(snaps, CurrentPrice(snaps).value)
    ensures forall i :: IsCurrentPrice(snaps, i) <==> CurrentPrice(snaps) == Some(i)
  {
    if snaps != [] {
      var c := CurrentPrice(snaps).value;
      assert IsCurrentPrice(snaps, c);
      forall i | IsCurrentPrice(snaps, i)
        ensures i == c
      {
        CurrentPriceUnique(snaps, i, c);
      }
    }
  }

  /** At most one index satisfies IsCurrentPrice. */
  lemma CurrentPriceUnique(snaps: seq<Snapshot>, i: int, k: int)
    requires IsCurrentPrice(snaps, i) && IsCurrentPrice(snaps, k)
    ensures i == k
  {
    assert Total(snaps[i]) <= Total(snaps[k]) && Total(snaps[k]) <= Total(snaps[i]);
  }

  /** A snapshot identical to the newest one, just below the part of the
      run already scanned, extends it. */
  lemma RunStartBelow(snaps: seq<Snapshot>, i: nat)
    requires i < |snaps| - 1 && RunStart(snaps) <= i + 1
    requires SameAsNewest(snaps, i)
    ensures RunStart(snaps) <= i
  {
  }

  /** The scan stops at the start of the run: at the bottom of the history
      or just above a snapshot whose cards differ. */
  lemma RunStartAt(snaps: seq<Snapshot>, i: int)
    requires -1 <= i < |snaps| - 1 && RunStart(snaps) <= i + 1
    requires i >= 0 ==> !SameAsNewest(snaps, i)
    ensures RunStart(snaps) == i + 1
  {
  }

  /** The walk of Deck.CurrentPriceSnapshot over a non-empty history:
      starting from the newest snapshot, walk back while the cards stay
      identical to the newest one, keeping a snapshot only when it is
      strictly cheaper than the best so far. */
  method CheapestOfRun(snaps: seq<Snapshot>) returns (best: nat)
    requires snaps != []
    ensures best == Cheapest(snaps, RunStart(snaps), |snaps| - 1)
  {
    var n := |snaps|;
    var last := snaps[n - 1];
    best := n - 1;
    var i := n - 2;
    while i >= 0
      invariant -1 <= i <= n - 2
      invariant RunStart(snaps) <= i + 1
      invariant best == Cheapest(snaps, i + 1, n - 1)
      decreases i
    {
      if !HasIdenticalCards(snaps[i], last) {
        break;
      }
      RunStartBelow(snaps, i);
      var price := TotalPrice(snaps[i]);
      var bestPrice := TotalPrice(snaps[best]);
      if price < bestPrice {
        best := i;
      }
      i := i - 1;
    }
    RunStartAt(snaps, i);
  }

  /** The history reversed, newest first. */
  function Reversed(snaps: seq<Snapshot>): (r: seq<Snapshot>)
    ensures |r| == |snaps|
    ensures forall i :: 0 <= i < |snaps| ==> r[i] == snaps[|snaps| - 1 - i]
  {
    if snaps == [] then [] else [snaps[|snaps| - 1]] + Reversed(snaps[..|snaps| - 1])
  }

  /** Reversing twice gives back the history. */
  lemma ReversedTwice(snaps: seq<Snapshot>)
    ensures Reversed(Reversed(snaps)) == snaps
  {
  }

  // ---------------------------------------------------------------------------
  // Legality

  predicate NoneNotFound(cards: seq<CardEntry>)
  {
    forall i :: 0 <= i < |cards| ==> !cards[i].notFound
  }

  /** A snapshot is legal under a price limit when every card, and a present
      commander, was found in the catalog, and it is grandfathered or its
      total is within the limit. */
  predicate Legal(limit: Money, s: Snapshot)
  {
    && !(s.commander.isPresent && s.commander.notFound)
    && NoneNotFound(s.decklist) && NoneNotFound(s.sideboard)
    && (s.isGrandfatherLegal || Total(s) <= limit)
  }

  /** Raising the price limit never makes a legal snapshot illegal, and a
      grandfathered snapshot's legality does not depend on the limit. */
  lemma LegalMonotone(s: Snapshot, low: Money, high: Money)
    requires low <= high
    ensures Legal(low, s) ==> Legal(high, s)
    ensures s.isGrandfatherLegal ==> (Legal(low, s) <==> Legal(high, s))
  {
  }

  /** The result of running source code that may dereference nil. */
  datatype Outcome<T> = Returned(value: T) | NilDereference

  /** Deck.IsSnapshotLegal as written: the commander of the snapshot is read
      before the snapshot is tested against nil, so a missing snapshot makes
      it fail rather than answer false. */
  function IsSnapshotLegalAsWritten(limit: Money, s: Option<Snapshot>): (r: Outcome<bool>)
    ensures r == NilDereference <==> s.None?
    ensures r.Returned? ==> (r.value <==> Legal(limit, s.value))
  {
    if s.None? then NilDereference else Returned(Legal(limit, s.value))
  }

  /** Deck.IsLegal as written, for a deck with the given limit and history. */
  function IsLegalAsWritten(limit: Money, snaps: seq<Snapshot>): Outcome<bool>
  {
    IsSnapshotLegalAsWritten(limit, match CurrentPrice(snaps) case None => None case Some(i) => Some(snaps[i]))
  }

  /** As written, asking whether a deck with no snapshots is legal fails. */
  lemma IsLegalAsWrittenFailsOnEmptyHistory(limit: Money)
    ensures IsLegalAsWritten(limit, []) == NilDereference
  {
  }

  // ---------------------------------------------------------------------------
  // Decks

  class Deck {
    var name: string
    /** The creation time in nanoseconds. */
    var creationDate: int
    var priceLimit: Money
    var stagingArea: Snapshot
    var snapshots: seq<Snapshot>

    /** A new deck: an empty staging area and no history. */
    constructor (name: string, creationDate: int, priceLimit: Money)
      ensures this.name == name && this.creationDate == creationDate && this.priceLimit == priceLimit
      ensures stagingArea == EmptySnapshot && snapshots == []
    {
      this.name := name;
      this.creationDate := creationDate;
      this.priceLimit := priceLimit;
      stagingArea := EmptySnapshot;
      snapshots := [];
    }

    /** Deck.CurrentPriceSnapshot: starting from the newest snapshot, walk
        back while the cards stay identical to the newest one, keeping a
        snapshot only when it is strictly cheaper than the best so far. */
    method CurrentPriceSnapshot() returns (r: Option<nat>)
      ensures r == CurrentPrice(snapshots)
    {
      var snaps := snapshots;
      if |snaps| == 0 {
        return None;
      }
      var best := CheapestOfRun(snaps);
      r := Some(best);
    }

    /** Deck.IsGrandfatherLegal: the current-price snapshot exists and is
        grandfathered. */
    predicate IsGrandfatherLegal()
      reads this
      ensures IsGrandfatherLegal() <==> exists i :: IsCurrentPrice(snapshots, i) && snapshots[i].isGrandfatherLegal
    {
      CurrentPriceCharacterised(snapshots);
      match CurrentPrice(snapshots)
      case None => false
      case Some(i) => snapshots[i].isGrandfatherLegal
    }

    /** Deck.IsSnapshotLegal with the nil test done first: no snapshot is
        not legal. The not-found checks stop at the first card not found. */
    method IsSnapshotLegal(s: Option<Snapshot>) returns (legal: bool)
      ensures legal <==> s.Some? && Legal(priceLimit, s.value)
    {
      if s.None? {
        return false;
      }
      var snap := s.value;
      if snap.commander.isPresent && snap.commander.notFound {
        return false;
      }
      for i := 0 to |snap.decklist|
        invariant forall j :: 0 <= j < i ==> !snap.decklist[j].notFound
      {
        if snap.decklist[i].notFound {
          return false;
        }
      }
      for i := 0 to |snap.sideboard|
        invariant forall j :: 0 <= j < i ==> !snap.sideboard[j].notFound
      {
        if snap.sideboard[i].notFound {
          return false;
        }
      }
      var total := TotalPrice(snap);
      legal := snap.isGrandfatherLegal || total <= priceLimit;
    }

    /** Deck.IsLegal, corrected: a deck with no snapshots is not legal;
        otherwise its current-price snapshot decides. */
    predicate IsLegal()
      reads this
      ensures IsLegal() <==> exists i :: IsCurrentPrice(snapshots, i) && Legal(priceLimit, snapshots[i])
      ensures IsLegalAsWritten(priceLimit, snapshots).Returned? ==> (IsLegal() <==> IsLegalAsWritten(priceLimit, snapshots).value)
    {
      CurrentPriceCharacterised(snapshots);
      match CurrentPrice(snapshots)
      case None => false
      case Some(i) => Legal(priceLimit, snapshots[i])
    }

    /** Deck.IsStagingAreaLegal: the staging area checked as a snapshot. */
    method IsStagingAreaLegal() returns (legal: bool)
      ensures legal <==> Legal(priceLimit, stagingArea)
    {
      legal := IsSnapshotLegal(Some(stagingArea));
    }

    /** Deck.IsSaved: there is a snapshot, and the staging area has the newest
        snapshot's cards and total. */
    predicate IsSaved()
      reads this
    {
      snapshots != []
      && HasIdenticalCards(stagingArea, snapshots[|snapshots| - 1])
      && Total(stagingArea) == Total(snapshots[|snapshots| - 1])
    }

    /** Deck.SnapshotsReversed: a fresh list filled by index, newest first. */
    method SnapshotsReversed() returns (r: seq<Snapshot>)
      ensures r == Reversed(snapshots)
    {
      var n := |snapshots|;
      var a := new Snapshot[n];
      for i := 0 to n
        invariant forall j :: 0 <= j < i ==> a[n - 1 - j] == snapshots[j]
      {
        a[n - 1 - i] := snapshots[i];
      }
      r := a[..];
      assert forall k :: 0 <= k < n ==> r[k] == snapshots[n - 1 - k] by {
        forall k | 0 <= k < n
          ensures r[k] == snapshots[n - 1 - k]
        {
          assert a[n - 1 - (n - 1 - k)] == snapshots[n - 1 - k];
        }
      }
    }
  }

  /** A saved deck's price is the staging area's or better: its current-price
      snapshot exists, has the staging area's cards and costs no more. */
  lemma SavedCurrentPrice(d: Deck)
    requires d.IsSaved()
    ensures CurrentPrice(d.snapshots).Some?
    ensures HasIdenticalCards(d.stagingArea, d.snapshots[CurrentPrice(d.snapshots).value])
    ensures Total(d.snapshots[CurrentPrice(d.snapshots).value]) <= Total(d.stagingArea)
  {
    SavedRunPrice(d.stagingArea, d.snapshots);
  }

  /** SavedCurrentPrice over the values of the deck's fields. */
  lemma SavedRunPrice(staging: Snapshot, snaps: seq<Snapshot>)
    requires snaps != [] && HasIdenticalCards(staging, snaps[|snaps| - 1])
    requires Total(staging) == Total(snaps[|snaps| - 1])
    ensures CurrentPrice(snaps).Some?
    ensures HasIdenticalCards(staging, snaps[CurrentPrice(snaps).value])
    ensures Total(snaps[CurrentPrice(snaps).value]) <= Total(staging)
  {
    var n := |snaps| - 1;
    var c := Cheapest(snaps, RunStart(snaps), n);
    assert CurrentPrice(snaps) == Some(c);
    assert Total(snaps[c]) <= Total(snaps[n]);
    assert SameAsNewest(snaps, c);
    IdenticalCardsEquivalence(snaps[c], snaps[n], snaps[c]);
    IdenticalCardsEquivalence(staging, snaps[n], snaps[c]);
  }

  // ---------------------------------------------------------------------------
  // Users

  /** The first deck whose normalised name is key. */
  function FindIndex(decks: seq<Deck>, key: string): (r: Option<nat>)
    reads decks
    ensures r.Some? ==> r.value < |decks|
  {
    if decks == [] then None
    else
      var r := FindIndex(decks[..|decks| - 1], key);
      if r.Some? then r
      else if Normalized(decks[|decks| - 1].name) == key then Some(|decks| - 1)
      else None
  }

  /** FindIndex finds nothing exactly when no deck has the key, and otherwise
      the first deck that has it. */
  lemma {:induction false} FindIndexFirst(decks: seq<Deck>, key: string)
    ensures FindIndex(decks, key).None? <==> forall i :: 0 <= i < |decks| ==> Normalized(decks[i].name) != key
    ensures FindIndex(decks, key).Some? ==>
      && Normalized(decks[FindIndex(decks, key).value].name) == key
      && forall j :: 0 <= j < FindIndex(decks, key).value ==> Normalized(decks[j].name) != key
  {
    if decks != [] {
      var init := decks[..|decks| - 1];
      FindIndexFirst(init, key);
      assert forall i :: 0 <= i < |init| ==> init[i] == decks[i];
    }
  }

  /** No deck listed twice, and no two decks whose names normalise alike. */
  predicate Distinct(decks: seq<Deck>)
    reads decks
  {
    forall i, j :: 0 <= i < j < |decks| ==> decks[i] != decks[j] && Normalized(decks[i].name) != Normalized(decks[j].name)
  }

  class User {
    var name: string
    var decks: seq<Deck>

    constructor (name: string)
      ensures this.name == name && decks == []
    {
      this.name := name;
      decks := [];
    }

    /** No two decks of the user share a normalised name, and no deck is
        listed twice. */
    predicate Valid()
      reads this, decks
    {
      Distinct(decks)
    }

    /** User.FindDeck: the first deck whose normalised name equals the
        normalised name asked for, or null. */
    method FindDeck(name: string) returns (d: Deck?)
      ensures d == null <==> FindIndex(decks, Normalized(name)).None?
      ensures d != null ==> d == decks[FindIndex(decks, Normalized(name)).value]
    {
      for i := 0 to |decks|
        invariant forall j :: 0 <= j < i ==> Normalized(decks[j].name) != Normalized(name)
      {
        var deckKey := NormalizeString(decks[i].name);
        var key := NormalizeString(name);
        if deckKey == key {
          FindIndexFirst(decks, Normalized(name));
          ghost var r := FindIndex(decks, Normalized(name));
          assert r.Some? && r.value == i;
          return decks[i];
        }
      }
      FindIndexFirst(decks, Normalized(name));
      return null;
    }
  }

  /** In a valid user, the deck found for a deck's own name is that deck. */
  lemma FindOwnName(u: User, i: nat)
    requires u.Valid() && i < |u.decks|
    ensures FindIndex(u.decks, Normalized(u.decks[i].name)) == Some(i)
  {
    FindIndexFirst(u.decks, Normalized(u.decks[i].name));
  }
}
