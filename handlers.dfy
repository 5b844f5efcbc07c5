/** The deck updates behind the forms of the site (renderer.go, the perform*
    handlers): adding, renaming, deleting a deck, replacing its staging area
    from the decklist form, saving the staging area as a snapshot, reverting
    to the newest snapshot and clearing the history. The logged-in user and
    the form values are parameters; the in-memory user and decks are
    updated as the handlers update them before writing the user back. */
module Handlers {
  import opened Strings
  import opened Normalize
  import opened Snapshots
  import opened DeckList
  import opened Decks
  import opened Prices

  /** What a handler returns: nothing, or the error it reports. */
  datatype Status = Ok | Error(msg: string)

  /** The index of the deck FindDeck finds for a form's deck name. */
  function Found(user: User, name: string): Option<nat>
    reads user, user.decks
  {
    FindIndex(user.decks, Normalized(name))
  }

  /** The error every handler gives for a deck name that names no deck. */
  function NoSuchDeck(name: string): string
  {
    "Deck '" + name + "' doesn't exist!"
  }

  /** The lookup every deck handler starts with: the deck name must be given
      and must name one of the user's decks. */
  method LookupDeck(user: User, deckName: string) returns (deck: Deck?, s: Status)
    ensures s.Error? <==> deck == null
    ensures deckName == [] ==> s == Error("Deck name not included")
    ensures deckName != [] && Found(user, deckName).None? ==> s == Error(NoSuchDeck(deckName))
    ensures deckName != [] && Found(user, deckName).Some? ==> s == Ok && deck == user.decks[Found(user, deckName).value]
  {
    if deckName == [] {
      return null, Error("Deck name not included");
    }
    deck := user.FindDeck(deckName);
    if deck == null {
      return null, Error(NoSuchDeck(deckName));
    }
    s := Ok;
  }

  // ---------------------------------------------------------------------------
  // The history of a deck

  /** performSaveSnapshot: a copy of the staging area, dated now, is appended
      to the history; the deck is then saved. */
  method SaveSnapshot(user: User, deckName: string, now: int) returns (s: Status)
    modifies user.decks
    ensures deckName == [] ==> s == Error("Deck name not included")
    ensures deckName != [] && old(Found(user, deckName)).None? ==> s == Error(NoSuchDeck(deckName))
    ensures s.Ok? <==> deckName != [] && old(Found(user, deckName)).Some?
    ensures s.Error? ==> forall d :: d in user.decks ==> unchanged(d)
    ensures s.Ok? ==>
      var d := user.decks[old(Found(user, deckName)).value];
      && d.snapshots == old(d.snapshots) + [old(d.stagingArea).(date := now)]
      && d.stagingArea == old(d.stagingArea) && d.name == old(d.name) && d.priceLimit == old(d.priceLimit)
      && d.IsSaved()
      && forall e :: e in user.decks && e != d ==> unchanged(e)
  {
    var deck;
    deck, s := LookupDeck(user, deckName);
    if deck == null {
      return;
    }
    var snap := Clone(deck.stagingArea);
    snap := snap.(date := now);
    deck.snapshots := deck.snapshots + [snap];
    SavedSnapshotIdentical(deck.stagingArea, now);
  }

  /** A dated copy of the staging area has its cards and its total. */
  lemma SavedSnapshotIdentical(staging: Snapshot, now: int)
    ensures HasIdenticalCards(staging, staging.(date := now))
    ensures Total(staging.(date := now)) == Total(staging)
  {
    IdenticalCardsEquivalence(staging, staging, staging);
  }

  /** The deck found under name has at least one snapshot. */
  predicate HasHistory(user: User, name: string)
    requires Found(user, name).Some?
    reads user, user.decks
  {
    user.decks[Found(user, name).value].snapshots != []
  }

  /** performRevertChanges: with at least one snapshot, the staging area
      becomes a copy of the newest one. */
  method RevertChanges(user: User, deckName: string) returns (s: Status)
    modifies user.decks
    ensures deckName == [] ==> s == Error("Deck name not included")
    ensures deckName != [] && old(Found(user, deckName)).None? ==> s == Error(NoSuchDeck(deckName))
    ensures old(deckName != [] && Found(user, deckName).Some? && !HasHistory(user, deckName)) ==> s == Error("Deck has no snapshots!")
    ensures s.Ok? <==> old(deckName != [] && Found(user, deckName).Some? && HasHistory(user, deckName))
    ensures s.Error? ==> forall d :: d in user.decks ==> unchanged(d)
    ensures s.Ok? ==>
      var d := user.decks[old(Found(user, deckName)).value];
      && d.snapshots == old(d.snapshots) && d.name == old(d.name) && d.priceLimit == old(d.priceLimit)
      && d.snapshots != [] && d.stagingArea == d.snapshots[|d.snapshots| - 1]
      && d.IsSaved()
      && forall e :: e in user.decks && e != d ==> unchanged(e)
  {
    ghost var found := Found(user, deckName);
    var deck;
    deck, s := LookupDeck(user, deckName);
    if deck == null {
      return;
    }
    assert deck == user.decks[found.value];
    if |deck.snapshots| == 0 {
      return Error("Deck has no snapshots!");
    }
    RestoreNewest(deck);
  }

  /** The update performRevertChanges makes to the deck it found. */
  method RestoreNewest(deck: Deck)
    requires deck.snapshots != []
    modifies deck
    ensures deck.snapshots == old(deck.snapshots) && deck.name == old(deck.name) && deck.priceLimit == old(deck.priceLimit)
    ensures deck.stagingArea == deck.snapshots[|deck.snapshots| - 1]
    ensures deck.IsSaved()
  {
    var last := Clone(deck.snapshots[|deck.snapshots| - 1]);
    deck.stagingArea := last;
    IdenticalCardsEquivalence(last, last, last);
  }

  /** performClearHistory: the history is emptied and the staging area kept;
      the deck is then neither saved nor legal. */
  method ClearHistory(user: User, deckName: string) returns (s: Status)
    modifies user.decks
    ensures deckName == [] ==> s == Error("Deck name not included")
    ensures deckName != [] && old(Found(user, deckName)).None? ==> s == Error(NoSuchDeck(deckName))
    ensures s.Ok? <==> deckName != [] && old(Found(user, deckName)).Some?
    ensures s.Error? ==> forall d :: d in user.decks ==> unchanged(d)
    ensures s.Ok? ==>
      var d := user.decks[old(Found(user, deckName)).value];
      && d.snapshots == [] && d.stagingArea == old(d.stagingArea)
      && d.name == old(d.name) && d.priceLimit == old(d.priceLimit)
      && !d.IsSaved() && !d.IsLegal() && !d.IsGrandfatherLegal()
      && forall e :: e in user.decks && e != d ==> unchanged(e)
  {
    var deck;
    deck, s := LookupDeck(user, deckName);
    if deck == null {
      return;
    }
    deck.snapshots := [];
  }

  // ---------------------------------------------------------------------------
  // The staging area

  /** The staging area the decklist form leaves before pricing: the commander
      absent for an empty field, else present with the trimmed name and no
      price yet; both lists parsed; grandfathered when the box was ticked. */
  function Staged(staging: Snapshot, commander: string, decklist: string, sideboard: string, grandfather: string): Snapshot
  {
    var c := if commander == [] then staging.commander.(isPresent := false)
             else staging.commander.(isPresent := true, name := TrimSpace(commander), price := Free);
    staging.(commander := c,
             decklist := ParseLines(Split(decklist, "\r\n")),
             sideboard := ParseLines(Split(sideboard, "\r\n")),
             isGrandfatherLegal := grandfather != [])
  }

  /** performUpdateDecklist: the staging area is rebuilt from the form and
      priced against the catalog. */
  method UpdateDecklist(user: User, deckName: string, commander: string, decklist: string, sideboard: string,
                        grandfather: string, catalog: Catalog) returns (s: Status)
    modifies user.decks
    ensures deckName == [] ==> s == Error("Deck name not included")
    ensures deckName != [] && old(Found(user, deckName)).None? ==> s == Error(NoSuchDeck(deckName))
    ensures s.Ok? <==> deckName != [] && old(Found(user, deckName)).Some?
    ensures s.Error? ==> forall d :: d in user.decks ==> unchanged(d)
    ensures s.Ok? ==>
      var d := user.decks[old(Found(user, deckName)).value];
      && d.stagingArea == PricedSnapshot(catalog, Staged(old(d.stagingArea), commander, decklist, sideboard, grandfather))
      && d.snapshots == old(d.snapshots) && d.name == old(d.name) && d.priceLimit == old(d.priceLimit)
      && forall e :: e in user.decks && e != d ==> unchanged(e)
  {
    var deck;
    deck, s := LookupDeck(user, deckName);
    if deck == null {
      return;
    }
    StageDecklist(deck, commander, decklist, sideboard, grandfather, catalog);
  }

  /** The update performUpdateDecklist makes to the deck it found. */
  method StageDecklist(deck: Deck, commander: string, decklist: string, sideboard: string, grandfather: string, catalog: Catalog)
    modifies deck
    ensures deck.stagingArea == PricedSnapshot(catalog, Staged(old(deck.stagingArea), commander, decklist, sideboard, grandfather))
    ensures deck.snapshots == old(deck.snapshots) && deck.name == old(deck.name) && deck.priceLimit == old(deck.priceLimit)
  {
    var staging := RebuildStaging(deck.stagingArea, commander, decklist, sideboard, grandfather, catalog);
    deck.stagingArea := staging;
  }

  /** The new staging area of performUpdateDecklist: the form read in, then
      priced. */
  method RebuildStaging(staging: Snapshot, commander: string, decklist: string, sideboard: string, grandfather: string,
                        catalog: Catalog) returns (r: Snapshot)
    ensures r == PricedSnapshot(catalog, Staged(staging, commander, decklist, sideboard, grandfather))
  {
    r := ReadForm(staging, commander, decklist, sideboard, grandfather);
    r := CalculatePrices(catalog, r);
  }

  /** The form fields of performUpdateDecklist written into the staging area. */
  method ReadForm(staging: Snapshot, commander: string, decklist: string, sideboard: string, grandfather: string)
    returns (r: Snapshot)
    ensures r == Staged(staging, commander, decklist, sideboard, grandfather)
  {
    r := staging;
    if commander == [] {
      r := r.(commander := r.commander.(isPresent := false));
    } else {
      r := r.(commander := r.commander.(isPresent := true, name := TrimSpace(commander), price := Free));
    }
    var cards := ParseCardEntryLines(decklist);
    var side := ParseCardEntryLines(sideboard);
    r := r.(decklist := cards, sideboard := side, isGrandfatherLegal := grandfather != []);
  }

  /** The deck count of the updated staging area: the parsed decklist's
      counts, plus one for a commander. */
  lemma UpdatedCounts(catalog: Catalog, staging: Snapshot, commander: string, decklist: string, sideboard: string, grandfather: string)
    ensures DecklistCount(PricedSnapshot(catalog, Staged(staging, commander, decklist, sideboard, grandfather)))
         == ListCount(ParseLines(Split(decklist, "\r\n"))) + (if commander != [] then 1 else 0)
    ensures SideboardCount(PricedSnapshot(catalog, Staged(staging, commander, decklist, sideboard, grandfather)))
         == ListCount(ParseLines(Split(sideboard, "\r\n")))
  {
    PricingKeepsCounts(catalog, Staged(staging, commander, decklist, sideboard, grandfather));
  }

  /** The decklist form shows the staging area's cards one per line; sending
      it back unchanged parses to the same counts and names. */
  lemma DecklistFormRoundTrip(catalog: Catalog, staging: Snapshot, commander: string, sideboard: string, grandfather: string)
    requires forall i :: 0 <= i < |staging.decklist| ==> Writable(staging.decklist[i])
    ensures Staged(staging, commander, FormText(staging.decklist), sideboard, grandfather).decklist == staging.decklist
  {
    FormTextRoundTrip(staging.decklist);
  }

  // ---------------------------------------------------------------------------
  // The decks of a user

  /** The decks other than d, in their order. */
  function Without(decks: seq<Deck>, d: Deck): (r: seq<Deck>)
    ensures |r| <= |decks|
  {
    if decks == [] then []
    else
      var last := decks[|decks| - 1];
      Without(decks[..|decks| - 1], d) + if last == d then [] else [last]
  }

  /** Without keeps exactly the decks other than d. */
  lemma {:induction false} WithoutMembers(decks: seq<Deck>, d: Deck)
    ensures d !in Without(decks, d)
    ensures forall e :: e in Without(decks, d) <==> e in decks && e != d
  {
    if decks != [] {
      WithoutMembers(decks[..|decks| - 1], d);
      assert decks == decks[..|decks| - 1] + [decks[|decks| - 1]];
    }
  }

  /** With every deck listed once, removing one leaves the others in order. */
  lemma {:induction false} WithoutOne(decks: seq<Deck>, i: nat)
    requires i < |decks|
    requires forall j, k :: 0 <= j < k < |decks| ==> decks[j] != decks[k]
    ensures Without(decks, decks[i]) == decks[..i] + decks[i + 1..]
  {
    var n := |decks| - 1;
    var init := decks[..n];
    assert Without(decks, decks[i]) == Without(init, decks[i]) + if decks[n] == decks[i] then [] else [decks[n]];
    if i < n {
      assert decks[n] != decks[i];
      WithoutOne(init, i);
      assert init[..i] == decks[..i];
      assert init[i + 1..] + [decks[n]] == decks[i + 1..];
    } else {
      assert forall j :: 0 <= j < n ==> init[j] != decks[i];
      WithoutNone(init, decks[i]);
      assert decks[..i] == init;
    }
  }

  lemma {:induction false} WithoutNone(decks: seq<Deck>, d: Deck)
    requires forall j :: 0 <= j < |decks| ==> decks[j] != d
    ensures Without(decks, d) == decks
  {
    if decks != [] {
      var n := |decks| - 1;
      WithoutNone(decks[..n], d);
      assert decks[..n] + [decks[n]] == decks;
    }
  }

  /** Removing one deck keeps the others distinct. */
  lemma DistinctWithout(decks: seq<Deck>, i: nat)
    requires i < |decks| && Distinct(decks)
    ensures Distinct(decks[..i] + decks[i + 1..])
  {
    var r := decks[..i] + decks[i + 1..];
    forall j, k | 0 <= j < k < |r|
      ensures r[j] != r[k] && Normalized(r[j].name) != Normalized(r[k].name)
    {
      var j' := if j < i then j else j + 1;
      var k' := if k < i then k else k + 1;
      assert r[j] == decks[j'] && r[k] == decks[k'];
    }
  }

  /** The loop of performDeleteDeck: every deck but d, in order. */
  method RemoveDeck(decks: seq<Deck>, d: Deck) returns (r: seq<Deck>)
    ensures r == Without(decks, d)
  {
    r := [];
    for k := 0 to |decks|
      invariant r == Without(decks[..k], d)
    {
      assert decks[..k + 1][..k] == decks[..k];
      if decks[k] != d {
        r := r + [decks[k]];
      }
    }
    assert decks[..|decks|] == decks;
  }

  /** The user's decks replaced by those other than the i-th. */
  method RemoveFrom(user: User, deck: Deck, ghost i: nat)
    requires i < |user.decks| && user.decks[i] == deck
    modifies user
    ensures user.name == old(user.name)
    ensures user.decks == Without(old(user.decks), deck)
    ensures old(user.Valid()) ==> user.decks == old(user.decks[..i] + user.decks[i + 1..]) && user.Valid()
  {
    ghost var decks := user.decks;
    ghost var valid := Distinct(decks);
    var newDecks := RemoveDeck(user.decks, deck);
    if valid {
      WithoutOne(decks, i);
      DistinctWithout(decks, i);
    }
    user.decks := newDecks;
    assert valid ==> Distinct(newDecks);
  }

  /** performDeleteDeck: the user's decks are rebuilt without the deck found. */
  method DeleteDeck(user: User, deckName: string) returns (s: Status)
    modifies user
    ensures user.name == old(user.name)
    ensures deckName == [] ==> s == Error("Deck name not included")
    ensures deckName != [] && old(Found(user, deckName)).None? ==> s == Error(NoSuchDeck(deckName))
    ensures s.Ok? <==> deckName != [] && old(Found(user, deckName)).Some?
    ensures s.Error? ==> user.decks == old(user.decks)
    ensures s.Ok? ==> user.decks == Without(old(user.decks), old(user.decks[Found(user, deckName).value]))
    ensures s.Ok? && old(user.Valid()) ==>
      user.decks == old(user.decks[..Found(user, deckName).value] + user.decks[Found(user, deckName).value + 1..])
    ensures old(user.Valid()) ==> user.Valid()
  {
    var deck;
    deck, s := LookupDeck(user, deckName);
    if deck == null {
      return;
    }
    RemoveFrom(user, deck, Found(user, deckName).value);
  }

  /** The price field of the deck forms: whole dollars, as cents. */
  function PriceLimitOf(price: string): (r: Option<Money>)
    ensures r.Some? <==> Atoi(price).Some?
    ensures r.Some? ==> r.value == Atoi(price).value * 100
  {
    match Atoi(price)
    case None => None
    case Some(p) => Some(p * 100)
  }

  /** performAddDeck: a new, empty deck under a name no deck of the user
      normalises to. */
  method AddDeck(user: User, name: string, price: string, now: int) returns (s: Status)
    modifies user
    ensures user.name == old(user.name)
    ensures name == [] || price == [] ==> s == Error("Username/password not included")
    ensures name != [] && price != [] && PriceLimitOf(price).None? ==> s == Error("Price incorrectly formatted")
    ensures name != [] && PriceLimitOf(price).Some? && old(Found(user, name)).Some? ==>
      s == Error("Deck '" + name + "' already exists!")
    ensures s.Ok? <==> name != [] && PriceLimitOf(price).Some? && old(Found(user, name)).None?
    ensures s.Error? ==> user.decks == old(user.decks)
    ensures s.Ok? ==>
      && |user.decks| == |old(user.decks)| + 1
      && user.decks[..|old(user.decks)|] == old(user.decks)
      && var d := user.decks[|old(user.decks)|];
      && fresh(d)
      && d.name == name && d.creationDate == now && d.priceLimit == PriceLimitOf(price).value
      && d.stagingArea == EmptySnapshot && d.snapshots == []
      && Found(user, name) == Some(|old(user.decks)|)
    ensures old(user.Valid()) ==> user.Valid()
  {
    if name == [] || price == [] {
      return Error("Username/password not included");
    }
    var limit := PriceLimitOf(price);
    if limit.None? {
      return Error("Price incorrectly formatted");
    }
    var existing := user.FindDeck(name);
    if existing != null {
      return Error("Deck '" + name + "' already exists!");
    }
    AppendDeck(user, name, now, limit.value);
    s := Ok;
  }

  /** The change performAddDeck makes once the form is accepted: a new deck,
      found under its name at the end of the list. */
  method AppendDeck(user: User, name: string, now: int, limit: Money)
    requires Found(user, name).None?
    modifies user
    ensures user.name == old(user.name)
    ensures |user.decks| == |old(user.decks)| + 1
    ensures user.decks[..|old(user.decks)|] == old(user.decks)
    ensures var d := user.decks[|old(user.decks)|];
      && fresh(d)
      && d.name == name && d.creationDate == now && d.priceLimit == limit
      && d.stagingArea == EmptySnapshot && d.snapshots == []
    ensures Found(user, name) == Some(|old(user.decks)|)
    ensures old(user.Valid()) ==> user.Valid()
  {
    ghost var valid := user.Valid();
    ghost var before := user.decks;
    FindIndexFirst(before, Normalized(name));
    var deck := new Deck(name, now, limit);
    if valid {
      DistinctAppend(before, deck);
    }
    user.decks := user.decks + [deck];
    assert user.decks[..|before|] == before;
    FoundAppended(before, deck, Normalized(name));
  }

  /** A deck not yet listed, under a name no listed deck normalises to,
      keeps the decks distinct. */
  lemma DistinctAppend(decks: seq<Deck>, d: Deck)
    requires Distinct(decks) && d !in decks
    requires forall i :: 0 <= i < |decks| ==> Normalized(decks[i].name) != Normalized(d.name)
    ensures Distinct(decks + [d])
  {
    var r := decks + [d];
    forall i, j | 0 <= i < j < |r|
      ensures r[i] != r[j] && Normalized(r[i].name) != Normalized(r[j].name)
    {
      if j < |decks| {
        assert r[i] == decks[i] && r[j] == decks[j];
      } else {
        assert r[i] == decks[i] && r[j] == d;
      }
    }
  }

  /** A deck appended under a name no earlier deck has is the one found for
      that name. */
  lemma FoundAppended(decks: seq<Deck>, d: Deck, key: string)
    requires FindIndex(decks, key).None? && Normalized(d.name) == key
    ensures FindIndex(decks + [d], key) == Some(|decks|)
  {
    assert (decks + [d])[..|decks|] == decks;
    FindIndexFirst(decks, key);
  }

  /** A new name that no other deck normalises to: the only deck it may
      find is the renamed one. */
  lemma RenameKeepsDistinct(decks: seq<Deck>, i: nat, newName: string)
    requires i < |decks| && Distinct(decks)
    requires FindIndex(decks, Normalized(newName)).Some? ==>
      decks[FindIndex(decks, Normalized(newName)).value].name == decks[i].name
    ensures forall k :: 0 <= k < |decks| && k != i ==> Normalized(decks[k].name) != Normalized(newName)
  {
    var f := FindIndex(decks, Normalized(newName));
    FindIndexFirst(decks, Normalized(newName));
    if f.Some? {
      assert f.value == i;
    }
  }

  /** performModifyDeck: the deck found for the original name is renamed and
      given the new price limit, unless another deck already has the new
      name. */
  method ModifyDeck(user: User, origName: string, newName: string, price: string) returns (s: Status)
    modifies user.decks
    ensures origName == [] || newName == [] || price == [] ==> s == Error("Required fields not included")
    ensures origName != [] && newName != [] && price != [] && PriceLimitOf(price).None? ==> s == Error("Price incorrectly formatted")
    ensures newName != [] && PriceLimitOf(price).Some? && origName != [] && old(Found(user, origName)).None? ==>
      s == Error(NoSuchDeck(origName))
    ensures (&& origName != [] && newName != [] && PriceLimitOf(price).Some?
             && old(Found(user, origName)).Some? && old(Found(user, newName)).Some?
             && old(user.decks[Found(user, newName).value].name) != old(user.decks[Found(user, origName).value].name))
      ==> s == Error("Deck '" + newName + "' already exists!")
    ensures s.Ok? <==>
      && origName != [] && newName != [] && PriceLimitOf(price).Some?
      && old(Found(user, origName)).Some?
      && (old(Found(user, newName)).Some? ==>
            old(user.decks[Found(user, newName).value].name) == old(user.decks[Found(user, origName).value].name))
    ensures s.Error? ==> forall d :: d in user.decks ==> unchanged(d)
    ensures s.Ok? ==>
      var d := user.decks[old(Found(user, origName)).value];
      && d.name == newName && d.priceLimit == PriceLimitOf(price).value
      && d.stagingArea == old(d.stagingArea) && d.snapshots == old(d.snapshots) && d.creationDate == old(d.creationDate)
      && forall e :: e in user.decks && e != d ==> unchanged(e)
    ensures old(user.Valid()) ==> user.Valid()
  {
    if origName == [] || newName == [] || price == [] {
      return Error("Required fields not included");
    }
    var limit := PriceLimitOf(price);
    if limit.None? {
      return Error("Price incorrectly formatted");
    }
    ghost var found := Found(user, origName);
    ghost var clash := Found(user, newName);
    var deck := user.FindDeck(origName);
    if deck == null {
      return Error(NoSuchDeck(origName));
    }
    var other := user.FindDeck(newName);
    if other != null && other.name != deck.name {
      assert other == user.decks[clash.value] && deck == user.decks[found.value];
      return Error("Deck '" + newName + "' already exists!");
    }
    Rename(user, deck, found.value, newName, limit.value);
    s := Ok;
  }

  /** The update performModifyDeck makes once its checks pass. */
  method Rename(user: User, deck: Deck, ghost i: nat, newName: string, limit: Money)
    requires i < |user.decks| && user.decks[i] == deck
    requires FindIndex(user.decks, Normalized(newName)).Some? ==>
      user.decks[FindIndex(user.decks, Normalized(newName)).value].name == user.decks[i].name
    modifies deck
    ensures user.decks[i].name == newName && user.decks[i].priceLimit == limit
    ensures user.decks[i].stagingArea == old(user.decks[i].stagingArea)
    ensures user.decks[i].snapshots == old(user.decks[i].snapshots)
    ensures user.decks[i].creationDate == old(user.decks[i].creationDate)
    ensures old(user.Valid()) ==> user.Valid()
  {
    ghost var valid := user.Valid();
    if valid {
      RenameKeepsDistinct(user.decks, i, newName);
    }
    deck.name := newName;
    deck.priceLimit := limit;
    if valid {
      assert user.Valid() by {
        forall j, k | 0 <= j < k < |user.decks|
          ensures user.decks[j] != user.decks[k] && Normalized(user.decks[j].name) != Normalized(user.decks[k].name)
        {
          assert old(user.decks[j] != user.decks[k] && Normalized(user.decks[j].name) != Normalized(user.decks[k].name));
        }
      }
    }
  }
}
