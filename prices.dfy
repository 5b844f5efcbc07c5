/** The price side of the site (prices.go): how scraped price-guide pages
    become a catalog of lowest prices keyed by price ID, and how a snapshot's
    cards are priced from that catalog, with the five basic lands free. The
    price catalog (the Mongo collection behind NameAndPrice and
    UpdateAllPrices) is a map from price ID to name and price; fetching a page
    and parsing a price are parameters. */
module Prices {
  import opened Strings
  import opened Normalize
  import opened Snapshots

  // ---------------------------------------------------------------------------
  // Resolving a card name against the catalog

  /** The basic lands, which are always free (prices.go:16). */
  const FreeCards: seq<string> := ["Plains", "Island", "Swamp", "Mountain", "Forest"]

  /** The price catalog: price ID to the catalog's card name and price. */
  type Catalog = map<string, (string, Money)>

  /** A catalog as the scraper writes it: every name is stored under its own ID. */
  predicate Keyed(catalog: Catalog)
  {
    forall id :: id in catalog ==> IdOf(catalog[id].0) == id
  }

  /** The first of the names whose ID is id, as the loop over freeCards finds it. */
  function FirstWithId(names: seq<string>, id: string): (r: Option<nat>)
    ensures r.None? <==> forall k :: 0 <= k < |names| ==> IdOf(names[k]) != id
    ensures r.Some? ==> r.value < |names| && IdOf(names[r.value]) == id
    ensures r.Some? ==> forall k :: 0 <= k < r.value ==> IdOf(names[k]) != id
  {
    if names == [] then None
    else
      var r := FirstWithId(names[..|names| - 1], id);
      if r.Some? then r
      else if IdOf(names[|names| - 1]) == id then Some(|names| - 1)
      else None
  }

  /** What calculateNameAndPrice returns: a name, a price and whether it was found. */
  datatype Resolution = Resolution(name: string, price: Money, found: bool)

  /** calculateNameAndPrice: a basic land resolves to its canonical name for
      free without consulting the catalog; otherwise a catalog hit gives the
      catalog's name and price, and a miss keeps the name, free and not found. */
  function ResolveName(catalog: Catalog, origName: string): (r: Resolution)
    ensures r.found <==> FirstWithId(FreeCards, IdOf(origName)).Some? || IdOf(origName) in catalog
    ensures !r.found ==> r == Resolution(origName, Free, false)
    ensures FirstWithId(FreeCards, IdOf(origName)).Some? ==> r.name in FreeCards && r.price == Free
  {
    var id := IdOf(origName);
    match FirstWithId(FreeCards, id)
    case Some(k) => Resolution(FreeCards[k], Free, true)
    case None =>
      if id in catalog then Resolution(catalog[id].0, catalog[id].1, true)
      else Resolution(origName, Free, false)
  }

  /** Any name with the ID of a basic land resolves to that land, free and
      found, whatever the catalog holds. */
  lemma BasicLandIsFree(catalog: Catalog, name: string, k: nat)
    requires k < |FreeCards| && IdOf(name) == IdOf(FreeCards[k])
    ensures ResolveName(catalog, name) == Resolution(FreeCards[k], Free, true)
  {
    var r := FirstWithId(FreeCards, IdOf(name));
    assert r.Some?;
    if r.value != k {
      FreeCardIdsDistinct(r.value, k);
    }
  }

  /** No two basic lands share an ID. */
  lemma FreeCardIdsDistinct(j: nat, k: nat)
    requires j < |FreeCards| && k < |FreeCards| && j != k
    ensures IdOf(FreeCards[j]) != IdOf(FreeCards[k])
  {
    var initials := "PISMF";
    assert FreeCards[j][0] == initials[j] && FreeCards[k][0] == initials[k];
    DistinctInitials(FreeCards[j], FreeCards[k]);
  }

  /** Resolution depends on the name's ID alone: names that differ only in
      case or in characters other than letters and digits resolve alike,
      except that a name not found is kept as written. */
  lemma ResolveById(catalog: Catalog, a: string, b: string)
    requires IdOf(a) == IdOf(b)
    ensures ResolveName(catalog, a).found == ResolveName(catalog, b).found
    ensures ResolveName(catalog, a).found ==> ResolveName(catalog, a) == ResolveName(catalog, b)
  {
  }

  /** Against a catalog written by the scraper, resolving an already resolved
      name changes nothing. */
  lemma ResolveIdempotent(catalog: Catalog, name: string)
    requires Keyed(catalog)
    ensures ResolveName(catalog, ResolveName(catalog, name).name) == ResolveName(catalog, name)
  {
    var r := ResolveName(catalog, name);
    var id := IdOf(name);
    match FirstWithId(FreeCards, id)
    case Some(k) =>
      BasicLandIsFree(catalog, r.name, k);
    case None =>
      if id in catalog {
        assert IdOf(r.name) == id;
        ResolveById(catalog, r.name, name);
      }
  }

  // ---------------------------------------------------------------------------
  // Pricing a snapshot (Snapshot.CalculatePrices)

  /** CardEntry.calculateNameAndPrice: name, price and not-found flag from the
      resolution; the count is kept. */
  function PricedEntry(catalog: Catalog, c: CardEntry): CardEntry
  {
    var n := ResolveName(catalog, c.name);
    c.(name := n.name, pricePer := n.price, notFound := !n.found)
  }

  /** What pricing an entry means: the count is kept; a basic land or a
      catalog hit sets the name and the price from the resolution and clears
      the not-found flag; any other name is kept, free and not found. */
  lemma PricedEntryMeaning(catalog: Catalog, c: CardEntry)
    ensures PricedEntry(catalog, c).count == c.count
    ensures PricedEntry(catalog, c).notFound <==>
      FirstWithId(FreeCards, IdOf(c.name)).None? && IdOf(c.name) !in catalog
    ensures PricedEntry(catalog, c).notFound ==>
      PricedEntry(catalog, c).name == c.name && PricedEntry(catalog, c).pricePer == Free
    ensures FirstWithId(FreeCards, IdOf(c.name)).None? && IdOf(c.name) in catalog ==>
      PricedEntry(catalog, c).name == catalog[IdOf(c.name)].0 &&
      PricedEntry(catalog, c).pricePer == catalog[IdOf(c.name)].1
  {
  }

  /** Every entry of a list priced, in the same order. */
  function PricedCards(catalog: Catalog, cards: seq<CardEntry>): seq<CardEntry>
  {
    seq(|cards|, i requires 0 <= i < |cards| => PricedEntry(catalog, cards[i]))
  }

  /** The commander is priced only when present. */
  function PricedCommander(catalog: Catalog, c: CommanderEntry): CommanderEntry
  {
    if c.isPresent then
      var n := ResolveName(catalog, c.name);
      c.(name := n.name, price := n.price, notFound := !n.found)
    else c
  }

  /** The snapshot Snapshot.CalculatePrices leaves behind. */
  function PricedSnapshot(catalog: Catalog, s: Snapshot): Snapshot
  {
    s.(decklist := PricedCards(catalog, s.decklist),
       sideboard := PricedCards(catalog, s.sideboard),
       commander := PricedCommander(catalog, s.commander))
  }

  /** The loop over a list of entries, each priced in place. */
  method PriceCards(catalog: Catalog, cards: seq<CardEntry>) returns (r: seq<CardEntry>)
    ensures r == PricedCards(catalog, cards)
  {
    r := cards;
    for i := 0 to |r|
      invariant |r| == |cards|
      invariant forall j :: 0 <= j < i ==> r[j] == PricedEntry(catalog, cards[j])
      invariant forall j :: i <= j < |r| ==> r[j] == cards[j]
    {
      var n := ResolveName(catalog, r[i].name);
      r := r[i := r[i].(name := n.name, pricePer := n.price, notFound := !n.found)];
    }
  }

  /** Snapshot.CalculatePrices: the commander when present, then the decklist
      and the sideboard, entry by entry. */
  method CalculatePrices(catalog: Catalog, s: Snapshot) returns (r: Snapshot)
    ensures r == PricedSnapshot(catalog, s)
  {
    r := s;
    if r.commander.isPresent {
      var n := ResolveName(catalog, r.commander.name);
      r := r.(commander := r.commander.(name := n.name, price := n.price, notFound := !n.found));
    }
    var decklist := PriceCards(catalog, r.decklist);
    var sideboard := PriceCards(catalog, r.sideboard);
    r := r.(decklist := decklist, sideboard := sideboard);
  }

  /** Pricing keeps every count, so both card counts of the snapshot stay. */
  lemma {:induction false} PricedCount(catalog: Catalog, cards: seq<CardEntry>)
    ensures ListCount(PricedCards(catalog, cards)) == ListCount(cards)
  {
    if cards != [] {
      var n := |cards| - 1;
      assert PricedCards(catalog, cards)[..n] == PricedCards(catalog, cards[..n]);
      PricedCount(catalog, cards[..n]);
    }
  }

  lemma PricingKeepsCounts(catalog: Catalog, s: Snapshot)
    ensures DecklistCount(PricedSnapshot(catalog, s)) == DecklistCount(s)
    ensures SideboardCount(PricedSnapshot(catalog, s)) == SideboardCount(s)
  {
    PricedCount(catalog, s.decklist);
    PricedCount(catalog, s.sideboard);
  }

  /** Against a catalog written by the scraper, pricing a priced snapshot
      again changes nothing. */
  lemma PricingIdempotent(catalog: Catalog, s: Snapshot)
    requires Keyed(catalog)
    ensures PricedSnapshot(catalog, PricedSnapshot(catalog, s)) == PricedSnapshot(catalog, s)
  {
    var p := PricedSnapshot(catalog, s);
    forall i | 0 <= i < |s.decklist|
      ensures PricedEntry(catalog, p.decklist[i]) == p.decklist[i]
    {
      ResolveIdempotent(catalog, s.decklist[i].name);
    }
    forall i | 0 <= i < |s.sideboard|
      ensures PricedEntry(catalog, p.sideboard[i]) == p.sideboard[i]
    {
      ResolveIdempotent(catalog, s.sideboard[i].name);
    }
    ResolveIdempotent(catalog, s.commander.name);
  }

  // ---------------------------------------------------------------------------
  // Scraped entries and the lowest price per ID

  /** PriceDbEntry: the ID, the name as scraped and the price. */
  datatype PriceEntry = PriceEntry(id: string, name: string, price: Money)

  /** One step of the reconciliation loop: an entry replaces the one kept
      for its ID only when there is none or it is strictly cheaper. */
  function Insert(lowest: map<string, PriceEntry>, e: PriceEntry): map<string, PriceEntry>
  {
    if e.id !in lowest || e.price < lowest[e.id].price then lowest[e.id := e] else lowest
  }

  /** The map the reconciliation loop builds from the entries in scraping order. */
  function Lowest(entries: seq<PriceEntry>): (m: map<string, PriceEntry>)
    ensures entries != [] ==> entries[|entries| - 1].id in m
  {
    if entries == [] then map[]
    else Insert(Lowest(entries[..|entries| - 1]), entries[|entries| - 1])
  }

  /** Every kept entry is stored under its own ID, is one of the entries
      seen, and is no dearer than any entry seen with that ID. */
  lemma {:induction false} LowestProperties(entries: seq<PriceEntry>)
    ensures forall id :: id in Lowest(entries) ==> Lowest(entries)[id].id == id
    ensures forall k :: 0 <= k < |entries| ==> entries[k].id in Lowest(entries) && Lowest(entries)[entries[k].id].price <= entries[k].price
    ensures forall id :: id in Lowest(entries) ==> exists k :: 0 <= k < |entries| && entries[k] == Lowest(entries)[id]
  {
    if entries != [] {
      var init := entries[..|entries| - 1];
      LowestProperties(init);
      assert forall k :: 0 <= k < |init| ==> init[k] == entries[k];
    }
  }

  lemma LowestSnoc(entries: seq<PriceEntry>, e: PriceEntry)
    ensures Lowest(entries + [e]) == Insert(Lowest(entries), e)
  {
    assert (entries + [e])[..|entries|] == entries;
  }

  /** Exactly the IDs seen are kept. */
  lemma LowestKeys(entries: seq<PriceEntry>, id: string)
    ensures id in Lowest(entries) <==> exists k :: 0 <= k < |entries| && entries[k].id == id
  {
    LowestProperties(entries);
    if id in Lowest(entries) {
      var k :| 0 <= k < |entries| && entries[k] == Lowest(entries)[id];
      assert entries[k].id == id;
    }
  }

  /** On equal prices the entry seen first is kept: the first entry at the
      lowest price for its ID is the one in the map. */
  lemma {:induction false} LowestKeepsFirstCheapest(entries: seq<PriceEntry>, k: nat)
    requires k < |entries|
    requires forall j :: 0 <= j < |entries| && entries[j].id == entries[k].id ==> entries[k].price <= entries[j].price
    requires forall j :: 0 <= j < k && entries[j].id == entries[k].id ==> entries[j].price != entries[k].price
    ensures entries[k].id in Lowest(entries) && Lowest(entries)[entries[k].id] == entries[k]
  {
    var n := |entries| - 1;
    var init, e := entries[..n], entries[n];
    assert entries == init + [e];
    LowestSnoc(init, e);
    var id := entries[k].id;
    var before := Lowest(init);
    if k < n {
      assert init[k] == entries[k];
      LowestKeepsFirstCheapest(init, k);
      assert e.id == id ==> entries[k].price <= e.price;
    } else {
      LowestProperties(init);
      if id in before {
        var j :| 0 <= j < |init| && init[j] == before[id];
        assert entries[j] == init[j];
      }
    }
  }

  /** scrapePrices' inner loop: the entries of one page merged into the map
      kept so far. */
  method MergeLowest(lowest: map<string, PriceEntry>, ghost seen: seq<PriceEntry>, entries: seq<PriceEntry>)
    returns (m: map<string, PriceEntry>)
    requires lowest == Lowest(seen)
    ensures m == Lowest(seen + entries)
  {
    m := lowest;
    assert seen + entries[..0] == seen;
    for i := 0 to |entries|
      invariant m == Lowest(seen + entries[..i])
    {
      var e := entries[i];
      if e.id !in m || e.price < m[e.id].price {
        m := m[e.id := e];
      }
      LowestSnoc(seen + entries[..i], e);
      AppendPrefixSnoc(seen, entries, i);
    }
    assert entries[..|entries|] == entries;
  }

  /** scrapePrices' allEntries: the map's values written into an array of
      its size by a counter, in the map's iteration order. */
  method AllEntries(lowest: map<string, PriceEntry>) returns (all: seq<PriceEntry>)
    ensures |all| == |lowest|
    ensures forall i :: 0 <= i < |all| ==> all[i] in lowest.Values
    ensures forall id :: id in lowest ==> lowest[id] in all
    ensures (forall id :: id in lowest ==> lowest[id].id == id) ==>
              forall i, j :: 0 <= i < j < |all| ==> all[i].id != all[j].id
  {
    ghost var picked;
    all, picked := FillEntries(lowest);
    forall id | id in lowest
      ensures lowest[id] in all
    {
      var j :| 0 <= j < |picked| && picked[j] == id;
      assert all[j] == lowest[id];
    }
  }

  /** The loop of allEntries: each key of the map taken once, its entry
      written at the next index. */
  method FillEntries(lowest: map<string, PriceEntry>) returns (all: seq<PriceEntry>, ghost picked: seq<string>)
    ensures |all| == |picked| == |lowest|
    ensures forall j :: 0 <= j < |picked| ==> picked[j] in lowest && all[j] == lowest[picked[j]]
    ensures forall j, k :: 0 <= j < k < |picked| ==> picked[j] != picked[k]
    ensures forall id :: id in lowest ==> id in picked
  {
    var a := new PriceEntry[|lowest|];
    var rest := lowest.Keys;
    picked := [];
    var i := 0;
    while rest != {}
      invariant rest <= lowest.Keys
      invariant i == |picked| && i + |rest| == |lowest|
      invariant forall j :: 0 <= j < i ==> picked[j] in lowest && picked[j] !in rest && a[j] == lowest[picked[j]]
      invariant forall j, k :: 0 <= j < k < i ==> picked[j] != picked[k]
      invariant forall id :: id in lowest && id !in rest ==> id in picked
      decreases |rest|
    {
      var id :| id in rest;
      a[i] := lowest[id];
      picked := picked + [id];
      rest := rest - {id};
      i := i + 1;
    }
    all := a[..];
  }

  /** The catalog UpdateAllPrices leaves: every old price removed, then each
      entry stored under its ID. */
  function CatalogOf(entries: seq<PriceEntry>): (c: Catalog)
    ensures forall id :: id in c <==> exists k :: 0 <= k < |entries| && entries[k].id == id
  {
    if entries == [] then map[]
    else
      var e := entries[|entries| - 1];
      var c := CatalogOf(entries[..|entries| - 1])[e.id := (e.name, e.price)];
      assert forall k :: 0 <= k < |entries| - 1 ==> entries[..|entries| - 1][k] == entries[k];
      c
  }

  /** With distinct IDs, each entry's name and price are what the catalog
      holds under its ID. */
  lemma {:induction false} CatalogOfDistinct(entries: seq<PriceEntry>, k: nat)
    requires k < |entries|
    requires forall i, j :: 0 <= i < j < |entries| ==> entries[i].id != entries[j].id
    ensures CatalogOf(entries)[entries[k].id] == (entries[k].name, entries[k].price)
  {
    var n := |entries| - 1;
    if k < n {
      var init := entries[..n];
      assert init[k] == entries[k];
      CatalogOfDistinct(init, k);
    }
  }

  /** The catalog written from the reconciled map holds, for every ID seen,
      the first cheapest entry's name and price, whatever order the map was
      written in. */
  lemma CatalogOfLowestAt(lowest: map<string, PriceEntry>, all: seq<PriceEntry>, id: string)
    requires forall id :: id in lowest ==> lowest[id].id == id
    requires |all| == |lowest|
    requires forall i :: 0 <= i < |all| ==> all[i] in lowest.Values
    requires forall id :: id in lowest ==> lowest[id] in all
    requires forall i, j :: 0 <= i < j < |all| ==> all[i].id != all[j].id
    ensures id in CatalogOf(all) <==> id in lowest
    ensures id in lowest ==> CatalogOf(all)[id] == (lowest[id].name, lowest[id].price)
  {
    if id in lowest {
      var k :| 0 <= k < |all| && all[k] == lowest[id];
      CatalogOfDistinct(all, k);
    }
    if id in CatalogOf(all) {
      var k :| 0 <= k < |all| && all[k].id == id;
      assert all[k] in lowest.Values;
    }
  }

  /** Any order in which the reconciled map is written gives the same
      catalog: one entry per ID of the map, with its name and price. */
  lemma CatalogOfLowest(lowest: map<string, PriceEntry>, all: seq<PriceEntry>)
    requires forall id :: id in lowest ==> lowest[id].id == id
    requires |all| == |lowest|
    requires forall i :: 0 <= i < |all| ==> all[i] in lowest.Values
    requires forall id :: id in lowest ==> lowest[id] in all
    requires forall i, j :: 0 <= i < j < |all| ==> all[i].id != all[j].id
    ensures CatalogOf(all) == CatalogFromLowest(lowest)
  {
    var c, f := CatalogOf(all), CatalogFromLowest(lowest);
    forall id
      ensures id in c <==> id in f
      ensures id in c ==> c[id] == f[id]
    {
      CatalogOfLowestAt(lowest, all, id);
    }
    MapsEqual(c, f);
  }

  /** Two maps with the same keys and the same value under each are equal. */
  lemma MapsEqual<K, V>(a: map<K, V>, b: map<K, V>)
    requires forall k :: k in a <==> k in b
    requires forall k :: k in a ==> a[k] == b[k]
    ensures a == b
  {
  }

  /** A catalog written from entries that carry their own name's ID is keyed. */
  lemma {:induction false} CatalogOfKeyed(entries: seq<PriceEntry>)
    requires forall k :: 0 <= k < |entries| ==> entries[k].id == IdOf(entries[k].name)
    ensures Keyed(CatalogOf(entries))
  {
    if entries != [] {
      CatalogOfKeyed(entries[..|entries| - 1]);
    }
  }

  // ---------------------------------------------------------------------------
  // Links and cells of the price guide

  /** The start of a set link's href, compared lower-cased. */
  const SetPrefix: string := "/db/search_result.asp?set_name="
  const Host: string := "http://magic.tcgplayer.com"
  const M10Name: string := "Magic 2010"
  const M10Suffix: string := " (M10)"

  /** The URL scraped for a link of the set index, if it is a set link. The
      link for Magic 2010 gets " (M10)" appended. */
  function SetLink(href: string): (r: Option<string>)
    ensures r.Some? <==> HasPrefix(ToLowerString(href), SetPrefix)
    ensures r.Some? ==> r.value == Host + href + (if HasSuffix(href, M10Name) then M10Suffix else "")
  {
    if HasPrefix(ToLowerString(href), SetPrefix) then
      var v := if HasSuffix(href, M10Name) then href + M10Suffix else href;
      Some(Host + v)
    else None
  }

  /** The set links of the index page, in page order; an anchor without an
      href is None. */
  function SetLinks(hrefs: seq<Option<string>>): (links: seq<string>)
    ensures |links| <= |hrefs|
  {
    if hrefs == [] then []
    else
      var h := hrefs[|hrefs| - 1];
      var link := if h.Some? then SetLink(h.value) else None;
      SetLinks(hrefs[..|hrefs| - 1]) + if link.Some? then [link.value] else []
  }

  /** The Each callback over the anchors of the index page. */
  method CollectSetLinks(hrefs: seq<Option<string>>) returns (links: seq<string>)
    ensures links == SetLinks(hrefs)
  {
    links := [];
    for i := 0 to |hrefs|
      invariant links == SetLinks(hrefs[..i])
    {
      assert hrefs[..i + 1][..i] == hrefs[..i];
      if hrefs[i].Some? {
        var val := hrefs[i].value;
        if HasPrefix(ToLowerString(val), SetPrefix) {
          if HasSuffix(val, M10Name) {
            val := val + M10Suffix;
          }
          links := links + [Host + val];
        }
      }
    }
    assert hrefs[..|hrefs|] == hrefs;
  }

  /** Whether a link of the index page is a set link does not depend on the
      case of its href. */
  lemma SetLinkIgnoresCase(a: string, b: string)
    requires ToLowerString(a) == ToLowerString(b)
    ensures SetLink(a).Some? <==> SetLink(b).Some?
  {
  }

  /** scrapePage's URL fix: every space becomes '+'. */
  function PageUrl(url: string): (r: string)
    ensures |r| == |url| && ' ' !in r
    ensures forall i :: 0 <= i < |url| && url[i] != ' ' ==> r[i] == url[i]
  {
    ReplaceChar(url, ' ', '+')
  }

  /** A URL without spaces is fetched as it is, so the fix is idempotent. */
  lemma PageUrlFixed(url: string)
    requires ' ' !in url
    ensures PageUrl(url) == url
  {
  }

  /** The background colours of the cells that hold a price. */
  const PriceColors: seq<string> := ["#D1DFFC", "#E6F4FF"]

  /** A table cell of a price page: its bgcolor attribute, the href of its
      link, and its text. */
  datatype Cell = Cell(bgcolor: Option<string>, href: Option<string>, text: string)

  /** The card name of a cell's link: the text strictly between the first
      "cn=" and the first "&" after it. */
  function CellName(href: string): (r: Option<string>)
    ensures r.Some? ==> '&' !in r.value
    ensures Index(href, "cn=") < 0 ==> r.None?
  {
    var idx := Index(href, "cn=");
    if idx < 0 then None
    else
      var rest := href[idx + 3..];
      var amp := Index(rest, "&");
      if amp < 0 then None
      else
        assert forall k :: 0 <= k < amp ==> !OccursAt(rest, "&", k);
        assert forall k :: 0 <= k < amp ==> rest[k] != '&' by {
          forall k | 0 <= k < amp
            ensures rest[k] != '&'
          {
            assert !OccursAt(rest, "&", k);
            assert rest[k..k + 1] == [rest[k]];
          }
        }
        Some(rest[..amp])
  }

  /** A link whose "cn=" comes first and whose name has no '&' gives that name. */
  lemma CellNameOf(a: string, name: string, b: string)
    requires forall k :: !OccursAt(a + "cn", "cn=", k)
    requires '&' !in name
    ensures CellName(a + "cn=" + name + "&" + b) == Some(name)
  {
    var href := a + "cn=" + name + "&" + b;
    assert OccursAt(href, "cn=", |a|);
    forall k | 0 <= k < |a|
      ensures !OccursAt(href, "cn=", k)
    {
      assert href[k..k + 3] == (a + "cn")[k..k + 3];
      assert !OccursAt(a + "cn", "cn=", k);
    }
    IndexAtLeastMinusOne(href, "cn=");
    assert Index(href, "cn=") == |a|;
    var rest := href[|a| + 3..];
    assert rest == name + ("&" + b);
    IndexPastPrefix(name, "&", "&" + b);
    assert OccursAt("&" + b, "&", 0);
    IndexAtLeastMinusOne("&" + b, "&");
    assert Index("&" + b, "&") == 0;
    assert rest[..|name|] == name;
  }

  /** The name and the cleaned price text of a cell that holds a price: a
      cell of one of the two colours whose link names a card. */
  function CellReading(cell: Cell): Option<(string, string)>
  {
    if cell.bgcolor.None? || cell.bgcolor.value !in PriceColors || cell.href.None? then None
    else
      match CellName(cell.href.value)
      case None => None
      case Some(name) => Some((name, CleanPrice(cell.text)))
  }

  /** The callback scrapePage runs on each cell: the colour is looked up in
      the list of price colours by a flag set in a loop. */
  method ReadCell(cell: Cell) returns (r: Option<(string, string)>)
    ensures r == CellReading(cell)
  {
    if cell.bgcolor.None? {
      return None;
    }
    var val := cell.bgcolor.value;
    var isCorrectColor := false;
    for k := 0 to |PriceColors|
      invariant isCorrectColor <==> val in PriceColors[..k]
    {
      assert PriceColors[..k + 1] == PriceColors[..k] + [PriceColors[k]];
      if val == PriceColors[k] {
        isCorrectColor := true;
      }
    }
    assert PriceColors[..|PriceColors|] == PriceColors;
    if !isCorrectColor || cell.href.None? {
      return None;
    }
    var name := CellName(cell.href.value);
    if name.None? {
      return None;
    }
    return Some((name.value, CleanPrice(cell.text)));
  }

  predicate IsDollar(c: char) { c == '$' }

  /** The price text of a cell: white space trimmed, then '$' trimmed from both
      ends, then every ',' removed. */
  function CleanPrice(text: string): (r: string)
    ensures ',' !in r && |r| <= |text|
  {
    var r := RemoveChar(TrimBy(TrimSpace(text), IsDollar), ',');
    assert multiset(r)[','] == 0;
    r
  }

  /** The usual price text: white space, a dollar sign, the amount and white
      space again give back the amount without its thousands separators. */
  lemma CleanPriceOf(lead: string, amount: string, trail: string)
    requires forall i :: 0 <= i < |lead| ==> IsSpace(lead[i])
    requires forall i :: 0 <= i < |trail| ==> IsSpace(trail[i])
    requires amount != [] && !IsSpace(amount[|amount| - 1]) && !IsDollar(amount[0]) && !IsDollar(amount[|amount| - 1])
    ensures CleanPrice(lead + ("$" + amount) + trail) == RemoveChar(amount, ',')
  {
    SpaceTrimmed(lead, "$" + amount, trail);
    DollarTrimmed(amount);
  }

  lemma SpaceTrimmed(lead: string, core: string, trail: string)
    requires forall i :: 0 <= i < |lead| ==> IsSpace(lead[i])
    requires forall i :: 0 <= i < |trail| ==> IsSpace(trail[i])
    requires core != [] && !IsSpace(core[0]) && !IsSpace(core[|core| - 1])
    ensures TrimSpace(lead + core + trail) == core
  {
    TrimAround(lead, core, trail, IsSpace);
  }

  lemma DollarTrimmed(amount: string)
    requires amount != [] && !IsDollar(amount[0]) && !IsDollar(amount[|amount| - 1])
    ensures TrimBy("$" + amount, IsDollar) == amount
  {
    assert "$" + amount + [] == "$" + amount;
    TrimAround("$", amount, [], IsDollar);
  }

  /** Trimming removes exactly the characters cut around a core that starts
      and ends with a character kept. */
  lemma TrimAround(lead: string, core: string, trail: string, cut: char -> bool)
    requires forall i :: 0 <= i < |lead| ==> cut(lead[i])
    requires forall i :: 0 <= i < |trail| ==> cut(trail[i])
    requires core != [] && !cut(core[0]) && !cut(core[|core| - 1])
    ensures TrimBy(lead + core + trail, cut) == core
  {
    assert lead + core + trail == lead + (core + trail);
    TrimLeftPrefix(lead, core + trail, cut);
    TrimRightSuffix(core, trail, cut);
  }

  lemma {:induction false} TrimLeftPrefix(pre: string, s: string, cut: char -> bool)
    requires forall i :: 0 <= i < |pre| ==> cut(pre[i])
    requires s != [] && !cut(s[0])
    ensures TrimLeftBy(pre + s, cut) == s
  {
    if pre != [] {
      assert (pre + s)[1..] == pre[1..] + s;
      TrimLeftPrefix(pre[1..], s, cut);
    } else {
      assert pre + s == s;
    }
  }

  lemma {:induction false} TrimRightSuffix(s: string, suf: string, cut: char -> bool)
    requires forall i :: 0 <= i < |suf| ==> cut(suf[i])
    requires s != [] && !cut(s[|s| - 1])
    ensures TrimRightBy(s + suf, cut) == s
  {
    if suf != [] {
      var n := |suf| - 1;
      assert (s + suf)[..|s + suf| - 1] == s + suf[..n];
      TrimRightSuffix(s, suf[..n], cut);
    } else {
      assert s + suf == s;
    }
  }

  // ---------------------------------------------------------------------------
  // Scraping pages

  /** A fetched document, or the error fetching it gave. */
  datatype Fetched<T> = Fetched(doc: T) | FetchFailed(err: string)

  /** What scraping one page or all of them comes to: the entries found, the
      error of a fetch, or a panic from a price that does not parse. */
  datatype ScrapeResult = Scraped(entries: seq<PriceEntry>) | ScrapeFailed(err: string) | ScrapePanicked

  /** Scraped entries carry the ID of their own name. */
  predicate EntriesKeyed(entries: seq<PriceEntry>)
  {
    forall k :: 0 <= k < |entries| ==> entries[k].id == IdOf(entries[k].name)
  }

  /** The entries of a price page's cells, in page order; a price text that
      does not parse panics. */
  function CellEntries(cells: seq<Cell>, parsePrice: string -> Option<Money>): ScrapeResult
  {
    if cells == [] then Scraped([])
    else CellStep(CellEntries(cells[..|cells| - 1], parsePrice), cells[|cells| - 1], parsePrice)
  }

  /** One cell read after the ones before it: a panic stays a panic, a cell
      without a price adds nothing, and a cell with a price adds its entry or
      panics when the price does not parse. */
  function CellStep(prev: ScrapeResult, cell: Cell, parsePrice: string -> Option<Money>): ScrapeResult
  {
    var reading := CellReading(cell);
    if !prev.Scraped? || reading.None? then prev
    else
      match parsePrice(reading.value.1)
      case None => ScrapePanicked
      case Some(price) => Scraped(prev.entries + [PriceEntry(IdOf(reading.value.0), reading.value.0, price)])
  }

  /** Reading cells never fails a fetch; it yields at most one entry per
      cell, each under the ID of its own name. */
  lemma {:induction false} CellEntriesKeyed(cells: seq<Cell>, parsePrice: string -> Option<Money>)
    ensures !CellEntries(cells, parsePrice).ScrapeFailed?
    ensures CellEntries(cells, parsePrice).Scraped? ==>
      |CellEntries(cells, parsePrice).entries| <= |cells| && EntriesKeyed(CellEntries(cells, parsePrice).entries)
  {
    if cells != [] {
      var init := cells[..|cells| - 1];
      CellEntriesKeyed(init, parsePrice);
      CellStepKeyed(CellEntries(init, parsePrice), cells[|cells| - 1], parsePrice);
    }
  }

  /** One step of CellEntries keeps its result keyed and adds at most one
      entry. */
  lemma CellStepKeyed(prev: ScrapeResult, cell: Cell, parsePrice: string -> Option<Money>)
    requires !prev.ScrapeFailed? && (prev.Scraped? ==> EntriesKeyed(prev.entries))
    ensures !CellStep(prev, cell, parsePrice).ScrapeFailed?
    ensures CellStep(prev, cell, parsePrice).Scraped? ==>
      && |CellStep(prev, cell, parsePrice).entries| <= |prev.entries| + 1
      && EntriesKeyed(CellStep(prev, cell, parsePrice).entries)
  {
    var reading := CellReading(cell);
    if prev.Scraped? && reading.Some? && parsePrice(reading.value.1).Some? {
      var e := PriceEntry(IdOf(reading.value.0), reading.value.0, parsePrice(reading.value.1).value);
      EntriesKeyedSnoc(prev.entries, e);
    }
  }

  lemma EntriesKeyedSnoc(entries: seq<PriceEntry>, e: PriceEntry)
    requires EntriesKeyed(entries) && e.id == IdOf(e.name)
    ensures EntriesKeyed(entries + [e])
  {
    var r := entries + [e];
    forall k | 0 <= k < |r|
      ensures r[k].id == IdOf(r[k].name)
    {
      if k < |entries| {
        assert r[k] == entries[k];
      }
    }
  }

  /** A panic on one cell is a panic of the whole page. */
  lemma {:induction false} CellEntriesPanicked(cells: seq<Cell>, i: nat, parsePrice: string -> Option<Money>)
    requires i <= |cells| && CellEntries(cells[..i], parsePrice) == ScrapePanicked
    ensures CellEntries(cells, parsePrice) == ScrapePanicked
    decreases |cells| - i
  {
    if i < |cells| {
      assert cells[..i + 1][..i] == cells[..i];
      CellEntriesPanicked(cells, i + 1, parsePrice);
    } else {
      assert cells[..i] == cells;
    }
  }

  /** scrapePage on a URL: the URL with its spaces fixed is fetched, and the
      cells of the page are read. */
  function PageOf(url: string, fetch: string -> Fetched<seq<Cell>>, parsePrice: string -> Option<Money>): ScrapeResult
  {
    match fetch(PageUrl(url))
    case FetchFailed(err) => ScrapeFailed(err)
    case Fetched(cells) => CellEntries(cells, parsePrice)
  }

  /** scrapePage: the URL with its spaces fixed is fetched, and its cells read. */
  method ScrapePage(url: string, fetch: string -> Fetched<seq<Cell>>, parsePrice: string -> Option<Money>)
    returns (r: ScrapeResult)
    ensures r == PageOf(url, fetch, parsePrice)
  {
    var fixed := PageUrl(url);
    var doc := fetch(fixed);
    if doc.FetchFailed? {
      return ScrapeFailed(doc.err);
    }
    r := ReadCells(doc.doc, parsePrice);
  }

  /** The Each callback of scrapePage over the cells of a page: an entry
      appended for each cell that holds a price. */
  method ReadCells(cells: seq<Cell>, parsePrice: string -> Option<Money>) returns (r: ScrapeResult)
    ensures r == CellEntries(cells, parsePrice)
  {
    var entries := [];
    for i := 0 to |cells|
      invariant CellEntries(cells[..i], parsePrice) == Scraped(entries)
    {
      var next := ReadCellInto(cells[i], entries, parsePrice);
      SliceSnoc(cells, i);
      if next.ScrapePanicked? {
        CellEntriesPanicked(cells, i + 1, parsePrice);
        return ScrapePanicked;
      }
      entries := next.entries;
    }
    assert cells[..|cells|] == cells;
    r := Scraped(entries);
  }

  /** The callback on one cell, after the entries read so far. */
  method ReadCellInto(cell: Cell, entries: seq<PriceEntry>, parsePrice: string -> Option<Money>) returns (r: ScrapeResult)
    ensures r == CellStep(Scraped(entries), cell, parsePrice)
    ensures r.Scraped? || r.ScrapePanicked?
  {
    var reading := ReadCell(cell);
    if reading.None? {
      return Scraped(entries);
    }
    var price := parsePrice(reading.value.1);
    if price.None? {
      return ScrapePanicked;
    }
    r := Scraped(entries + [PriceEntry(IdOf(reading.value.0), reading.value.0, price.value)]);
  }

  /** The pages of the set links scraped in order: the entries of all of them,
      or the first page's error or panic. */
  function PagesOf(links: seq<string>, fetch: string -> Fetched<seq<Cell>>, parsePrice: string -> Option<Money>): (r: ScrapeResult)
    ensures r.Scraped? ==> EntriesKeyed(r.entries)
  {
    if links == [] then Scraped([])
    else
      var prev := PagesOf(links[..|links| - 1], fetch, parsePrice);
      if !prev.Scraped? then prev
      else
        var page := PageOf(links[|links| - 1], fetch, parsePrice);
        if page.Scraped? then
          PageOfKeyed(links[|links| - 1], fetch, parsePrice);
          EntriesKeyedAppend(prev.entries, page.entries);
          Scraped(prev.entries + page.entries)
        else page
  }

  lemma PageOfKeyed(url: string, fetch: string -> Fetched<seq<Cell>>, parsePrice: string -> Option<Money>)
    ensures PageOf(url, fetch, parsePrice).Scraped? ==> EntriesKeyed(PageOf(url, fetch, parsePrice).entries)
  {
    if fetch(PageUrl(url)).Fetched? {
      CellEntriesKeyed(fetch(PageUrl(url)).doc, parsePrice);
    }
  }

  lemma EntriesKeyedAppend(a: seq<PriceEntry>, b: seq<PriceEntry>)
    requires EntriesKeyed(a) && EntriesKeyed(b)
    ensures EntriesKeyed(a + b)
  {
    forall k | 0 <= k < |a + b|
      ensures (a + b)[k].id == IdOf((a + b)[k].name)
    {
      if k < |a| {
        assert (a + b)[k] == a[k];
      } else {
        assert (a + b)[k] == b[k - |a|];
      }
    }
  }

  /** Once a page fails or panics, scraping the rest changes nothing. */
  lemma {:induction false} PagesStopped(links: seq<string>, i: nat, fetch: string -> Fetched<seq<Cell>>, parsePrice: string -> Option<Money>)
    requires i <= |links| && !PagesOf(links[..i], fetch, parsePrice).Scraped?
    ensures PagesOf(links, fetch, parsePrice) == PagesOf(links[..i], fetch, parsePrice)
    decreases |links| - i
  {
    if i < |links| {
      assert links[..i + 1][..i] == links[..i];
      PagesStopped(links, i + 1, fetch, parsePrice);
    } else {
      assert links[..i] == links;
    }
  }

  /** scrapePrices: the set index is fetched, its set links collected, and
      every set's page scraped. */
  function ScrapeOf(index: Fetched<seq<Option<string>>>, fetch: string -> Fetched<seq<Cell>>, parsePrice: string -> Option<Money>): ScrapeResult
  {
    match index
    case FetchFailed(err) => ScrapeFailed(err)
    case Fetched(hrefs) => PagesOf(SetLinks(hrefs), fetch, parsePrice)
  }

  /** scrapePrices' loop over the set links: each page scraped, then merged
      into the map of lowest prices; the first error or panic stops it. */
  method ScrapeAllPages(links: seq<string>, fetch: string -> Fetched<seq<Cell>>, parsePrice: string -> Option<Money>)
    returns (r: ScrapeResult, lowest: map<string, PriceEntry>)
    ensures r == PagesOf(links, fetch, parsePrice)
    ensures r.Scraped? ==> lowest == Lowest(r.entries)
  {
    lowest := map[];
    var seen := [];
    for i := 0 to |links|
      invariant PagesOf(links[..i], fetch, parsePrice) == Scraped(seen)
      invariant lowest == Lowest(seen)
    {
      assert links[..i + 1][..i] == links[..i];
      var page := ScrapePage(links[i], fetch, parsePrice);
      if !page.Scraped? {
        PagesStopped(links, i + 1, fetch, parsePrice);
        return page, lowest;
      }
      lowest := MergeLowest(lowest, seen, page.entries);
      seen := seen + page.entries;
    }
    assert links[..|links|] == links;
    r := Scraped(seen);
  }

  /** Db.UpdateAllPrices on scrapePrices' allEntries: the catalog that results
      holds exactly the reconciled entries, whatever order the map gave them. */
  method UpdateAllPrices(lowest: map<string, PriceEntry>) returns (c: Catalog)
    requires forall id :: id in lowest ==> lowest[id].id == id
    ensures c == CatalogFromLowest(lowest)
  {
    var all := AllEntries(lowest);
    c := CatalogOf(all);
    CatalogOfLowest(lowest, all);
  }

  /** The catalog holding, for each ID, the name and price kept for it. */
  function CatalogFromLowest(lowest: map<string, PriceEntry>): (c: Catalog)
    ensures c.Keys == lowest.Keys
  {
    map id | id in lowest :: (lowest[id].name, lowest[id].price)
  }

  /** The catalog written after a successful scrape is keyed: repricing with
      it is idempotent. */
  lemma ScrapedCatalogKeyed(entries: seq<PriceEntry>)
    requires EntriesKeyed(entries)
    ensures Keyed(CatalogFromLowest(Lowest(entries)))
  {
    LowestProperties(entries);
    forall id | id in Lowest(entries)
      ensures IdOf(Lowest(entries)[id].name) == id
    {
      var k :| 0 <= k < |entries| && entries[k] == Lowest(entries)[id];
    }
  }

  // ---------------------------------------------------------------------------
  // The scraper's schedule

  /** The time between two scrapes: 24 hours, in nanoseconds. */
  const WaitBetweenScrapes: int := 24 * 60 * 60 * 1_000_000_000

  /** ScraperStats: when the prices were last scraped, in nanoseconds, and the
      error of that scrape, if any. */
  datatype ScraperStats = ScraperStats(lastPriceUpdate: int, lastPriceUpdateError: Option<string>)

  /** The test ScrapeForever makes on each tick: a scrape is due when the
      stats cannot be read (None) or the last scrape is more than 24 hours
      before now. */
  predicate ScrapeDue(stats: Option<ScraperStats>, now: int)
  {
    stats.None? || stats.value.lastPriceUpdate + WaitBetweenScrapes < now
  }

  /** A scrape once due stays due as time passes; within 24 hours of the last
      one none is due, whether or not it failed. */
  lemma ScrapeDueMonotone(stats: Option<ScraperStats>, now: int, later: int)
    requires now <= later
    ensures ScrapeDue(stats, now) ==> ScrapeDue(stats, later)
    ensures stats.Some? && now <= stats.value.lastPriceUpdate + WaitBetweenScrapes ==> !ScrapeDue(stats, now)
  {
  }

  /** How a scrape ends: the catalog replaced, an error returned, or a panic. */
  datatype ScrapeOutcome = Done | Failed(err: string) | Panic

  /** The price database: the catalog and the scraper's stats. */
  class PriceDb {
    var catalog: Catalog
    var stats: Option<ScraperStats>

    constructor ()
      ensures catalog == map[] && stats == None
    {
      catalog := map[];
      stats := None;
    }

    /** Db.scrapePrices: the set index is fetched and every set page scraped
        and reconciled; only when all succeed is the catalog replaced. */
    method ScrapePrices(index: Fetched<seq<Option<string>>>, fetch: string -> Fetched<seq<Cell>>, parsePrice: string -> Option<Money>)
      returns (r: ScrapeOutcome)
      modifies this
      ensures stats == old(stats)
      ensures r.Done? <==> ScrapeOf(index, fetch, parsePrice).Scraped?
      ensures r.Failed? <==> ScrapeOf(index, fetch, parsePrice).ScrapeFailed?
      ensures r.Failed? ==> r.err == ScrapeOf(index, fetch, parsePrice).err
      ensures r.Done? ==> catalog == CatalogFromLowest(Lowest(ScrapeOf(index, fetch, parsePrice).entries))
      ensures !r.Done? ==> catalog == old(catalog)
    {
      if index.FetchFailed? {
        return Failed(index.err);
      }
      var links := CollectSetLinks(index.doc);
      var pages, lowest := ScrapeAllPages(links, fetch, parsePrice);
      if pages.ScrapeFailed? {
        return Failed(pages.err);
      } else if pages.ScrapePanicked? {
        return Panic;
      }
      LowestProperties(pages.entries);
      catalog := UpdateAllPrices(lowest);
      r := Done;
    }

    /** One tick of ScrapeForever with scrapePricesPeriodic: when a scrape is
        due it runs, and unless it panics the stats record the time it
        finished and its error. */
    method Tick(now: int, finished: int, index: Fetched<seq<Option<string>>>, fetch: string -> Fetched<seq<Cell>>, parsePrice: string -> Option<Money>)
      returns (r: Option<ScrapeOutcome>)
      modifies this
      ensures r.None? <==> !ScrapeDue(old(stats), now)
      ensures r.None? ==> catalog == old(catalog) && stats == old(stats)
      ensures r == Some(Done) ==> stats == Some(ScraperStats(finished, None))
      ensures r.Some? && r.value.Failed? ==> catalog == old(catalog) && stats == Some(ScraperStats(finished, Some(r.value.err)))
      ensures r == Some(Panic) ==> catalog == old(catalog) && stats == old(stats)
      ensures r.Some? ==> (r.value.Done? <==> ScrapeOf(index, fetch, parsePrice).Scraped?)
      ensures r.Some? ==> (r.value.Failed? <==> ScrapeOf(index, fetch, parsePrice).ScrapeFailed?)
      ensures r.Some? && r.value.Failed? ==> r.value.err == ScrapeOf(index, fetch, parsePrice).err
      ensures r == Some(Done) ==> catalog == CatalogFromLowest(Lowest(ScrapeOf(index, fetch, parsePrice).entries))
    {
      if !ScrapeDue(stats, now) {
        return None;
      }
      var outcome := ScrapePrices(index, fetch, parsePrice);
      if outcome.Done? {
        stats := Some(ScraperStats(finished, None));
      } else if outcome.Failed? {
        stats := Some(ScraperStats(finished, Some(outcome.err)));
      }
      r := Some(outcome);
    }
  }
}
