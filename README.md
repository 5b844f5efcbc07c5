# Deck pricing and legality engine of donkeytownsfolk

donkeytownsfolk is a web site for budget Magic: The Gathering commander decks.
Each user owns decks. A deck has a name, a price limit, a staging area being
edited, and a history of snapshots. A snapshot holds a decklist, a sideboard,
an optional commander and a grandfather flag. The site does three things:

- It scrapes card prices from a price site once a day and keeps the lowest
  price per card ID.
- It prices the cards of a snapshot against that catalog. The five basic
  lands are always free.
- It decides whether a deck is legal, using the cheapest snapshot in the
  newest run of snapshots with identical cards.

This project models that engine in Dafny and proves properties of the model.
It has eight modules, one per file:

- `Strings` (`strings.dfy`): the Go standard-library string and integer
  routines the engine calls, over ASCII.
- `Normalize` (`normalize.dfy`):
  - `normalizeString`/`normalizeRune`, the search key of deck and user names;
  - `nameToId`, the price ID of a card name.
- `DeckList` (`decklist.dfy`): the decklist line parser. It is a hand-written
  matcher for the regular expression `(?:([0-9]+)[xX]?\s+)?(\w.+)` with Go's
  leftmost-first, find-all semantics. It also covers the text the decklist
  form sends back.
- `Snapshots` (`snapshot.dfy`): card entries, the commander, snapshots, their
  totals, counts and dumps, `HasIdenticalCards` and `Clone`.
- `Decks` (`deck.dfy`):
  - the `Deck` class: `CurrentPriceSnapshot`, the legality predicates,
    `IsSaved`, `SnapshotsReversed`;
  - the `User` class: `FindDeck`.
- `Prices` (`prices.go` logic, in `prices.dfy`):
  - card-price resolution (`calculateNameAndPrice`, `CalculatePrices`);
  - the lowest-price reconciliation of the scraper;
  - the string processing of set links and price cells;
  - the staleness test of the scraping loop;
  - a `PriceDb` class holding the catalog and the scraper's statistics.
- `Filter` (`filter.dfy`): the deck search of the filter page. It covers the
  price filter, the search terms, sorted insertion by deck name, pagination
  by 25, and the page-range text and links.
- `Handlers` (`handlers.dfy`): the deck handlers. They add, rename and delete
  a deck, rebuild the staging area from the decklist form, save a snapshot,
  revert to the newest snapshot, and clear the history.

Modelling choices:

- Money is an integer number of cents. Prices typed into forms are whole
  dollars, so they are multiplied by 100.
- Snapshots and card entries are values, because the code never changes a
  snapshot once it is in the history. Decks and users are classes whose
  fields the handlers update in place.
- The price catalog is a map from card ID to (name, price). It stands in for
  the prices collection that `NameAndPrice` reads and `UpdateAllPrices`
  writes.
- Each handler receives the logged-in user and the form values as
  parameters. It changes the in-memory user and decks exactly as the handler
  does before it writes the user back.

Two behaviours of the code worth noting:

- A decklist line with count 0 ("0 Island") is accepted with count 0
  (`DeckList.ParseZeroExample`). The regular expression allows any digit
  run, and nothing rejects zero.
- `CalculatePrices` cannot fail. performUpdateDecklist tests an error from it
  (renderer.go:654), but prices.go:160 returns nothing, so that error branch
  is not modelled.

Go's `int` is 64 bits wide, and `Strings.WrapInt64` models its
wrap-around. The card counts of a snapshot (`Snapshots.TotalDecklistCount`,
`Snapshots.TotalSideboardCount`) are summed with it, as the code adds them.
The filter page's start index `CurrentPage * 25` can wrap around too. The
page-range text keeps the wrap-around, as the code computes it
(`Filter.RangeBounds`). The choice of decks shown uses the start index
without wrap-around; the wrap-around there is the second finding below.

## Model

| member | source | states |
|---|---|---|
| Strings.ToLower | prices.go:153 | an upper-case letter becomes lower case and any other character is kept, so being alphanumeric is unchanged |
| Strings.ToLowerString | prices.go:50 | same length, every character lowered by `ToLower` |
| Strings.TrimLeftBy | prices.go:132-133 | a suffix of the input; every character cut matches, and the first character kept does not |
| Strings.TrimRightBy | prices.go:132-133 | a prefix of the input; every character cut matches, and the last character kept does not |
| Strings.TrimBy | prices.go:133 | the result neither starts nor ends with a character to trim, and it occurs in the input where the left trim stopped |
| Strings.TrimmedFixed | prices.go:132-133 | trimming a string that starts and ends with kept characters changes nothing |
| Strings.ReplaceChar | prices.go:87 | same length; each occurrence of the character replaced and every other character kept |
| Strings.RemoveChar | prices.go:134 | same multiset of characters with that character removed; the length drops by its number of occurrences |
| Strings.RemoveCharAppend | prices.go:134 | removing a character distributes over concatenation |
| Strings.IndexFrom | prices.go:119-125 | -1, or the first position at or after the start where the substring occurs |
| Strings.Index | prices.go:119-125 | -1 exactly when the substring occurs nowhere; otherwise its first occurrence |
| Strings.Split | database.go:114 | at least one part |
| Strings.SplitAt | database.go:114 | the first part ends at the first separator and the rest is split again |
| Strings.SplitPartsFree | database.go:114 | no part contains the separator |
| Strings.JoinSplit | database.go:114 | joining the parts with the separator gives the input back |
| Strings.SplitJoin | database.go:114 | splitting parts joined by a separator that none of them contains gives the parts back |
| Strings.NatToString | renderer.go:295-298 | a non-empty digit string without a leading zero whose value is the number |
| Strings.Atoi | database.go:104-107 | none for empty or non-numeric text and for digit strings beyond int64; the digit value otherwise; always within int64 |
| Strings.AtoiIntToString | renderer.go:233-236 | a number's decimal text reads back as that number, for every 64-bit integer |
| Strings.BeforeIrreflexive | renderer.go:222 | Go's string order is irreflexive |
| Strings.BeforeAsymmetric | renderer.go:222 | Go's string order is asymmetric |
| Strings.BeforeTransitive | renderer.go:222 | Go's string order is transitive |
| Strings.BeforeTotal | renderer.go:222 | of two different strings, one comes before the other |
| Normalize.NormalizeRune | database.go:430-438 | the result is a lower-case letter, a digit or '-'; it is '-' exactly for a non-alphanumeric input; a letter or digit is lowered |
| Normalize.Normalized | database.go:419-428 | never longer than the input; made only of lower-case letters, digits and '-' |
| Normalize.NormalizeString | database.go:419-428 | the buffer loop yields the normalised string |
| Normalize.NormalizedAppend | database.go:419-428 | normalising distributes over concatenation |
| Normalize.NormalizedIsMap | database.go:419-438 | the length is the input's minus its '$' count, and each character is `normalizeRune` of the input with '$' removed, position by position |
| Normalize.NormalizedIdempotent | database.go:419-438 | normalising twice equals normalising once |
| Normalize.NormalizedIgnoresCase | database.go:419-438 | names that agree once lower-cased normalise alike |
| Normalize.IdOf | prices.go:149-157 | never longer than the name; only lower-case letters and digits |
| Normalize.NameToId | prices.go:149-157 | the buffer loop yields the ID |
| Normalize.IdOfAppend | prices.go:149-157 | the ID of a concatenation is the concatenation of the IDs |
| Normalize.IdOfIdempotent | prices.go:149-157 | the ID of an ID is itself |
| Normalize.IdOfIgnoresPunctuation | prices.go:149-157 | inserting non-alphanumeric characters does not change the ID |
| Normalize.NoAlnumNoId | prices.go:149-157 | a name without letters or digits has the empty ID |
| Normalize.IdOfIgnoresCase | prices.go:149-157 | names that agree once lower-cased have the same ID |
| Normalize.IdOfIsKeyWithoutDashes | prices.go:149-157 | the price ID is the search key of database.go:419 with its dashes removed |
| Normalize.IdExample | prices.go:149-157 | "Lightning Bolt" and "lightning-bolt" both have the ID "lightningbolt" |
| DeckList.MatchAt | database.go:88 | a match at a position is well formed, and there is none exactly when neither the counted form nor the bare name fits there |
| DeckList.CountedMatchAt | database.go:88 | a counted match starts at the position, is well formed and has a non-empty digit group |
| DeckList.FirstMatch | database.go:94 | a match found starts at or after the position and is the match at its start |
| DeckList.FirstMatchLeftmost | database.go:94 | no match starts before the one found |
| DeckList.AllMatches | database.go:94 | every match found is well formed and starts at or after the position |
| DeckList.ParseCardEntryLine | database.go:87-110 | a line shorter than two characters gives nil; an entry is free, found, non-empty, trimmed and on one line |
| DeckList.ParseBareName | database.go:104-109 | a name line without a count gives count 1 and the trimmed name |
| DeckList.ParseCounted | database.go:88-109 | digits, an optional x or X, white space and a name give that count (1 past int64) and the trimmed name |
| DeckList.CountOf | database.go:104-107 | the count read from a digit string is its value, or 1 when Atoi fails on it |
| DeckList.ParseDumpLine | database.go:395 | a line of the dump parses back to the entry it was written from |
| DeckList.ParseRejects | database.go:96-98 | "" and "4" give nil |
| DeckList.ParseCountExample | database.go:87-110 | "4 Lightning Bolt" gives 4 of "Lightning Bolt" |
| DeckList.ParseZeroExample | database.go:87-110 | "0 Island" gives 0 of "Island" |
| DeckList.ParseBareExample | database.go:104-109 | "Sol Ring" gives 1 of "Sol Ring" |
| DeckList.TwoCardsOneLine | database.go:94-98 | "Island\nForest" matches twice, so it gives nil |
| DeckList.ParseLines | database.go:112-121 | never more entries than lines, each one a parsed entry |
| DeckList.ParseCardEntryLines | database.go:112-121 | the loop keeps the non-nil parses of the "\r\n"-separated lines, in order |
| DeckList.ParseLinesAppend | database.go:112-121 | the parses of two runs of lines are the two parse lists concatenated |
| DeckList.FormLines | database.go:395 | one line per card, each written as count, space, name |
| DeckList.FormLineParses | database.go:87-110 | a writable entry's line parses back to the entry |
| DeckList.ParseFormLines | database.go:112-121 | parsing the form lines of writable cards gives the cards back, one per line |
| DeckList.FormTextRoundTrip | database.go:112-121 | the decklist form text of writable cards parses back to the same cards in the same order |
| Snapshots.SumCards | database.go:338-345 | the loop sums price times count over the list |
| Snapshots.TotalPrice | database.go:338-350 | the loop computes the snapshot total |
| Snapshots.CountCards | database.go:352-369 | the loop sums the counts of the list in 64 bits: the sum wrapped into int64, which is the plain sum whenever that fits |
| Snapshots.TotalDecklistCount | database.go:352-361 | the loop's result is the decklist count plus one for a commander, wrapped into int64; the plain count whenever that fits |
| Snapshots.DecklistCountWraps | database.go:354-356 | counts MaxInt and 1 add up to MaxInt + 1, which the 64-bit sum turns into MinInt |
| Snapshots.TotalSideboardCount | database.go:363-369 | the loop's result is the sideboard count, wrapped into int64; the plain count whenever that fits |
| Snapshots.ListTotalAppend | database.go:338-345 | the total of a concatenation is the sum of the totals |
| Snapshots.ListCountAppend | database.go:352-369 | the count of a concatenation is the sum of the counts |
| Snapshots.ListTotalByAmounts | database.go:334-336 | the total depends only on each entry's count and price |
| Snapshots.TotalByParts | database.go:338-350 | the total is the list total of decklist and sideboard plus a present commander's price, and depends on nothing else |
| Snapshots.ListTotalNonNegative | database.go:334-345 | cards with non-negative counts and prices have a non-negative total |
| Snapshots.DumpCards | database.go:392-406 | the loop writes one "count name" line per card |
| Snapshots.DecklistDump | database.go:392-398 | the decklist's dump |
| Snapshots.SideboardDump | database.go:400-406 | the sideboard's dump |
| Snapshots.DumpByCards | database.go:392-406 | the dump depends only on the ordered (count, name) list |
| Snapshots.IdenticalByCards | database.go:412-417 | equal (count, name) lists and the same commander presence and name give identical cards, whatever the prices, flags and dates |
| Snapshots.IdenticalCardsEquivalence | database.go:412-417 | having identical cards is reflexive, symmetric and transitive |
| Snapshots.CardsByDump | database.go:392-417 | with single-line names, equal dumps mean equal (count, name) lists |
| Snapshots.SameLine | database.go:395 | two entries with the same dump line have the same count and name |
| Snapshots.IntToStringInjective | database.go:395 | different counts are written differently |
| Snapshots.IdenticalIffSameCards | database.go:412-417 | with single-line names, HasIdenticalCards holds exactly when the (count, name) lists and the commander's presence and name agree |
| Snapshots.Clone | database.go:371-390 | the copy filled entry by entry equals the original |
| Decks.RunStart | database.go:204-211 | the trailing run of snapshots with the newest one's cards starts here, and the snapshot before it differs |
| Decks.Cheapest | database.go:205-214 | within the range, no snapshot is cheaper than the result and every newer one is strictly dearer |
| Decks.CurrentPrice | database.go:199-218 | none exactly for an empty history; otherwise an index of the history |
| Decks.CurrentPriceCharacterised | database.go:199-218 | the result is the one index that lies in the trailing run, is no dearer than any snapshot of the run, and is cheaper than every newer one |
| Decks.CurrentPriceUnique | database.go:199-218 | at most one index has those properties |
| Decks.CheapestOfRun | database.go:204-215 | the backward loop finds the newest cheapest snapshot of the trailing run |
| Decks.Reversed | database.go:189-195 | same length, position i holding snapshot n-1-i |
| Decks.ReversedTwice | database.go:189-195 | reversing twice gives the history back |
| Decks.LegalMonotone | database.go:225-241 | raising the limit keeps a legal snapshot legal; a grandfathered one's legality ignores the limit |
| Decks.IsSnapshotLegalAsWritten | database.go:225-241 | as written, a missing snapshot dereferences nil; otherwise the result is legality |
| Decks.IsLegalAsWrittenFailsOnEmptyHistory | database.go:243-245 | as written, asking whether a deck without snapshots is legal dereferences nil |
| Decks.Deck.constructor | renderer.go:535 | a new deck has the given name, date and limit, an empty staging area and no history |
| Decks.Deck.CurrentPriceSnapshot | database.go:199-218 | the loop's result is the current-price snapshot |
| Decks.Deck.IsGrandfatherLegal | database.go:220-223 | holds exactly when a current-price snapshot exists and is grandfathered |
| Decks.Deck.IsSnapshotLegal | database.go:225-241 | false for no snapshot, a present commander not found or any card not found; otherwise grandfathered or within the limit |
| Decks.Deck.IsStagingAreaLegal | database.go:247-249 | holds exactly when the staging area, checked as a snapshot, is legal under the deck's limit |
| Decks.SavedCurrentPrice | database.go:181-187 | a saved deck has a current-price snapshot, with the staging area's cards and no dearer than the staging area |
| Decks.SavedRunPrice | database.go:181-187 | the same, over the staging area and the history as values |
| Decks.Deck.IsLegal | database.go:243-245 | holds exactly when the current-price snapshot exists and is legal; agrees with the code wherever the code returns |
| Decks.Deck.SnapshotsReversed | database.go:189-195 | the array filled by index is the history newest first |
| Decks.FindIndex | database.go:157-164 | a found index lies within the list |
| Decks.FindIndexFirst | database.go:157-164 | none exactly when no deck has the key; otherwise the first deck with the key |
| Decks.User.constructor | database.go:307 | a new user has the name and no decks |
| Decks.User.FindDeck | database.go:157-164 | null exactly when no deck's normalised name is the normalised name asked for; otherwise the first such deck |
| Decks.FindOwnName | database.go:157-164 | in a user without duplicate names, each deck is found under its own name |
| Prices.FirstWithId | prices.go:184-188 | none exactly when no free card has the ID; otherwise the first free card with it |
| Prices.ResolveName | prices.go:182-194 | found exactly for a free card's ID or a catalog ID; a miss keeps the name at price 0; a free card resolves to its canonical name at price 0 |
| Prices.BasicLandIsFree | prices.go:184-187 | any name with a basic land's ID resolves to that land, free and found, whatever the catalog |
| Prices.FreeCardIdsDistinct | prices.go:16 | the five basic lands have five different IDs |
| Prices.ResolveById | prices.go:182-194 | names with the same ID resolve alike |
| Prices.ResolveIdempotent | prices.go:182-194 | against a catalog keyed by its names' IDs, resolving a resolved name changes nothing |
| Prices.PricedEntryMeaning | prices.go:175-180 | the count is kept; not-found is set exactly when the name did not resolve, and then the name is kept at price 0; a catalog hit gives the catalog's name and price |
| Prices.PriceCards | prices.go:167-172 | the loop prices every entry in place |
| Prices.CalculatePrices | prices.go:160-173 | the snapshot after pricing every entry, and the commander only when present |
| Prices.PricedCount | prices.go:167-172 | pricing keeps the total count of a list |
| Prices.PricingKeepsCounts | prices.go:160-173 | pricing keeps the decklist and sideboard counts |
| Prices.PricingIdempotent | prices.go:160-194 | against a keyed catalog, pricing a priced snapshot again changes nothing |
| Prices.Lowest | prices.go:65-70 | the last entry seen has a kept entry |
| Prices.LowestProperties | prices.go:65-70 | every kept entry is stored under its own ID, was seen, and is no dearer than any entry seen with that ID |
| Prices.LowestKeys | prices.go:65-70 | exactly the IDs seen are kept |
| Prices.LowestKeepsFirstCheapest | prices.go:67 | on equal prices the entry seen first is kept |
| Prices.MergeLowest | prices.go:65-70 | merging a page's entries continues the reconciliation of everything seen before |
| Prices.AllEntries | prices.go:74-79 | one entry per key of the map, each a value of the map, every value present; with entries under their own IDs, no ID repeats |
| Prices.FillEntries | prices.go:74-79 | the counter loop writes each key's entry once |
| Prices.CatalogOf | database.go:261-272 | after replacing all prices, exactly the IDs of the entries are in the catalog |
| Prices.CatalogOfDistinct | database.go:261-272 | with distinct IDs, each entry's name and price is what the catalog holds under its ID |
| Prices.CatalogOfLowestAt | prices.go:74-81 | the catalog written from the reconciled map holds each kept ID with its kept name and price |
| Prices.CatalogOfLowest | prices.go:74-81 | the order in which the map is written does not change the catalog |
| Prices.CatalogOfKeyed | prices.go:140-142 | entries stored under their own names' IDs give a keyed catalog |
| Prices.SetLink | prices.go:48-55 | a link exactly when the lower-cased href starts with the set prefix; the link is the host followed by the href, with " (M10)" appended exactly when the href ends in "Magic 2010" |
| Prices.SetLinks | prices.go:46-57 | never more links than anchors |
| Prices.CollectSetLinks | prices.go:46-57 | the callback loop collects the set links in page order |
| Prices.SetLinkIgnoresCase | prices.go:50 | whether a link is a set link does not depend on the case of its href |
| Prices.PageUrl | prices.go:87 | same length, no space left, every other character kept |
| Prices.PageUrlFixed | prices.go:87 | a URL without spaces is fetched as it is |
| Prices.CellName | prices.go:119-129 | a name has no '&', and there is none without "cn=" |
| Prices.CellNameOf | prices.go:119-129 | the text strictly between the first "cn=" and the next "&" is the name |
| Prices.ReadCell | prices.go:97-134 | the colour loop and the link tests keep a cell exactly when it has one of the two colours and a named link |
| Prices.CleanPrice | prices.go:131-134 | no ',' left and never longer than the cell text |
| Prices.CleanPriceOf | prices.go:131-134 | white space, "$", an amount and white space give the amount without its commas |
| Prices.TrimAround | prices.go:132-133 | trimming removes exactly the characters cut around a core that starts and ends with a kept character |
| Prices.CellEntriesKeyed | prices.go:95-143 | reading cells never fails a fetch; at most one entry per cell, each under its own name's ID |
| Prices.CellEntriesPanicked | prices.go:135-138 | a price that does not parse makes the whole page panic |
| Prices.ScrapePage | prices.go:84-146 | the URL with its spaces fixed is fetched and its cells are read |
| Prices.ReadCells | prices.go:95-143 | the callback loop gives the page's entries or its panic |
| Prices.ReadCellInto | prices.go:97-142 | one cell either adds its entry, adds nothing, or panics; it never fails a fetch |
| Prices.PagesOf | prices.go:60-64 | scraped entries are under their own names' IDs |
| Prices.PageOfKeyed | prices.go:84-146 | a page's scraped entries are under their own names' IDs |
| Prices.PagesStopped | prices.go:60-64 | after the first page that fails or panics, the rest change nothing |
| Prices.ScrapeAllPages | prices.go:59-72 | the loop scrapes the pages in order and keeps the lowest-price map of all entries |
| Prices.UpdateAllPrices | prices.go:74-81 | the catalog written from the reconciled map holds, for each kept ID, the kept name and price |
| Prices.CatalogFromLowest | prices.go:74-81 | the catalog has exactly the map's IDs |
| Prices.ScrapedCatalogKeyed | prices.go:59-81 | the catalog a successful scrape writes is keyed, so pricing against it is idempotent |
| Prices.ScrapeDueMonotone | prices.go:22 | a due scrape stays due as time passes; within 24 hours of the last scrape none is due, failed or not |
| Prices.PriceDb.constructor | prices.go:21 | an empty catalog and no stats |
| Prices.PriceDb.ScrapePrices | prices.go:40-82 | the catalog is replaced only when every page succeeds; an error is returned, and a panic propagates, with the catalog untouched |
| Prices.PriceDb.Tick | prices.go:18-38 | a scrape runs exactly when due; it ends Done or Failed exactly as the scrape of the index succeeds or fails, Failed carrying the scrape's error; after Done the catalog holds the lowest price per card of that scrape; the finish time and the error are recorded, unless it panics |
| Filter.PriceFilter | renderer.go:191-196 | no filter for an empty or non-integer value; otherwise that many dollars |
| Filter.MoneyString | database.go:322-324 | "$", the dollars, "." and two digits of cents |
| Filter.PassingDecks | renderer.go:198-216 | never more listings than decks, all of that user |
| Filter.PassingDecksMembers | renderer.go:200-216 | a listing passes exactly when one of the user's decks passes with that name and limit |
| Filter.MatchesAny | renderer.go:207-213 | the loop stops at the first term that occurs, and it finds one exactly when some normalised term occurs in the haystack |
| Filter.EmptySearchMatchesAll | renderer.go:178 | an empty search splits to one empty term, which every haystack matches |
| Filter.InsertIndex | renderer.go:221-224 | every listing before the index sorts before the new name, and the one at the index does not |
| Filter.Inserted | renderer.go:225-227 | the list grows by exactly one |
| Filter.InsertedPermutes | renderer.go:220-227 | insertion adds the new listing and keeps every other one |
| Filter.InsertedSorted | renderer.go:220-227 | insertion into a sorted list keeps it sorted |
| Filter.InsertAll | renderer.go:198-228 | as many listings as inserted |
| Filter.InsertAllSorted | renderer.go:198-228 | the list of all decks is sorted by name |
| Filter.InsertAllPermutes | renderer.go:198-228 | the list of all decks holds exactly the inserted listings |
| Filter.SortedInsert | renderer.go:220-227 | the insertion loop inserts at the first listing whose name does not sort before the new one |
| Filter.NumPages | renderer.go:231 | the smallest number of 25-deck pages that holds all decks |
| Filter.DecksFrom | renderer.go:239-247 | nothing exactly for a start outside the list; otherwise the slice from the start, 25 long or reaching the end |
| Filter.CurrentDecksNonEmpty | renderer.go:238-247 | a page shows decks exactly when it is one of the pages |
| Filter.PageOfDeck | renderer.go:238-247 | deck k is shown on page k/25 at place k%25, so the pages neither lose nor repeat a deck |
| Strings.WrapInt64 | renderer.go:238 | within int64 and congruent modulo 2^64; values within int64 are unchanged |
| Strings.WrapUnique | renderer.go:238 | the wrapped value is the only int64 value congruent to the input modulo 2^64 |
| Strings.WrapAdd | database.go:354-356 | adding in 64 bits step by step gives the wrapped plain sum |
| Filter.CurrentDecksWraps | renderer.go:233-240 | a page number Atoi accepts, far past the last page, wraps to start index 9 as written and shows the tenth of ten decks |
| Filter.FilterResults | renderer.go:172-249 | all decks sorted by name and a permutation of the passing decks; the page count, the page asked for and its decks |
| Filter.GetFilterResults | renderer.go:172-249 | the nested loops and the pagination compute the filter results |
| Filter.InsertUserDecks | renderer.go:199-228 | one user's loop inserts that user's passing decks after those inserted before |
| Filter.DeckPasses | renderer.go:200-216 | the price test and the search test pass exactly when the deck passes |
| Filter.CutPage | renderer.go:231-247 | the page count, the page asked for and the decks on it |
| Filter.RangeText | renderer.go:293 | starts with "[" and the first number |
| Filter.RenderFilterPageLinks | renderer.go:288-300 | "[no results]" exactly past the last page; a previous link exactly for pages 1 to last; a next link exactly before the last |
| Filter.RenderFilterPageIndexes | renderer.go:295-298 | the previous and next links read back as the page numbers one below and one above |
| Filter.RangeBounds | renderer.go:292-293 | the first and last position of the range text are 64-bit values: the start index page * 25 and the bounds after it wrap around |
| Filter.RenderFilterPageRange | renderer.go:291-293 | for a page of the results, the range text gives the positions, counting from 1, of the first and last deck shown, and those decks are exactly that stretch of the sorted list |
| Filter.RenderFilterPageWraps | renderer.go:292-293 | the page "-368934881474191034", which Atoi accepts, wraps the start index to 9223372036854775766, so the range text reads "[9223372036854775767-9223372036854775766 out of n]" |
| Handlers.LookupDeck | renderer.go:586-600 | the deck name must be given and must name a deck; otherwise the matching error and no deck |
| Handlers.SaveSnapshot | renderer.go:670-698 | succeeds exactly for a named existing deck; appends the dated staging area, which leaves the deck saved, and changes no other deck; "Deck name not included" for an empty name and "Deck '<name>' doesn't exist!" for an unknown deck |
| Handlers.SavedSnapshotIdentical | renderer.go:687-689 | the saved copy has the staging area's cards and total |
| Handlers.RevertChanges | renderer.go:700-730 | "Deck has no snapshots!" for an empty history; otherwise the staging area becomes the newest snapshot, the deck is saved and the history is kept; "Deck name not included" for an empty name and "Deck '<name>' doesn't exist!" for an unknown deck |
| Handlers.RestoreNewest | renderer.go:721 | the staging area becomes the newest snapshot and the deck is saved |
| Handlers.ClearHistory | renderer.go:732-757 | the history is emptied and the staging area kept, so the deck is neither saved nor legal; "Deck name not included" for an empty name and "Deck '<name>' doesn't exist!" for an unknown deck |
| Handlers.UpdateDecklist | renderer.go:620-668 | the staging area is rebuilt from the form and priced; the history, name and limit are kept and other decks unchanged; "Deck name not included" for an empty name and "Deck '<name>' doesn't exist!" for an unknown deck |
| Handlers.StageDecklist | renderer.go:641-654 | the deck's staging area becomes the priced form contents |
| Handlers.RebuildStaging | renderer.go:641-654 | the form read into the staging area, then priced against the catalog |
| Handlers.ReadForm | renderer.go:641-651 | a commander only for a non-empty field, trimmed and free; both lists parsed; grandfathered exactly when the box is ticked |
| Handlers.UpdatedCounts | renderer.go:641-651 | the new decklist count is the parsed lines' count plus one for a commander; the sideboard count is its parsed count |
| Handlers.DecklistFormRoundTrip | renderer.go:649 | sending the decklist form back unchanged keeps the decklist |
| Handlers.Without | renderer.go:602-607 | never longer than the list |
| Handlers.WithoutMembers | renderer.go:602-607 | exactly the decks other than the one removed remain |
| Handlers.WithoutOne | renderer.go:602-609 | with each deck listed once, the others remain in their order |
| Handlers.WithoutNone | renderer.go:602-607 | removing a deck that is not listed changes nothing |
| Handlers.DistinctWithout | renderer.go:602-609 | removing a deck keeps the names distinct |
| Handlers.RemoveDeck | renderer.go:602-607 | the loop keeps every deck but the one found, in order |
| Handlers.RemoveFrom | renderer.go:602-609 | the user's decks become the others, in order, and stay valid |
| Handlers.DeleteDeck | renderer.go:585-618 | succeeds exactly for a named existing deck and removes exactly that deck, keeping the others in order; "Deck name not included" for an empty name and "Deck '<name>' doesn't exist!" for an unknown deck |
| Handlers.PriceLimitOf | renderer.go:520-523 | a limit exactly when the price is an integer; that many dollars |
| Handlers.AddDeck | renderer.go:512-544 | each error in the code's order; otherwise a new empty deck at the end, found under its name, others unchanged |
| Handlers.AppendDeck | renderer.go:535-536 | a new empty deck appended and found under its name |
| Handlers.DistinctAppend | renderer.go:530-536 | a new deck whose name no deck normalises to keeps the names distinct |
| Handlers.FoundAppended | renderer.go:530-536 | the appended deck is the one found under its name |
| Handlers.RenameKeepsDistinct | renderer.go:570-572 | after the conflict test, no other deck has the new name |
| Handlers.ModifyDeck | renderer.go:546-583 | errors for missing fields, a bad price, an unknown deck, or "Deck '<new name>' already exists!" for a name taken by another deck; otherwise only the name and limit change |
| Handlers.Rename | renderer.go:574-575 | the deck gets the new name and limit and keeps its staging area, history and date |

## Left out

- HTTP routing, sessions, cookies, passwords, templates and redirects are not modelled. They are I/O and foreign libraries.
- The logged-in user lookup (`findLoggedInUser`) and writing the user back (`UpdateUser`) are not modelled. A handler takes the user as a parameter, and the write-back cannot fail in the model.
- The "user" form value of the filter page is not modelled, because it reads users from MongoDB. `Filter.FilterResults` takes the users to search as a parameter.
- MongoDB access is replaced by the catalog map and the `PriceDb` fields. This covers `NameAndPrice`, `UpdateAllPrices`, the scraper statistics and the user collection.
- Fetching HTML and walking it with goquery are parameters. The fetch is a function from URL to cells or an error. The index page is given as its anchors' hrefs. A cell is its colour, its link and its text.
- Floating point is not modelled. Money is integer cents.
  - `strconv.ParseFloat` is a parameter `parsePrice`. Its failure is the panic of prices.go:137, and a panicking scrape leaves catalog and stats untouched.
  - Filter.MoneyString: formats cents, not the float `%.2f` of database.go:323. Its contract gives the shape, not the digits.
- Clocks are parameters. `time.Now` is a number of nanoseconds. `time.Tick` and `time.Sleep` and the goroutine are left out; `Prices.PriceDb.Tick` is one iteration of the loop.
- Dates are not formatted (`PrettyDate`, `PrettyCreationDate`).
- Character classes are ASCII only. Go's `unicode` predicates also accept letters and digits of other scripts.
- The order of `User.AllDecks` is not modelled. `decks.Less` compares a deck with itself (database.go:452-454), so the sort imposes no order. The model visits a user's decks in stored order, and the search result is sorted by insertion anyway.
- Sharing between snapshots is not modelled, because snapshots are values. `Snapshots.Clone` returns an equal value. What it prevents in Go, later edits reaching the history through shared entries, cannot happen in the model.
- `NoMoney` (renderer.go:191) is defined outside the modelled files. The price filter is an `Option` instead.
- `QueryWithoutPage` of renderFilterPage is left out. It depends on Go's map iteration order.
- The snapshot page (renderer.go:372-385) is left out. It accepts a negative snapshot index, since renderer.go:380 only rejects indexes past the end, and then indexes out of range.
- Strings.Split: its own contract only guarantees one part. What the parts are is stated by `Strings.SplitAt`, `Strings.JoinSplit` and `Strings.SplitJoin`.
- Prices.CellName: its own contract is weaker than the code. The exact name is stated by `Prices.CellNameOf` for links whose first "cn=" is followed by the name and an "&".
- Prices.CleanPrice: its own contract is weaker than the code. The exact result is stated by `Prices.CleanPriceOf` for the usual price text.
- Filter.RangeText: states only its first characters. The full "[%d-%d out of %d]" text is its definition.

## Findings

| source | as written | input that shows it | evidently intended | confidence | as-written member | corrected member |
|---|---|---|---|---|---|---|
| database.go:225-241 | `IsSnapshotLegal` reads `s.Commander` before it tests `s != nil`, and `IsLegal` passes the nil result of `CurrentPriceSnapshot` | a deck with no snapshots: `IsLegal` dereferences nil | a deck with no snapshots is not legal (the test at line 240) | not executed | Decks.IsLegalAsWrittenFailsOnEmptyHistory | Decks.Deck.IsLegal |
| renderer.go:237-238 | the start index `CurrentPage * 25` is computed in 64-bit arithmetic and can wrap around | page "737869762948382065" with ten decks: the start index wraps to 9, so the tenth deck is shown while the page says "[no results]" | a page past the last one shows no decks | not executed | Filter.CurrentDecksWraps | Filter.CurrentDecksNonEmpty |
