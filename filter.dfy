/** The deck search of the filter page (renderer.go, getFilterResults and
    renderFilterPage): which decks pass the price filter and the search
    terms, their order by deck name, and how the sorted list is cut into
    pages of 25. Users and decks enter as the names and price limits the
    search reads. */
module Filter {
  import opened Strings
  import opened Normalize
  import opened Snapshots

  // ---------------------------------------------------------------------------
  // Listings and the search

  /** A deck as the search sees it: its owner's name, its name and its price limit. */
  datatype Listing = Listing(userName: string, deckName: string, priceLimit: Money)

  /** A deck of a user: its name and its price limit. */
  datatype DeckRow = DeckRow(name: string, priceLimit: Money)

  /** A user and the decks User.AllDecks lists, in that order. */
  datatype UserRow = UserRow(name: string, decks: seq<DeckRow>)

  /** The price filter of the "price" form value: none when the value is
      empty or is not an integer; otherwise that many dollars, in cents. */
  function PriceFilter(price: string): (r: Option<Money>)
    ensures price == [] ==> r.None?
    ensures r.Some? <==> Atoi(price).Some?
    ensures r.Some? ==> r.value == Atoi(price).value * 100
  {
    if price == [] then None
    else match Atoi(price)
      case None => None
      case Some(dollars) => Some(dollars * 100)
  }

  /** Money.String, "$%.2f": a dollar sign, the sign, the whole dollars and
      two digits of cents. */
  function MoneyString(m: Money): (s: string)
    ensures |s| >= 5 && s[0] == '$' && s[|s| - 3] == '.'
  {
    var a := if m < 0 then -m else m;
    "$" + (if m < 0 then "-" else "") + NatToString(a / 100) + "." + [Digit(a % 100 / 10), Digit(a % 10)]
  }

  /** The text searched for a deck: "user-deck-price", normalised. */
  function Haystack(userName: string, d: DeckRow): string
  {
    Normalized(userName + "-" + d.name + "-" + MoneyString(d.priceLimit))
  }

  /** A haystack matches when one of the normalised terms occurs in it. */
  predicate MatchesSearch(haystack: string, terms: seq<string>)
  {
    exists k :: 0 <= k < |terms| && Index(haystack, Normalized(terms[k])) >= 0
  }

  /** A deck passes when there is no price filter or its limit is the
      filter's, and its haystack matches the search. */
  predicate Passes(filter: Option<Money>, terms: seq<string>, userName: string, d: DeckRow)
  {
    (filter.None? || d.priceLimit == filter.value) && MatchesSearch(Haystack(userName, d), terms)
  }

  /** The listings of a user's decks that pass, in order. */
  function PassingDecks(userName: string, decks: seq<DeckRow>, filter: Option<Money>, terms: seq<string>): (r: seq<Listing>)
    ensures |r| <= |decks|
    ensures forall k :: 0 <= k < |r| ==> r[k].userName == userName
  {
    if decks == [] then []
    else
      var d := decks[|decks| - 1];
      PassingDecks(userName, decks[..|decks| - 1], filter, terms)
        + if Passes(filter, terms, userName, d) then [Listing(userName, d.name, d.priceLimit)] else []
  }

  /** The listings that pass, user by user, in the order they are visited. */
  function Passing(users: seq<UserRow>, filter: Option<Money>, terms: seq<string>): seq<Listing>
  {
    if users == [] then []
    else
      var u := users[|users| - 1];
      Passing(users[..|users| - 1], filter, terms) + PassingDecks(u.name, u.decks, filter, terms)
  }

  /** A listing is among the passing ones exactly when one of the user's
      decks passes with that name and limit. */
  lemma {:induction false} PassingDecksMembers(userName: string, decks: seq<DeckRow>, filter: Option<Money>, terms: seq<string>, x: Listing)
    ensures x in PassingDecks(userName, decks, filter, terms) <==>
      x.userName == userName && DeckRow(x.deckName, x.priceLimit) in decks && Passes(filter, terms, userName, DeckRow(x.deckName, x.priceLimit))
  {
    if decks != [] {
      var init, d := decks[..|decks| - 1], decks[|decks| - 1];
      assert decks == init + [d];
      PassingDecksMembers(userName, init, filter, terms, x);
    }
  }

  /** The normalised terms MatchesSearch tries, one by one, stopping at the
      first that occurs. */
  method MatchesAny(haystack: string, terms: seq<string>) returns (matches: bool)
    ensures matches <==> MatchesSearch(haystack, terms)
  {
    matches := false;
    for k := 0 to |terms|
      invariant forall j :: 0 <= j < k ==> Index(haystack, Normalized(terms[j])) < 0
    {
      var term := NormalizeString(terms[k]);
      if Index(haystack, term) >= 0 {
        return true;
      }
    }
  }

  /** An empty search splits into one empty term, which occurs in every
      haystack: with no search text every deck within the price filter passes. */
  lemma EmptySearchMatchesAll(haystack: string)
    ensures MatchesSearch(haystack, Split("", " "))
  {
    var terms := Split("", " ");
    assert terms == [""];
    assert Normalized(terms[0]) == "";
    assert OccursAt(haystack, "", 0);
    IndexAtLeastMinusOne(haystack, "");
    assert Index(haystack, Normalized(terms[0])) >= 0;
  }

  // ---------------------------------------------------------------------------
  // Sorted insertion

  /** Ordered by deck name: no listing's name comes before an earlier one's. */
  predicate Sorted(ls: seq<Listing>)
  {
    forall i, j :: 0 <= i < j < |ls| ==> !Before(ls[j].deckName, ls[i].deckName)
  }

  /** Where the insertion loop stops: the first listing whose name does not
      come before the new name. */
  function InsertIndex(all: seq<Listing>, name: string): (k: nat)
    ensures k <= |all|
    ensures forall i :: 0 <= i < k ==> Before(all[i].deckName, name)
    ensures k < |all| ==> !Before(all[k].deckName, name)
  {
    if all == [] || !Before(all[0].deckName, name) then 0
    else 1 + InsertIndex(all[1..], name)
  }

  /** The list with x inserted at its insertion index. */
  function Inserted(all: seq<Listing>, x: Listing): (r: seq<Listing>)
    ensures |r| == |all| + 1
  {
    var k := InsertIndex(all, x.deckName);
    all[..k] + [x] + all[k..]
  }

  /** Inserting adds x and keeps every other listing. */
  lemma InsertedPermutes(all: seq<Listing>, x: Listing)
    ensures multiset(Inserted(all, x)) == multiset(all) + multiset{x}
  {
    var k := InsertIndex(all, x.deckName);
    assert all == all[..k] + all[k..];
  }

  /** Inserting into a sorted list keeps it sorted. */
  lemma InsertedSorted(all: seq<Listing>, x: Listing)
    requires Sorted(all)
    ensures Sorted(Inserted(all, x))
  {
    var k := InsertIndex(all, x.deckName);
    var r := Inserted(all, x);
    assert forall i :: 0 <= i < k ==> r[i] == all[i];
    assert r[k] == x;
    assert forall i :: k < i < |r| ==> r[i] == all[i - 1];
    forall m | k < m < |all|
      ensures !Before(all[m].deckName, x.deckName)
    {
      NotBeforeChain(all[m].deckName, all[k].deckName, x.deckName);
    }
    forall i | 0 <= i < k
      ensures !Before(x.deckName, all[i].deckName)
    {
      if Before(x.deckName, all[i].deckName) {
        BeforeAsymmetric(all[i].deckName, x.deckName);
      }
    }
    forall i, j | 0 <= i < j < |r|
      ensures !Before(r[j].deckName, r[i].deckName)
    {
      if i == k {
        assert r[j] == all[j - 1];
      } else if j == k {
        assert r[i] == all[i];
      }
    }
  }

  /** If a is not before b and b is not before c, a is not before c. */
  lemma NotBeforeChain(a: string, b: string, c: string)
    requires !Before(a, b) && !Before(b, c)
    ensures !Before(a, c)
  {
    if Before(a, c) {
      if a == b {
      } else {
        BeforeTotal(a, b);
        BeforeTransitive(b, a, c);
      }
    }
  }

  /** result.AllDecks: the passing listings inserted one by one. */
  function InsertAll(xs: seq<Listing>): (r: seq<Listing>)
    ensures |r| == |xs|
  {
    if xs == [] then [] else Inserted(InsertAll(xs[..|xs| - 1]), xs[|xs| - 1])
  }

  /** The list of all decks is sorted by name and holds exactly the passing
      listings. */
  lemma {:induction false} InsertAllSorted(xs: seq<Listing>)
    ensures Sorted(InsertAll(xs))
  {
    if xs != [] {
      InsertAllSorted(xs[..|xs| - 1]);
      InsertedSorted(InsertAll(xs[..|xs| - 1]), xs[|xs| - 1]);
    }
  }

  lemma {:induction false} InsertAllPermutes(xs: seq<Listing>)
    ensures multiset(InsertAll(xs)) == multiset(xs)
  {
    if xs != [] {
      var init, last := xs[..|xs| - 1], xs[|xs| - 1];
      assert xs == init + [last];
      InsertAllPermutes(init);
      calc {
        multiset(InsertAll(xs));
        multiset(Inserted(InsertAll(init), last));
        { InsertedPermutes(InsertAll(init), last); }
        multiset(InsertAll(init)) + multiset{last};
        multiset(init + [last]);
      }
    }
  }

  /** The insertion loop of getFilterResults. */
  method SortedInsert(all: seq<Listing>, x: Listing) returns (r: seq<Listing>)
    ensures r == Inserted(all, x)
  {
    var insertIdx := 0;
    while insertIdx < |all| && Before(all[insertIdx].deckName, x.deckName)
      invariant insertIdx <= InsertIndex(all, x.deckName)
    {
      insertIdx := insertIdx + 1;
    }
    r := all[..insertIdx] + [x] + all[insertIdx..];
  }

  // ---------------------------------------------------------------------------
  // Pages

  const FilterResultsPerPage: int := 25

  /** The number of pages: the number of decks divided by 25, rounded up. */
  function NumPages(n: nat): (p: nat)
    ensures p * FilterResultsPerPage >= n
    ensures p > 0 ==> (p - 1) * FilterResultsPerPage < n
  {
    (n + (FilterResultsPerPage - 1)) / FilterResultsPerPage
  }

  /** The page asked for: the "page" form value when it is an integer, else 0. */
  function CurrentPage(page: string): int
  {
    match Atoi(page)
    case Some(p) => p
    case None => 0
  }

  /** The decks shown from a start index: none when it lies outside the
      list, else up to 25 from there. */
  function DecksFrom(all: seq<Listing>, start: int): (r: seq<Listing>)
    ensures (start < 0 || start >= |all|) <==> r == []
    ensures r != [] ==> 0 <= start && start + |r| <= |all|
    ensures r != [] ==> |r| <= FilterResultsPerPage && r == all[start..start + |r|]
    ensures r != [] ==> (|r| == FilterResultsPerPage || start + |r| == |all|)
  {
    if start < 0 || start >= |all| then []
    else
      var end := if start + FilterResultsPerPage >= |all| then |all| else start + FilterResultsPerPage;
      all[start..end]
  }

  /** result.CurrentDecks, with the start index computed without overflow. */
  function CurrentDecks(all: seq<Listing>, page: int): (r: seq<Listing>)
  {
    DecksFrom(all, page * FilterResultsPerPage)
  }

  /** A page shows decks exactly when it is one of the NumPages pages. */
  lemma CurrentDecksNonEmpty(all: seq<Listing>, page: int)
    ensures CurrentDecks(all, page) != [] <==> 0 <= page < NumPages(|all|)
  {
  }

  /** Deck k of the sorted list is shown on page k / 25, in place k % 25: the
      pages cut the list without losing or repeating a deck. */
  lemma PageOfDeck(all: seq<Listing>, k: nat)
    requires k < |all|
    ensures |CurrentDecks(all, k / FilterResultsPerPage)| > k % FilterResultsPerPage
    ensures CurrentDecks(all, k / FilterResultsPerPage)[k % FilterResultsPerPage] == all[k]
  {
    var p := k / FilterResultsPerPage;
    assert p * FilterResultsPerPage + k % FilterResultsPerPage == k;
  }

  /** result.CurrentDecks as written: the start index CurrentPage * 25 is
      computed in 64-bit arithmetic and wraps around for very large pages. */
  function CurrentDecksAsWritten(all: seq<Listing>, page: int): seq<Listing>
  {
    DecksFrom(all, WrapInt64(page * FilterResultsPerPage))
  }

  /** A page number that Atoi accepts but whose start index wraps to 9: with
      ten decks it shows the tenth deck, although it lies far beyond the last
      page and the page says "[no results]". */
  lemma CurrentDecksWraps(all: seq<Listing>)
    requires |all| == 10
    ensures Atoi(IntToString(737869762948382065)) == Some(737869762948382065)
    ensures 737869762948382065 >= NumPages(|all|)
    ensures CurrentDecksAsWritten(all, 737869762948382065) == all[9..10]
    ensures CurrentDecks(all, 737869762948382065) == []
  {
    AtoiIntToString(737869762948382065);
    assert 737869762948382065 * FilterResultsPerPage == 0x1_0000_0000_0000_0000 + 9;
    assert WrapInt64(0x1_0000_0000_0000_0000 + 9) == 9;
    assert DecksFrom(all, 9) == all[9..10];
  }

  // ---------------------------------------------------------------------------
  // The filter results

  /** What getFilterResults computes. */
  datatype FilterResult = FilterResult(allDecks: seq<Listing>, currentDecks: seq<Listing>, currentPage: int, numPages: nat)

  /** getFilterResults over the users read from the database, with the form
      values "search", "price" and "page". */
  function FilterResults(users: seq<UserRow>, search: string, price: string, page: string): (r: FilterResult)
    ensures Sorted(r.allDecks)
    ensures multiset(r.allDecks) == multiset(Passing(users, PriceFilter(price), Split(search, " ")))
    ensures r.numPages == NumPages(|r.allDecks|) && r.currentPage == CurrentPage(page)
    ensures r.currentDecks == CurrentDecks(r.allDecks, r.currentPage)
  {
    var all := InsertAll(Passing(users, PriceFilter(price), Split(search, " ")));
    InsertAllSorted(Passing(users, PriceFilter(price), Split(search, " ")));
    InsertAllPermutes(Passing(users, PriceFilter(price), Split(search, " ")));
    FilterResult(all, CurrentDecks(all, CurrentPage(page)), CurrentPage(page), NumPages(|all|))
  }

  /** getFilterResults: users and their decks visited in order, each passing
      deck inserted into the sorted list, then the page cut out. */
  method GetFilterResults(users: seq<UserRow>, search: string, price: string, page: string) returns (r: FilterResult)
    ensures r == FilterResults(users, search, price, page)
  {
    var terms := Split(search, " ");
    var filter := PriceFilter(price);
    var all: seq<Listing> := [];
    for i := 0 to |users|
      invariant all == InsertAll(Passing(users[..i], filter, terms))
    {
      assert users[..i + 1][..i] == users[..i];
      all := InsertUserDecks(all, Passing(users[..i], filter, terms), users[i], filter, terms);
    }
    assert users[..|users|] == users;
    var current, currentPage, numPages := CutPage(all, page);
    r := FilterResult(all, current, currentPage, numPages);
  }

  /** The loop over one user's decks: each passing deck inserted in turn. */
  method InsertUserDecks(all: seq<Listing>, ghost before: seq<Listing>, u: UserRow, filter: Option<Money>, terms: seq<string>)
    returns (r: seq<Listing>)
    requires all == InsertAll(before)
    ensures r == InsertAll(before + PassingDecks(u.name, u.decks, filter, terms))
  {
    r := all;
    assert before + PassingDecks(u.name, u.decks[..0], filter, terms) == before;
    for j := 0 to |u.decks|
      invariant r == InsertAll(before + PassingDecks(u.name, u.decks[..j], filter, terms))
    {
      var d := u.decks[j];
      var passes := DeckPasses(filter, terms, u.name, d);
      if passes {
        InsertPassing(before, u, j, filter, terms);
        r := SortedInsert(r, Listing(u.name, d.name, d.priceLimit));
      } else {
        PassingDecksSkip(u, j, filter, terms);
      }
    }
    assert u.decks[..|u.decks|] == u.decks;
  }

  /** A passing deck's listing is inserted into the listings so far. */
  lemma InsertPassing(before: seq<Listing>, u: UserRow, j: nat, filter: Option<Money>, terms: seq<string>)
    requires j < |u.decks| && Passes(filter, terms, u.name, u.decks[j])
    ensures InsertAll(before + PassingDecks(u.name, u.decks[..j + 1], filter, terms))
         == Inserted(InsertAll(before + PassingDecks(u.name, u.decks[..j], filter, terms)),
                     Listing(u.name, u.decks[j].name, u.decks[j].priceLimit))
  {
    var done := PassingDecks(u.name, u.decks[..j], filter, terms);
    var x := Listing(u.name, u.decks[j].name, u.decks[j].priceLimit);
    PassingDecksKeep(u, j, filter, terms);
    AppendAssoc(before, done, [x]);
    InsertAllSnoc(before + done, x);
  }

  /** A passing deck adds its listing to those of the decks before it. */
  lemma PassingDecksKeep(u: UserRow, j: nat, filter: Option<Money>, terms: seq<string>)
    requires j < |u.decks| && Passes(filter, terms, u.name, u.decks[j])
    ensures PassingDecks(u.name, u.decks[..j + 1], filter, terms)
         == PassingDecks(u.name, u.decks[..j], filter, terms) + [Listing(u.name, u.decks[j].name, u.decks[j].priceLimit)]
  {
    SliceSnoc(u.decks, j);
  }

  /** A deck that does not pass adds nothing. */
  lemma PassingDecksSkip(u: UserRow, j: nat, filter: Option<Money>, terms: seq<string>)
    requires j < |u.decks| && !Passes(filter, terms, u.name, u.decks[j])
    ensures PassingDecks(u.name, u.decks[..j + 1], filter, terms) == PassingDecks(u.name, u.decks[..j], filter, terms)
  {
    SliceSnoc(u.decks, j);
  }

  lemma InsertAllSnoc(xs: seq<Listing>, x: Listing)
    ensures InsertAll(xs + [x]) == Inserted(InsertAll(xs), x)
  {
    assert (xs + [x])[..|xs|] == xs;
  }

  /** The two exclusion tests of the loop body: the price filter first, then
      the search terms against the normalised haystack. */
  method DeckPasses(filter: Option<Money>, terms: seq<string>, userName: string, d: DeckRow) returns (passes: bool)
    ensures passes <==> Passes(filter, terms, userName, d)
  {
    if filter.Some? && d.priceLimit != filter.value {
      return false;
    }
    var haystack := NormalizeString(userName + "-" + d.name + "-" + MoneyString(d.priceLimit));
    passes := MatchesAny(haystack, terms);
  }

  /** The pagination of getFilterResults. */
  method CutPage(all: seq<Listing>, page: string) returns (current: seq<Listing>, currentPage: int, numPages: nat)
    ensures numPages == NumPages(|all|) && currentPage == CurrentPage(page)
    ensures current == CurrentDecks(all, currentPage)
  {
    numPages := (|all| + (FilterResultsPerPage - 1)) / FilterResultsPerPage;
    currentPage := 0;
    var p := Atoi(page);
    if p.Some? {
      currentPage := p.value;
    }
    var startIdx := currentPage * FilterResultsPerPage;
    if startIdx < 0 || startIdx >= |all| {
      current := [];
    } else {
      var endIdx := startIdx + FilterResultsPerPage;
      if endIdx >= |all| {
        endIdx := |all|;
      }
      current := all[startIdx..endIdx];
    }
  }

  // ---------------------------------------------------------------------------
  // The filter page

  /** The page-range text and the links of renderFilterPage; an index that
      is not set is the empty string. */
  datatype PageView = PageView(deckRange: string, prevPageIndex: string, nextPageIndex: string)

  /** The page-range text, "[%d-%d out of %d]". */
  function RangeText(first: int, last: int, total: int): (t: string)
    ensures |t| >= 2 && t[0] == '[' && t[1] == IntToString(first)[0]
  {
    IntToStringStart(first);
    "[" + IntToString(first) + "-" + IntToString(last) + " out of " + IntToString(total) + "]"
  }

  /** The first and last position in the range text: the start index
      page * 25 and the bounds after it are computed in 64-bit arithmetic,
      so they wrap around for very large or very negative pages. */
  function RangeBounds(page: int, shown: nat): (b: (int, int))
    ensures MinInt <= b.0 <= MaxInt && MinInt <= b.1 <= MaxInt
  {
    var start := WrapInt64(page * FilterResultsPerPage);
    (WrapInt64(start + 1), WrapInt64(start + shown))
  }

  /** renderFilterPage. The previous and next page numbers cannot wrap: the
      guards keep them within the page number's own range. */
  function RenderFilterPage(r: FilterResult): (v: PageView)
  {
    if r.currentPage >= r.numPages then PageView("[no results]", "", "")
    else
      var b := RangeBounds(r.currentPage, |r.currentDecks|);
      PageView(
        RangeText(b.0, b.1, |r.allDecks|),
        PrevPageIndex(r.currentPage),
        NextPageIndex(r.currentPage, r.numPages))
  }

  /** The previous-page link of a page that has results. */
  function PrevPageIndex(page: int): string
  {
    if page >= 1 then IntToString(page - 1) else ""
  }

  /** The next-page link of a page that has results. */
  function NextPageIndex(page: int, numPages: nat): string
  {
    if page < numPages - 1 then IntToString(page + 1) else ""
  }

  /** "[no results]" is shown exactly when the page is past the last one; the
      previous link exists exactly for a page from 1 up to the last, and
      the next link exactly for a page before the last. */
  lemma RenderFilterPageLinks(r: FilterResult)
    ensures RenderFilterPage(r).deckRange == "[no results]" <==> r.currentPage >= r.numPages
    ensures RenderFilterPage(r).prevPageIndex != "" <==> 1 <= r.currentPage < r.numPages
    ensures RenderFilterPage(r).nextPageIndex != "" <==> r.currentPage < r.numPages - 1
  {
    if r.currentPage < r.numPages {
      IntToStringStart(RangeBounds(r.currentPage, |r.currentDecks|).0);
      assert "[no results]"[1] == 'n';
      IntToStringStart(r.currentPage - 1);
      IntToStringStart(r.currentPage + 1);
    }
  }

  /** The previous and next links hold the page numbers, as the "page" form
      value reads them back. */
  lemma RenderFilterPageIndexes(r: FilterResult)
    requires MinInt < r.currentPage < MaxInt
    ensures RenderFilterPage(r).prevPageIndex != "" ==> CurrentPage(RenderFilterPage(r).prevPageIndex) == r.currentPage - 1
    ensures RenderFilterPage(r).nextPageIndex != "" ==> CurrentPage(RenderFilterPage(r).nextPageIndex) == r.currentPage + 1
  {
    if r.currentPage < r.numPages {
      assert RenderFilterPage(r).prevPageIndex == PrevPageIndex(r.currentPage);
      assert RenderFilterPage(r).nextPageIndex == NextPageIndex(r.currentPage, r.numPages);
      if r.currentPage >= 1 {
        AtoiIntToString(r.currentPage - 1);
      }
      if r.currentPage < r.numPages - 1 {
        AtoiIntToString(r.currentPage + 1);
      }
    }
  }

  /** For a page of the results, the range text gives the first and last
      position (counting from 1) of the decks shown, which are exactly that
      stretch of the sorted list. */
  lemma RenderFilterPageRange(r: FilterResult)
    requires r.numPages == NumPages(|r.allDecks|) && r.currentDecks == CurrentDecks(r.allDecks, r.currentPage)
    requires 0 <= r.currentPage < r.numPages && |r.allDecks| <= MaxInt
    ensures var s := r.currentPage * FilterResultsPerPage;
      && RenderFilterPage(r).deckRange == RangeText(s + 1, s + |r.currentDecks|, |r.allDecks|)
      && 1 <= s + 1 <= s + |r.currentDecks| <= |r.allDecks|
      && r.currentDecks == r.allDecks[s..s + |r.currentDecks|]
  {
    var s := r.currentPage * FilterResultsPerPage;
    CurrentDecksNonEmpty(r.allDecks, r.currentPage);
    assert 0 <= s < |r.allDecks|;
    assert WrapInt64(s) == s;
    assert RangeBounds(r.currentPage, |r.currentDecks|) == (s + 1, s + |r.currentDecks|);
  }

  /** A page number that Atoi accepts, far below zero, whose start index
      wraps around to 9223372036854775766: the range text then reads
      "[9223372036854775767-9223372036854775766 out of n]". */
  lemma RenderFilterPageWraps(r: FilterResult)
    requires r.currentPage == -368934881474191034 && r.currentDecks == []
    ensures Atoi(IntToString(-368934881474191034)) == Some(-368934881474191034)
    ensures RenderFilterPage(r).deckRange == RangeText(MaxInt - 40, MaxInt - 41, |r.allDecks|)
  {
    AtoiIntToString(-368934881474191034);
    assert r.currentPage * FilterResultsPerPage == MinInt - 42;
    WrapBelow(MinInt - 42);
    assert RangeBounds(r.currentPage, 0) == (MaxInt - 40, MaxInt - 41);
  }

  /** A number's text is never empty and starts with a digit or '-'. */
  lemma IntToStringStart(n: int)
    ensures IntToString(n) != [] && (IsDigit(IntToString(n)[0]) || IntToString(n)[0] == '-')
  {
  }
}
