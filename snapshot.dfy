/** Card entries and snapshots (database.go:39-59 and 334-417): totals,
    counts, the text dumps that decide whether two snapshots hold the same
    cards, and the deep copy taken when a snapshot is saved.

    Money is kept in integer cents; the source keeps float64 dollars. */
module Snapshots {
  import opened Strings

  type Money = int

  const Free: Money := 0

  datatype CardEntry = CardEntry(name: string, count: int, pricePer: Money, notFound: bool)

  datatype CommanderEntry = CommanderEntry(name: string, price: Money, isPresent: bool, notFound: bool)

  /** A snapshot's date is a point in time in nanoseconds. */
  datatype Snapshot = Snapshot(
    date: int,
    decklist: seq<CardEntry>,
    sideboard: seq<CardEntry>,
    commander: CommanderEntry,
    isGrandfatherLegal: bool)

  /** The zero value Go gives a new deck's staging area. */
  const EmptySnapshot: Snapshot := Snapshot(0, [], [], CommanderEntry("", Free, false, false), false)

  // ---------------------------------------------------------------------------
  // Totals and counts

  /** CardEntry.TotalPrice */
  function CardTotal(c: CardEntry): Money
  {
    c.pricePer * c.count
  }

  /** The sum of CardTotal over a list of entries. */
  function ListTotal(cards: seq<CardEntry>): Money
  {
    if cards == [] then 0 else ListTotal(cards[..|cards| - 1]) + CardTotal(cards[|cards| - 1])
  }

  /** The sum of the counts of a list of entries. */
  function ListCount(cards: seq<CardEntry>): int
  {
    if cards == [] then 0 else ListCount(cards[..|cards| - 1]) + cards[|cards| - 1].count
  }

  /** The price of the commander as it enters a snapshot's total. */
  function CommanderTotal(c: CommanderEntry): Money
  {
    if c.isPresent then c.price else 0
  }

  /** The value Snapshot.TotalPrice computes. */
  function Total(s: Snapshot): Money
  {
    ListTotal(s.decklist) + ListTotal(s.sideboard) + CommanderTotal(s.commander)
  }

  /** The value Snapshot.TotalDecklistCount computes. */
  function DecklistCount(s: Snapshot): int
  {
    ListCount(s.decklist) + if s.commander.isPresent then 1 else 0
  }

  /** The value Snapshot.TotalSideboardCount computes. */
  function SideboardCount(s: Snapshot): int
  {
    ListCount(s.sideboard)
  }

  method SumCards(cards: seq<CardEntry>) returns (total: Money)
    ensures total == ListTotal(cards)
  {
    total := Free;
    for i := 0 to |cards|
      invariant total == ListTotal(cards[..i])
    {
      assert cards[..i + 1][..i] == cards[..i];
      total := total + CardTotal(cards[i]);
    }
    assert cards[..|cards|] == cards;
  }

  /** Snapshot.TotalPrice: the entries of the decklist and the sideboard, then
      the commander when it is present, added up in turn. */
  method TotalPrice(s: Snapshot) returns (total: Money)
    ensures total == Total(s)
  {
    var decklist := SumCards(s.decklist);
    var sideboard := SumCards(s.sideboard);
    total := decklist + sideboard;
    if s.commander.isPresent {
      total := total + s.commander.price;
    }
  }

  /** The count loop of TotalDecklistCount and TotalSideboardCount: Go's
      `ret += c.Count` adds in 64 bits, so the sum wraps around; it is the
      plain count whenever that fits in int64. */
  method CountCards(cards: seq<CardEntry>) returns (n: int)
    ensures n == WrapInt64(ListCount(cards))
    ensures MinInt <= ListCount(cards) <= MaxInt ==> n == ListCount(cards)
  {
    n := 0;
    for i := 0 to |cards|
      invariant n == WrapInt64(ListCount(cards[..i]))
    {
      assert cards[..i + 1][..i] == cards[..i];
      WrapAdd(ListCount(cards[..i]), cards[i].count);
      n := WrapInt64(n + cards[i].count);
    }
    assert cards[..|cards|] == cards;
  }

  /** Snapshot.TotalDecklistCount: the decklist counts, plus one for a
      present commander, added in 64 bits. */
  method TotalDecklistCount(s: Snapshot) returns (n: int)
    ensures n == WrapInt64(DecklistCount(s))
    ensures MinInt <= DecklistCount(s) <= MaxInt ==> n == DecklistCount(s)
  {
    n := CountCards(s.decklist);
    if s.commander.isPresent {
      WrapAdd(ListCount(s.decklist), 1);
      n := WrapInt64(n + 1);
    }
  }

  /** Snapshot.TotalSideboardCount, added in 64 bits. */
  method TotalSideboardCount(s: Snapshot) returns (n: int)
    ensures n == WrapInt64(SideboardCount(s))
    ensures MinInt <= SideboardCount(s) <= MaxInt ==> n == SideboardCount(s)
  {
    n := CountCards(s.sideboard);
  }

  /** A decklist of MaxInt of one card and one of another, as the line
      "9223372036854775807 Island" followed by "1 Forest" parses: the count
      is MaxInt + 1, which TotalDecklistCount wraps around to MinInt. */
  lemma DecklistCountWraps(s: Snapshot)
    requires |s.decklist| == 2 && s.decklist[0].count == MaxInt && s.decklist[1].count == 1
    requires !s.commander.isPresent
    ensures DecklistCount(s) == MaxInt + 1
    ensures WrapInt64(DecklistCount(s)) == MinInt
  {
    assert s.decklist[..1][..0] == [];
    assert ListCount(s.decklist[..1]) == MaxInt;
    WrapUnique(MaxInt + 1, MinInt);
  }

  lemma {:induction false} ListTotalAppend(a: seq<CardEntry>, b: seq<CardEntry>)
    ensures ListTotal(a + b) == ListTotal(a) + ListTotal(b)
    decreases |b|
  {
    if b == [] {
      assert a + b == a;
    } else {
      var b' := b[..|b| - 1];
      assert (a + b)[..|a + b| - 1] == a + b';
      ListTotalAppend(a, b');
    }
  }

  lemma {:induction false} ListCountAppend(a: seq<CardEntry>, b: seq<CardEntry>)
    ensures ListCount(a + b) == ListCount(a) + ListCount(b)
    decreases |b|
  {
    if b == [] {
      assert a + b == a;
    } else {
      var b' := b[..|b| - 1];
      assert (a + b)[..|a + b| - 1] == a + b';
      ListCountAppend(a, b');
    }
  }

  /** The amounts a list of entries is priced by: count and price per card. */
  function Amounts(cards: seq<CardEntry>): seq<(int, Money)>
  {
    if cards == [] then [] else Amounts(cards[..|cards| - 1]) + [(cards[|cards| - 1].count, cards[|cards| - 1].pricePer)]
  }

  /** A list's total depends on the counts and unit prices alone, never on the
      names or the not-found flags. */
  lemma {:induction false} ListTotalByAmounts(a: seq<CardEntry>, b: seq<CardEntry>)
    requires Amounts(a) == Amounts(b)
    ensures ListTotal(a) == ListTotal(b)
  {
    AmountsLength(a);
    AmountsLength(b);
    if a != [] {
      var n := |a| - 1;
      assert Amounts(a)[..n] == Amounts(a[..n]) && Amounts(b)[..n] == Amounts(b[..n]);
      ListTotalByAmounts(a[..n], b[..n]);
      assert Amounts(a)[n] == (a[n].count, a[n].pricePer);
      assert Amounts(b)[n] == (b[n].count, b[n].pricePer);
    }
  }

  lemma {:induction false} AmountsLength(a: seq<CardEntry>)
    ensures |Amounts(a)| == |a|
  {
    if a != [] {
      AmountsLength(a[..|a| - 1]);
    }
  }

  /** Snapshot.TotalPrice is the decklist and sideboard totals plus the
      commander's price exactly when the commander is present; the date, the
      names, the not-found flags and the grandfather flag play no part. */
  lemma TotalByParts(s: Snapshot, t: Snapshot)
    requires Amounts(s.decklist) == Amounts(t.decklist) && Amounts(s.sideboard) == Amounts(t.sideboard)
    requires s.commander.isPresent == t.commander.isPresent && s.commander.price == t.commander.price
    ensures Total(s) == Total(t)
    ensures Total(s) == ListTotal(s.decklist + s.sideboard) + if s.commander.isPresent then s.commander.price else 0
  {
    ListTotalByAmounts(s.decklist, t.decklist);
    ListTotalByAmounts(s.sideboard, t.sideboard);
    ListTotalAppend(s.decklist, s.sideboard);
  }

  /** With no negative counts or prices the total is never negative. */
  lemma {:induction false} ListTotalNonNegative(cards: seq<CardEntry>)
    requires forall i :: 0 <= i < |cards| ==> cards[i].count >= 0 && cards[i].pricePer >= 0
    ensures ListTotal(cards) >= 0
  {
    if cards != [] {
      ListTotalNonNegative(cards[..|cards| - 1]);
    }
  }

  // ---------------------------------------------------------------------------
  // Dumps and identical cards

  /** One dump line, fmt.Sprintf("%d %s\n", c.Count, c.Name). */
  function EntryLine(c: CardEntry): string
  {
    IntToString(c.count) + " " + c.name + "\n"
  }

  /** The text DecklistDump and SideboardDump build for a list of entries. */
  function ListDump(cards: seq<CardEntry>): string
  {
    if cards == [] then [] else ListDump(cards[..|cards| - 1]) + EntryLine(cards[|cards| - 1])
  }

  /** The loop of DecklistDump and SideboardDump: one line per entry, in order,
      written to a buffer. */
  method DumpCards(cards: seq<CardEntry>) returns (text: string)
    ensures text == ListDump(cards)
  {
    text := [];
    for i := 0 to |cards|
      invariant text == ListDump(cards[..i])
    {
      assert cards[..i + 1][..i] == cards[..i];
      var line := EntryLine(cards[i]);
      text := text + line;
    }
    assert cards[..|cards|] == cards;
  }

  /** Snapshot.DecklistDump */
  method DecklistDump(s: Snapshot) returns (text: string)
    ensures text == ListDump(s.decklist)
  {
    text := DumpCards(s.decklist);
  }

  /** Snapshot.SideboardDump */
  method SideboardDump(s: Snapshot) returns (text: string)
    ensures text == ListDump(s.sideboard)
  {
    text := DumpCards(s.sideboard);
  }

  /** Snapshot.HasIdenticalCards: the same dumps and the same commander
      presence and name (the commander's name is compared even when absent). */
  predicate HasIdenticalCards(a: Snapshot, b: Snapshot)
  {
    && ListDump(a.decklist) == ListDump(b.decklist)
    && ListDump(a.sideboard) == ListDump(b.sideboard)
    && a.commander.isPresent == b.commander.isPresent
    && a.commander.name == b.commander.name
  }

  /** The ordered (count, name) pairs of a list of entries. */
  function Cards(cards: seq<CardEntry>): seq<(int, string)>
  {
    if cards == [] then [] else Cards(cards[..|cards| - 1]) + [(cards[|cards| - 1].count, cards[|cards| - 1].name)]
  }

  /** A dump is a function of the (count, name) pairs alone. */
  lemma {:induction false} DumpByCards(a: seq<CardEntry>, b: seq<CardEntry>)
    requires Cards(a) == Cards(b)
    ensures ListDump(a) == ListDump(b)
  {
    CardsLength(a);
    CardsLength(b);
    if a != [] {
      var n := |a| - 1;
      assert Cards(a)[..n] == Cards(a[..n]) && Cards(b)[..n] == Cards(b[..n]);
      DumpByCards(a[..n], b[..n]);
      assert Cards(a)[n] == (a[n].count, a[n].name);
      assert Cards(b)[n] == (b[n].count, b[n].name);
    }
  }

  lemma {:induction false} CardsLength(a: seq<CardEntry>)
    ensures |Cards(a)| == |a|
  {
    if a != [] {
      CardsLength(a[..|a| - 1]);
    }
  }

  /** HasIdenticalCards looks only at the ordered (count, name) lists and at
      the commander's presence and name: prices, not-found flags, dates and
      the grandfather flag never matter. */
  lemma IdenticalByCards(a: Snapshot, b: Snapshot)
    requires Cards(a.decklist) == Cards(b.decklist) && Cards(a.sideboard) == Cards(b.sideboard)
    requires a.commander.isPresent == b.commander.isPresent && a.commander.name == b.commander.name
    ensures HasIdenticalCards(a, b)
  {
    DumpByCards(a.decklist, b.decklist);
    DumpByCards(a.sideboard, b.sideboard);
  }

  /** HasIdenticalCards is an equivalence relation. */
  lemma IdenticalCardsEquivalence(a: Snapshot, b: Snapshot, c: Snapshot)
    ensures HasIdenticalCards(a, a)
    ensures HasIdenticalCards(a, b) ==> HasIdenticalCards(b, a)
    ensures HasIdenticalCards(a, b) && HasIdenticalCards(b, c) ==> HasIdenticalCards(a, c)
  {
  }

  /** No name contains a line break. */
  predicate SingleLineNames(cards: seq<CardEntry>)
  {
    forall i :: 0 <= i < |cards| ==> '\n' !in cards[i].name
  }

  /** The converse of DumpByCards: when no name holds a line break, the dump
      determines the (count, name) pairs, so two lists dump alike exactly when
      they hold the same cards in the same order. */
  lemma {:induction false} CardsByDump(a: seq<CardEntry>, b: seq<CardEntry>)
    requires SingleLineNames(a) && SingleLineNames(b)
    requires ListDump(a) == ListDump(b)
    ensures Cards(a) == Cards(b)
    decreases |a| + |b|
  {
    if a != [] && b != [] {
      var n, m := |a| - 1, |b| - 1;
      var la, lb := EntryLine(a[n]), EntryLine(b[m]);
      assert ListDump(a[..n]) + la == ListDump(b[..m]) + lb;
      DumpEndsLine(a[..n]);
      DumpEndsLine(b[..m]);
      LastLine(a[n], b[m], ListDump(a[..n]), ListDump(b[..m]));
      CardsByDump(a[..n], b[..m]);
    }
  }

  /** Two dumps that agree end with the same last line, because a line's only
      line break is its last character. */
  lemma LastLine(x: CardEntry, y: CardEntry, p: string, q: string)
    requires '\n' !in x.name && '\n' !in y.name
    requires p == [] || p[|p| - 1] == '\n'
    requires q == [] || q[|q| - 1] == '\n'
    requires p + EntryLine(x) == q + EntryLine(y)
    ensures p == q && x.count == y.count && x.name == y.name
  {
    var lx, ly := EntryLine(x), EntryLine(y);
    LineBreakAtEnd(x);
    LineBreakAtEnd(y);
    LastBreak(p, lx);
    LastBreak(q, ly);
    assert |p| == |q|;
    assert p == (p + lx)[..|p|] == (q + ly)[..|q|] == q;
    assert lx == ly;
    SameLine(x, y);
  }

  /** A dump line's only line break is its last character. */
  lemma LineBreakAtEnd(x: CardEntry)
    requires '\n' !in x.name
    ensures EntryLine(x)[|EntryLine(x)| - 1] == '\n'
    ensures forall i :: 0 <= i < |EntryLine(x)| - 1 ==> EntryLine(x)[i] != '\n'
  {
    IntToStringChars(x.count);
  }

  /** In p + l, where p is empty or ends a line and l is one line, the last line
      starts right after p. */
  lemma LastBreak(p: string, l: string)
    requires p == [] || p[|p| - 1] == '\n'
    requires l != [] && forall i :: 0 <= i < |l| - 1 ==> l[i] != '\n'
    ensures forall i :: |p| <= i < |p + l| - 1 ==> (p + l)[i] != '\n'
    ensures p == [] || (p + l)[|p| - 1] == '\n'
  {
    forall i | |p| <= i < |p + l| - 1
      ensures (p + l)[i] != '\n'
    {
      assert (p + l)[i] == l[i - |p|];
    }
  }

  /** A dump is empty or ends with a line break. */
  lemma DumpEndsLine(cards: seq<CardEntry>)
    ensures ListDump(cards) == [] || ListDump(cards)[|ListDump(cards)| - 1] == '\n'
  {
  }

  /** The decimal form of an integer has no space and no line break. */
  lemma IntToStringChars(n: int)
    ensures IntToString(n) != []
    ensures forall i :: 0 <= i < |IntToString(n)| ==> IntToString(n)[i] != ' ' && IntToString(n)[i] != '\n'
    ensures forall i :: 0 < i < |IntToString(n)| ==> IsDigit(IntToString(n)[i])
  {
  }

  /** Equal dump lines come from equal (count, name) pairs. */
  lemma SameLine(x: CardEntry, y: CardEntry)
    requires EntryLine(x) == EntryLine(y)
    ensures x.count == y.count && x.name == y.name
  {
    var dx, dy := IntToString(x.count), IntToString(y.count);
    IntToStringChars(x.count);
    IntToStringChars(y.count);
    var l := EntryLine(x);
    var rx, ry := x.name + "\n", y.name + "\n";
    assert l == dx + (" " + rx) == dy + (" " + ry);
    FirstSpace(dx, rx);
    FirstSpace(dy, ry);
    assert |dx| == |dy|;
    assert dx == l[..|dx|] == dy;
    IntToStringInjective(x.count, y.count);
    assert x.name == l[|dx| + 1..|l| - 1] == y.name;
  }

  /** In d + " " + rest, where d holds no space, the first space follows d. */
  lemma FirstSpace(d: string, rest: string)
    requires forall i :: 0 <= i < |d| ==> d[i] != ' '
    ensures forall i :: 0 <= i < |d| ==> (d + (" " + rest))[i] != ' '
    ensures (d + (" " + rest))[|d|] == ' '
  {
  }

  lemma IntToStringInjective(m: int, n: int)
    requires IntToString(m) == IntToString(n)
    ensures m == n
  {
    var s := IntToString(m);
    if m < 0 && n < 0 {
      assert NatToString(-m) == s[1..] == NatToString(-n);
    } else if m >= 0 && n >= 0 {
    }
  }

  /** When no name holds a line break, two snapshots have identical cards
      exactly when their ordered (count, name) lists and their commanders'
      presence and name agree. */
  lemma IdenticalIffSameCards(a: Snapshot, b: Snapshot)
    requires SingleLineNames(a.decklist) && SingleLineNames(b.decklist)
    requires SingleLineNames(a.sideboard) && SingleLineNames(b.sideboard)
    ensures HasIdenticalCards(a, b) <==>
      && Cards(a.decklist) == Cards(b.decklist)
      && Cards(a.sideboard) == Cards(b.sideboard)
      && a.commander.isPresent == b.commander.isPresent
      && a.commander.name == b.commander.name
  {
    if HasIdenticalCards(a, b) {
      CardsByDump(a.decklist, b.decklist);
      CardsByDump(a.sideboard, b.sideboard);
    } else if Cards(a.decklist) == Cards(b.decklist) && Cards(a.sideboard) == Cards(b.sideboard) {
      DumpByCards(a.decklist, b.decklist);
      DumpByCards(a.sideboard, b.sideboard);
    }
  }

  // ---------------------------------------------------------------------------
  // Deep copy

  /** Snapshot.Clone: the date, commander and grandfather flag copied, and
      each entry of both lists copied into a fresh list by index. */
  method Clone(s: Snapshot) returns (r: Snapshot)
    ensures r == s
  {
    var decklist := new CardEntry[|s.decklist|];
    for i := 0 to |s.decklist|
      invariant decklist[..i] == s.decklist[..i]
    {
      decklist[i] := s.decklist[i];
    }
    var cards := decklist[..];
    assert cards == decklist[..|s.decklist|] == s.decklist[..|s.decklist|] == s.decklist;
    var sideboard := new CardEntry[|s.sideboard|];
    for i := 0 to |s.sideboard|
      invariant sideboard[..i] == s.sideboard[..i]
    {
      sideboard[i] := s.sideboard[i];
    }
    assert sideboard[..] == sideboard[..|s.sideboard|] == s.sideboard[..|s.sideboard|] == s.sideboard;
    r := Snapshot(s.date, cards, sideboard[..], s.commander, s.isGrandfatherLegal);
  }
}
