/** The decklist text format read by ParseCardEntryLine and
    ParseCardEntryLines (database.go:87-121). A line holds a card as
    "[<count>[x|X]<white space>]<name>"; the source recognises it with the
    regular expression (?:([0-9]+)[xX]?\s+)?(\w.+), searched for every
    non-overlapping leftmost-first match. The matcher below is that
    expression written out: \s is [\t\n\f\r ], \w is [0-9A-Za-z_], and '.'
    is any character but a line break. */
module DeckList {
  import opened Strings
  import opened Snapshots

  predicate IsRegexpSpace(c: char)
  {
    c == '\t' || c == '\n' || c == '\U{000C}' || c == '\r' || c == ' '
  }

  predicate IsWordChar(c: char)
  {
    IsAlnum(c) || c == '_'
  }

  predicate NotNewline(c: char)
  {
    c != '\n'
  }

  /** The end of the longest run of characters satisfying inRun from i on. */
  function RunEnd(s: string, i: nat, inRun: char -> bool): (j: nat)
    requires i <= |s|
    ensures i <= j <= |s|
    ensures forall k :: i <= k < j ==> inRun(s[k])
    ensures j < |s| ==> !inRun(s[j])
    decreases |s| - i
  {
    if i < |s| && inRun(s[i]) then RunEnd(s, i + 1, inRun) else i
  }

  /** Any run of inRun characters that stops where inRun fails is the run RunEnd finds. */
  lemma {:induction false} RunEndAt(s: string, i: nat, j: nat, inRun: char -> bool)
    requires i <= j <= |s|
    requires forall k :: i <= k < j ==> inRun(s[k])
    requires j < |s| ==> !inRun(s[j])
    ensures RunEnd(s, i, inRun) == j
    decreases j - i
  {
    if i < j {
      RunEndAt(s, i + 1, j, inRun);
    }
  }

  /** One match: where it starts, the text of the count group ("" when the
      optional group took no part), the text of the name group, which runs
      to the end of the line, and where the match ends. */
  datatype Match = Match(start: nat, countText: string, nameText: string, end: nat)

  /** \w.+ at q: a word character and at least one more character on its line. */
  predicate NameAt(s: string, q: nat)
  {
    q + 1 < |s| && IsWordChar(s[q]) && s[q + 1] != '\n'
  }

  /** The shape every match has. */
  predicate WellFormed(s: string, m: Match)
  {
    && m.start < m.end <= |s|
    && |m.nameText| >= 2 && IsWordChar(m.nameText[0]) && '\n' !in m.nameText
    && (m.end < |s| ==> s[m.end] == '\n')
    && AllDigits(m.countText)
  }

  /** The name group from q: a word character and the rest of its line. */
  function NameGroup(s: string, q: nat): (m: Match)
    requires NameAt(s, q)
    ensures WellFormed(s, m) && m.start == q && m.countText == []
  {
    var e := RunEnd(s, q + 1, NotNewline);
    var name := s[q..e];
    assert '\n' !in name by {
      forall k | 0 <= k < |name|
        ensures name[k] != '\n'
      {
        assert name[k] == s[q + k];
      }
    }
    Match(q, [], name, e)
  }

  /** The match at p that takes the optional group. Every quantifier in the
      group is greedy, and giving back any of it cannot help: a shorter digit
      run leaves a digit where [xX]?\s+ is needed, and a shorter white-space
      run leaves a space where \w is needed. */
  function CountedMatchAt(s: string, p: nat): (m: Option<Match>)
    requires p <= |s|
    ensures m.Some? ==> m.value.start == p && WellFormed(s, m.value) && m.value.countText != []
  {
    var d := RunEnd(s, p, IsDigit);
    var x := if d < |s| && (s[d] == 'x' || s[d] == 'X') then d + 1 else d;
    var w := RunEnd(s, x, IsRegexpSpace);
    if p < d && x < w && NameAt(s, w) then Some(NameGroup(s, w).(start := p, countText := s[p..d]))
    else None
  }

  /** The match at p, if any: with the count group when it fits, else without. */
  function MatchAt(s: string, p: nat): (m: Option<Match>)
    requires p <= |s|
    ensures m.Some? ==> m.value.start == p && WellFormed(s, m.value)
    ensures m.None? <==> !NameAt(s, p) && CountedMatchAt(s, p).None?
  {
    var counted := CountedMatchAt(s, p);
    if counted.Some? then counted
    else if NameAt(s, p) then Some(NameGroup(s, p))
    else None
  }

  /** The leftmost match starting at from or later. */
  function FirstMatch(s: string, from: nat): (m: Option<Match>)
    requires from <= |s|
    ensures m.Some? ==> from <= m.value.start <= |s| && MatchAt(s, m.value.start) == m
    decreases |s| - from
  {
    if MatchAt(s, from).Some? then MatchAt(s, from)
    else if from == |s| then None
    else FirstMatch(s, from + 1)
  }

  /** No match starts between from and the one FirstMatch returns. */
  lemma {:induction false} FirstMatchLeftmost(s: string, from: nat, p: nat)
    requires from <= p <= |s|
    requires FirstMatch(s, from).None? || p < FirstMatch(s, from).value.start
    ensures MatchAt(s, p).None?
    decreases |s| - from
  {
    var here := MatchAt(s, from);
    if here.Some? {
      // FirstMatch would return this match, which starts at from <= p.
      assert false;
    } else if p > from {
      assert FirstMatch(s, from) == FirstMatch(s, from + 1);
      FirstMatchLeftmost(s, from + 1, p);
    }
  }

  /** FindAllStringSubmatch: successive leftmost matches, each search resuming
      where the previous match ended. */
  function AllMatches(s: string, from: nat): (ms: seq<Match>)
    requires from <= |s|
    ensures forall i :: 0 <= i < |ms| ==> from <= ms[i].start && WellFormed(s, ms[i])
    decreases |s| - from
  {
    match FirstMatch(s, from)
    case None => []
    case Some(m) => [m] + AllMatches(s, m.end)
  }

  /** ParseCardEntryLine: a line yields an entry when the expression matches it
      exactly once. The count is the count group read by Atoi, or 1 when the
      group is absent or out of range; the name is the name group trimmed. */
  function ParseCardEntryLine(s: string): (r: Option<CardEntry>)
    ensures |s| < 2 ==> r.None?
    ensures r.Some? ==> Parsed(r.value)
  {
    var ms := AllMatches(s, 0);
    if |ms| != 1 then None
    else
      var m := ms[0];
      var count := match Atoi(m.countText) case Some(n) => n case None => 1;
      var name := TrimSpace(m.nameText);
      NameGroupTrimmed(m.nameText);
      Some(CardEntry(name, count, Free, false))
  }

  /** What every parsed entry looks like: a trimmed, non-empty, single-line
      name, a count that is never negative, and no price yet. */
  predicate Parsed(e: CardEntry)
  {
    && e.name != [] && IsTrimmed(e.name) && '\n' !in e.name
    && e.count >= 0 && e.pricePer == Free && !e.notFound
  }

  /** Trimming a name group keeps a non-empty, single-line name. */
  lemma NameGroupTrimmed(g: string)
    requires g != [] && IsWordChar(g[0]) && '\n' !in g
    ensures TrimSpace(g) != [] && IsTrimmed(TrimSpace(g)) && '\n' !in TrimSpace(g)
  {
    var t := TrimSpace(g);
    var left := TrimLeftBy(g, IsSpace);
    assert left != [];
    assert t != [];
    var i := |g| - |left|;
    assert OccursAt(g, t, i);
    SliceLacks(g, i, |t|, '\n');
  }

  /** A slice lacks every character its string lacks. */
  lemma SliceLacks(g: string, i: nat, n: nat, c: char)
    requires i + n <= |g| && c !in g
    ensures c !in g[i..i + n]
  {
  }

  /** The entries ParseCardEntryLines keeps from a sequence of lines: the
      lines that parse, in order. */
  function ParseLines(lines: seq<string>): (entries: seq<CardEntry>)
    ensures |entries| <= |lines|
    ensures forall i :: 0 <= i < |entries| ==> Parsed(entries[i])
  {
    if lines == [] then []
    else
      var init := ParseLines(lines[..|lines| - 1]);
      match ParseCardEntryLine(lines[|lines| - 1])
      case Some(e) => init + [e]
      case None => init
  }

  /** ParseCardEntryLines: split at "\r\n" and keep the entry of every line
      that parses. */
  method ParseCardEntryLines(s: string) returns (entries: seq<CardEntry>)
    ensures entries == ParseLines(Split(s, "\r\n"))
  {
    var lines := Split(s, "\r\n");
    entries := [];
    for i := 0 to |lines|
      invariant entries == ParseLines(lines[..i])
    {
      assert lines[..i + 1][..i] == lines[..i];
      var entry := ParseCardEntryLine(lines[i]);
      if entry.Some? {
        entries := entries + [entry.value];
      }
    }
    assert lines[..|lines|] == lines;
  }

  lemma {:induction false} ParseLinesAppend(a: seq<string>, b: seq<string>)
    ensures ParseLines(a + b) == ParseLines(a) + ParseLines(b)
    decreases |b|
  {
    if b == [] {
      assert a + b == a;
    } else {
      var b' := b[..|b| - 1];
      assert (a + b)[..|a + b| - 1] == a + b';
      assert (a + b)[|a + b| - 1] == b[|b| - 1];
      ParseLinesAppend(a, b');
    }
  }

  // ---------------------------------------------------------------------------
  // Lines that parse

  /** No match can start at the end of the text or at a line break. */
  lemma NoMatchAtBreak(s: string, p: nat)
    requires p == |s| || (p < |s| && s[p] == '\n')
    ensures MatchAt(s, p).None?
  {
  }

  /** When the first match covers the text up to its end or a final line
      break, it is the only one. */
  lemma OnlyMatch(s: string, m: Match)
    requires FirstMatch(s, 0) == Some(m)
    requires m.end == |s| || (m.end == |s| - 1 && s[m.end] == '\n')
    ensures AllMatches(s, 0) == [m]
  {
    NoMatchNearEnd(s, m.end);
    assert AllMatches(s, m.end) == [];
  }

  /** No match starts at the end of the text or at a final line break. */
  lemma NoMatchNearEnd(s: string, p: nat)
    requires p == |s| || (p == |s| - 1 && s[p] == '\n')
    ensures FirstMatch(s, p) == None
  {
    NoMatchAtBreak(s, p);
    if p < |s| {
      NoMatchAtBreak(s, |s|);
      assert FirstMatch(s, p) == FirstMatch(s, |s|);
    }
  }

  /** A line that starts with a letter or '_' and holds no other line break is
      a bare name: count 1, name trimmed. An optional final line break is
      ignored, since '.' stops before it. */
  lemma ParseBareName(name: string, eol: string)
    requires |name| >= 2 && (IsLetter(name[0]) || name[0] == '_') && '\n' !in name
    requires eol == [] || eol == "\n"
    ensures ParseCardEntryLine(name + eol) == Some(CardEntry(TrimSpace(name), 1, Free, false))
  {
    var s := name + eol;
    RunEndAt(s, 0, 0, IsDigit);
    RunEndAt(s, 1, |name|, NotNewline);
    var m := Match(0, [], s[0..|name|], |name|);
    assert MatchAt(s, 0) == Some(m);
    OnlyMatch(s, m);
    assert s[0..|name|] == name;
  }

  /** A line made of a count, an optional 'x' or 'X', white space and a name
      starting with a word character parses to that name, trimmed, with that
      count, or with count 1 when the count does not fit in an int. */
  lemma ParseCounted(s: string, n: nat, mark: string, spaces: string, name: string, eol: string)
    requires s == NatToString(n) + mark + spaces + name + eol
    requires mark == [] || mark == "x" || mark == "X"
    requires spaces != [] && forall i :: 0 <= i < |spaces| ==> IsRegexpSpace(spaces[i])
    requires |name| >= 2 && IsWordChar(name[0]) && '\n' !in name
    requires eol == [] || eol == "\n"
    ensures ParseCardEntryLine(s) == Some(CardEntry(TrimSpace(name), if n <= MaxInt then n else 1, Free, false))
  {
    var digits := NatToString(n);
    var e := |digits| + |mark| + |spaces| + |name|;
    CountedLine(s, digits, mark, spaces, name, eol, e);
    ParseFirst(s, Match(0, digits, name, e));
    CountOf(n);
  }

  /** The match a counted line makes. */
  lemma CountedLine(s: string, digits: string, mark: string, spaces: string, name: string, eol: string, e: nat)
    requires s == digits + mark + spaces + name + eol
    requires e == |digits| + |mark| + |spaces| + |name|
    requires digits != [] && forall i :: 0 <= i < |digits| ==> IsDigit(digits[i])
    requires mark == [] || mark == "x" || mark == "X"
    requires spaces != [] && forall i :: 0 <= i < |spaces| ==> IsRegexpSpace(spaces[i])
    requires |name| >= 2 && IsWordChar(name[0]) && '\n' !in name
    requires eol == [] || eol == "\n"
    ensures FirstMatch(s, 0) == Some(Match(0, digits, name, e))
    ensures e == |s| || (e == |s| - 1 && s[e] == '\n')
  {
    var d := |digits|;
    var x := d + |mark|;
    var w := x + |spaces|;
    LineLayout(s, digits, mark, spaces, name, eol);
    assert |s| == e + |eol|;
    assert s[x] == spaces[0];
    CountedAt(s, d, x, w, e);
  }

  /** Where the parts of a counted line sit. */
  lemma LineLayout(s: string, digits: string, mark: string, spaces: string, name: string, eol: string)
    requires s == digits + mark + spaces + name + eol
    ensures var d := |digits|; var x := d + |mark|; var w := x + |spaces|; var e := w + |name|;
      && s[..d] == digits && s[w..e] == name
      && (forall k :: 0 <= k < d ==> s[k] == digits[k])
      && (forall k :: x <= k < w ==> s[k] == spaces[k - x])
      && (forall k :: w <= k < e ==> s[k] == name[k - w])
      && (d < x ==> s[d] == mark[0])
      && (e < |s| ==> s[e] == eol[0])
  {
    var d := |digits|;
    var x := d + |mark|;
    var w := x + |spaces|;
    var e := w + |name|;
    var p := digits + mark + spaces + name;
    assert s == p + eol;
    var q := digits + mark + spaces;
    assert p == q + name;
    assert q == (digits + mark) + spaces;
  }

  /** The counted match at 0, in terms of positions: digits up to d, an
      optional 'x' or 'X' up to x, white space up to w, a name up to e. */
  lemma CountedAt(s: string, d: nat, x: nat, w: nat, e: nat)
    requires 0 < d <= x < w < e <= |s|
    requires forall k :: 0 <= k < d ==> IsDigit(s[k])
    requires !IsDigit(s[d])
    requires x == if s[d] == 'x' || s[d] == 'X' then d + 1 else d
    requires forall k :: x <= k < w ==> IsRegexpSpace(s[k])
    requires NameAt(s, w)
    requires forall k :: w < k < e ==> s[k] != '\n'
    requires e < |s| ==> s[e] == '\n'
    ensures FirstMatch(s, 0) == Some(Match(0, s[..d], s[w..e], e))
  {
    RunEndAt(s, 0, d, IsDigit);
    RunEndAt(s, x, w, IsRegexpSpace);
    NameGroupAt(s, w, e);
    CountedFromRuns(s, d, x, w);
    assert s[0..d] == s[..d];
  }

  lemma NameGroupAt(s: string, w: nat, e: nat)
    requires w < e <= |s| && NameAt(s, w)
    requires forall k :: w < k < e ==> s[k] != '\n'
    requires e < |s| ==> s[e] == '\n'
    ensures NameGroup(s, w) == Match(w, [], s[w..e], e)
  {
    RunEndAt(s, w + 1, e, NotNewline);
  }

  lemma CountedFromRuns(s: string, d: nat, x: nat, w: nat)
    requires 0 < d < |s| && RunEnd(s, 0, IsDigit) == d
    requires x == if s[d] == 'x' || s[d] == 'X' then d + 1 else d
    requires x < w && RunEnd(s, x, IsRegexpSpace) == w && NameAt(s, w)
    ensures CountedMatchAt(s, 0) == Some(NameGroup(s, w).(start := 0, countText := s[0..d]))
  {
  }

  /** A line whose first match ends at its end or at a final line break
      parses to that match. */
  lemma ParseFirst(s: string, m: Match)
    requires FirstMatch(s, 0) == Some(m)
    requires m.end == |s| || (m.end == |s| - 1 && s[m.end] == '\n')
    ensures ParseCardEntryLine(s) == Some(CardEntry(
      TrimSpace(m.nameText),
      match Atoi(m.countText) case Some(n) => n case None => 1,
      Free, false))
  {
    OnlyMatch(s, m);
  }

  /** The count of a counted line. */
  lemma CountOf(n: nat)
    ensures (match Atoi(NatToString(n)) case Some(c) => c case None => 1) == if n <= MaxInt then n else 1
  {
  }

  /** A dump line (Snapshot.DecklistDump) parses back to its entry. */
  lemma ParseDumpLine(e: CardEntry)
    requires Parsed(e) && e.count <= MaxInt && |e.name| >= 2 && IsWordChar(e.name[0])
    ensures ParseCardEntryLine(EntryLine(e)) == Some(e)
  {
    ParseCounted(EntryLine(e), e.count, [], " ", e.name, "\n");
    TrimmedFixed(e.name, IsSpace);
  }

  /** An empty line and a count alone are not entries. */
  lemma ParseRejects()
    ensures ParseCardEntryLine("") == None
    ensures ParseCardEntryLine("4") == None
  {
  }

  /** "4 Lightning Bolt" is four Lightning Bolts. */
  lemma ParseCountExample(line: string, name: string)
    requires line == "4 Lightning Bolt" && name == "Lightning Bolt"
    ensures ParseCardEntryLine(line) == Some(CardEntry(name, 4, Free, false))
  {
    var e := CardEntry(name, 4, Free, false);
    ExampleWritable(e);
    ExampleFormLine(e, line);
    FormLineParses(e);
  }

  /** "0 Island" is accepted, with a count of zero. */
  lemma ParseZeroExample(line: string, name: string)
    requires line == "0 Island" && name == "Island"
    ensures ParseCardEntryLine(line) == Some(CardEntry(name, 0, Free, false))
  {
    var e := CardEntry(name, 0, Free, false);
    ExampleWritable(e);
    ExampleFormLine(e, line);
    FormLineParses(e);
  }

  lemma ExampleWritable(e: CardEntry)
    requires e == CardEntry("Lightning Bolt", 4, Free, false) || e == CardEntry("Island", 0, Free, false)
    ensures Writable(e)
  {
    TrimmedFixed(e.name, IsSpace);
    ExampleNameChars(e.name);
  }

  lemma ExampleNameChars(name: string)
    requires name == "Lightning Bolt" || name == "Island"
    ensures '\r' !in name && '\n' !in name && IsWordChar(name[0])
    ensures !IsSpace(name[0]) && !IsSpace(name[|name| - 1])
  {
  }

  lemma ExampleFormLine(e: CardEntry, line: string)
    requires (e == CardEntry("Lightning Bolt", 4, Free, false) && line == "4 Lightning Bolt")
      || (e == CardEntry("Island", 0, Free, false) && line == "0 Island")
    ensures FormLine(e) == line
  {
    assert IntToString(e.count) == [Digit(e.count)];
  }

  /** "Sol Ring" is one Sol Ring. */
  lemma ParseBareExample(line: string)
    requires line == "Sol Ring"
    ensures ParseCardEntryLine(line) == Some(CardEntry(line, 1, Free, false))
  {
    assert TrimSpace(line) == line by {
      TrimmedFixed(line, IsSpace);
    }
    assert ParseCardEntryLine(line) == Some(CardEntry(TrimSpace(line), 1, Free, false)) by {
      ParseBareName(line, []);
      assert line + [] == line;
    }
  }

  /** Two cards on one line separated by a bare line break are two matches,
      so the line is dropped. */
  lemma TwoCardsOneLine()
    ensures ParseCardEntryLine("Island\nForest") == None
  {
    var s := "Island\nForest";
    RunEndAt(s, 0, 0, IsDigit);
    RunEndAt(s, 1, 6, NotNewline);
    var m := Match(0, [], s[0..6], 6);
    assert MatchAt(s, 0) == Some(m);
    NoMatchAtBreak(s, 6);
    SecondCardMatches(s);
    assert FirstMatch(s, 6) == Some(Match(7, [], s[7..13], 13));
    assert |AllMatches(s, 0)| >= 2;
  }

  /** The card after the line break is a match of its own. */
  lemma SecondCardMatches(s: string)
    requires s == "Island\nForest"
    ensures MatchAt(s, 7) == Some(Match(7, [], s[7..13], 13))
  {
    RunEndAt(s, 7, 7, IsDigit);
    RunEndAt(s, 8, 13, NotNewline);
  }

  // ---------------------------------------------------------------------------
  // The decklist as the update form sends it

  /** A dump line without its line break. */
  function FormLine(e: CardEntry): string
  {
    IntToString(e.count) + " " + e.name
  }

  function FormLines(cards: seq<CardEntry>): (lines: seq<string>)
    ensures |lines| == |cards|
    ensures forall i :: 0 <= i < |cards| ==> lines[i] == FormLine(cards[i])
  {
    seq(|cards|, i requires 0 <= i < |cards| => FormLine(cards[i]))
  }

  /** A decklist as text with "\r\n" between lines. */
  function FormText(cards: seq<CardEntry>): string
  {
    Join(FormLines(cards), "\r\n")
  }

  /** An entry that survives being written out and read back. */
  predicate Writable(e: CardEntry)
  {
    Parsed(e) && e.count <= MaxInt && |e.name| >= 2 && IsWordChar(e.name[0]) && '\r' !in e.name
  }

  /** ParseCardEntryLines reads back every list of writable entries from its
      text, in order. */
  lemma FormTextRoundTrip(cards: seq<CardEntry>)
    requires forall i :: 0 <= i < |cards| ==> Writable(cards[i])
    ensures ParseLines(Split(FormText(cards), "\r\n")) == cards
  {
    var lines := FormLines(cards);
    if cards == [] {
      assert Split("", "\r\n") == [""];
      assert ParseLines([""]) == [] by {
        assert [""][..0] == [];
      }
    } else {
      forall k | 0 <= k < |lines|
        ensures "\r\n"[0] !in lines[k]
      {
        IntToStringChars(cards[k].count);
      }
      SplitJoin(lines, "\r\n");
      ParseFormLines(cards);
    }
  }

  /** A line of the form text parses back to its entry. */
  lemma FormLineParses(e: CardEntry)
    requires Writable(e)
    ensures ParseCardEntryLine(FormLine(e)) == Some(e)
  {
    ParseCounted(FormLine(e), e.count, [], " ", e.name, []);
    TrimmedFixed(e.name, IsSpace);
  }

  lemma ParseLinesSnoc(lines: seq<string>, e: CardEntry)
    requires lines != [] && ParseCardEntryLine(lines[|lines| - 1]) == Some(e)
    ensures ParseLines(lines) == ParseLines(lines[..|lines| - 1]) + [e]
  {
  }

  lemma {:induction false} ParseFormLines(cards: seq<CardEntry>)
    requires forall i :: 0 <= i < |cards| ==> Writable(cards[i])
    ensures ParseLines(FormLines(cards)) == cards
  {
    if cards != [] {
      var n := |cards| - 1;
      var init := cards[..n];
      assert cards == init + [cards[n]];
      var lines := FormLines(cards);
      FormLinesPrefix(cards, n);
      assert forall i :: 0 <= i < |init| ==> Writable(init[i]) by {
        forall i | 0 <= i < |init|
          ensures Writable(init[i])
        {
          assert init[i] == cards[i];
        }
      }
      ParseFormLines(init);
      FormLineParses(cards[n]);
      ParseLinesSnoc(lines, cards[n]);
    }
  }

  lemma FormLinesPrefix(cards: seq<CardEntry>, n: nat)
    requires n <= |cards|
    ensures FormLines(cards)[..n] == FormLines(cards[..n])
  {
    var a, b := FormLines(cards)[..n], FormLines(cards[..n]);
    assert |a| == |b|;
    forall i | 0 <= i < n
      ensures a[i] == b[i]
    {
      assert cards[..n][i] == cards[i];
    }
  }
}
