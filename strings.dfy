/** The parts of Go's standard library (packages unicode, strings and strconv)
    that the deck engine relies on, stated over ASCII characters.  Character
    classes outside ASCII (accented letters, other scripts) are not modelled:
    such characters fall in the "other" class everywhere. */
module Strings {

  /** The prefix of length i + 1 is the prefix of length i and element i. */
  lemma SliceSnoc<T>(s: seq<T>, i: nat)
    requires i < |s|
    ensures |s[..i + 1]| == |s[..i]| + 1
    ensures s[..i + 1][..|s[..i]|] == s[..i]
    ensures s[..i + 1][|s[..i]|] == s[i]
  {
  }

  /** Appending one more element of b to a and a prefix of b. */
  lemma AppendPrefixSnoc<T>(a: seq<T>, b: seq<T>, i: nat)
    requires i < |b|
    ensures a + b[..i + 1] == (a + b[..i]) + [b[i]]
  {
  }

  datatype Option<T> = None | Some(value: T)

  // ---------------------------------------------------------------------------
  // Character classes (unicode.IsLower, IsUpper, IsNumber, IsLetter, IsSpace)

  predicate IsLower(c: char) { 'a' <= c <= 'z' }
  predicate IsUpper(c: char) { 'A' <= c <= 'Z' }
  predicate IsDigit(c: char) { '0' <= c <= '9' }
  predicate IsLetter(c: char) { IsLower(c) || IsUpper(c) }
  predicate IsAlnum(c: char) { IsLetter(c) || IsDigit(c) }

  /** unicode.IsSpace for the Latin-1 range: tab, newline, vertical tab,
      form feed, carriage return, space, NEL and no-break space. */
  predicate IsSpace(c: char) {
    c == '\t' || c == '\n' || c == '\U{000B}' || c == '\U{000C}' || c == '\r' || c == ' '
    || c == '\U{0085}' || c == '\U{00A0}'
  }

  /** unicode.ToLower */
  function ToLower(c: char): (r: char)
    ensures IsUpper(c) ==> IsLower(r)
    ensures !IsUpper(c) ==> r == c
    ensures IsAlnum(r) <==> IsAlnum(c)
  {
    if IsUpper(c) then (c as int + 32) as char else c
  }

  /** strings.ToLower */
  function ToLowerString(s: string): (r: string)
    ensures |r| == |s|
    ensures forall i :: 0 <= i < |s| ==> r[i] == ToLower(s[i])
  {
    seq(|s|, i requires 0 <= i < |s| => ToLower(s[i]))
  }

  // ---------------------------------------------------------------------------
  // Trimming (strings.TrimLeftFunc, TrimRightFunc, TrimSpace, Trim)

  function TrimLeftBy(s: string, cut: char -> bool): (r: string)
    ensures |r| <= |s| && r == s[|s| - |r|..]
    ensures r != [] ==> !cut(r[0])
    ensures forall i :: 0 <= i < |s| - |r| ==> cut(s[i])
    decreases |s|
  {
    if s != [] && cut(s[0]) then TrimLeftBy(s[1..], cut) else s
  }

  function TrimRightBy(s: string, cut: char -> bool): (r: string)
    ensures |r| <= |s| && r == s[..|r|]
    ensures r != [] ==> !cut(r[|r| - 1])
    ensures forall i :: |r| <= i < |s| ==> cut(s[i])
    decreases |s|
  {
    if s != [] && cut(s[|s| - 1]) then TrimRightBy(s[..|s| - 1], cut) else s
  }

  /** Both ends trimmed: the result is the slice of s between the first and
      the last character that `cut` keeps. */
  function TrimBy(s: string, cut: char -> bool): (r: string)
    ensures r != [] ==> !cut(r[0]) && !cut(r[|r| - 1])
    ensures OccursAt(s, r, |s| - |TrimLeftBy(s, cut)|)
  {
    var left := TrimLeftBy(s, cut);
    var r := TrimRightBy(left, cut);
    TrimBothEnds(s, left, r, cut);
    r
  }

  /** The right trim of the left trim keeps the first character the left
      trim kept and sits where the left trim starts. */
  lemma TrimBothEnds(s: string, left: string, r: string, cut: char -> bool)
    requires |left| <= |s| && left == s[|s| - |left|..] && (left != [] ==> !cut(left[0]))
    requires |r| <= |left| && r == left[..|r|]
    ensures r != [] ==> !cut(r[0])
    ensures OccursAt(s, r, |s| - |left|)
  {
    PrefixOfSuffix(s, |s| - |left|, |r|);
    if r != [] {
      assert r[0] == left[0];
    }
  }

  /** The first n characters of the suffix from k are the slice k..k + n. */
  lemma PrefixOfSuffix<T>(s: seq<T>, k: nat, n: nat)
    requires k + n <= |s|
    ensures s[k..][..n] == s[k..k + n]
  {
  }

  function TrimSpace(s: string): string
  {
    TrimBy(s, IsSpace)
  }

  /** A string with no leading or trailing white space. */
  predicate IsTrimmed(s: string)
  {
    s == [] || (!IsSpace(s[0]) && !IsSpace(s[|s| - 1]))
  }

  lemma {:induction false} TrimmedFixed(s: string, cut: char -> bool)
    requires s == [] || (!cut(s[0]) && !cut(s[|s| - 1]))
    ensures TrimBy(s, cut) == s
  {
  }

  // ---------------------------------------------------------------------------
  // Replacement (strings.Replace with n = -1)

  /** strings.Replace(s, from, to, -1) for one-character `from` and `to`. */
  function ReplaceChar(s: string, from: char, to: char): (r: string)
    ensures |r| == |s|
    ensures forall i :: 0 <= i < |s| ==> r[i] == if s[i] == from then to else s[i]
  {
    if s == [] then [] else ReplaceChar(s[..|s| - 1], from, to) + [if s[|s| - 1] == from then to else s[|s| - 1]]
  }

  /** strings.Replace(s, c, "", -1): every occurrence of c deleted, the rest in order. */
  function RemoveChar(s: string, c: char): (r: string)
    ensures multiset(r) == multiset(s)[c := 0]
    ensures |r| == |s| - multiset(s)[c]
  {
    if s == [] then []
    else
      var init := RemoveChar(s[..|s| - 1], c);
      assert s == s[..|s| - 1] + [s[|s| - 1]];
      if s[|s| - 1] == c then init else init + [s[|s| - 1]]
  }

  lemma {:induction false} RemoveCharAppend(a: string, b: string, c: char)
    ensures RemoveChar(a + b, c) == RemoveChar(a, c) + RemoveChar(b, c)
    decreases |b|
  {
    if b != [] {
      var b', last := b[..|b| - 1], b[|b| - 1];
      ConcatInit(a, b);
      RemoveCharAppend(a, b', c);
      if last != c {
        AppendAssoc(RemoveChar(a, c), RemoveChar(b', c), [last]);
      }
    } else {
      assert a + b == a;
    }
  }

  /** Dropping the last element of a + b, for a non-empty b. */
  lemma ConcatInit<T>(a: seq<T>, b: seq<T>)
    requires b != []
    ensures a + b != [] && (a + b)[..|a + b| - 1] == a + b[..|b| - 1]
    ensures (a + b)[|a + b| - 1] == b[|b| - 1]
  {
  }

  lemma AppendAssoc<T>(a: seq<T>, b: seq<T>, c: seq<T>)
    ensures a + (b + c) == a + b + c
  {
  }

  // ---------------------------------------------------------------------------
  // Searching (strings.HasPrefix, HasSuffix, Index)

  predicate HasPrefix(s: string, prefix: string)
  {
    |prefix| <= |s| && s[..|prefix|] == prefix
  }

  predicate HasSuffix(s: string, suffix: string)
  {
    |suffix| <= |s| && s[|s| - |suffix|..] == suffix
  }

  predicate OccursAt(s: string, sub: string, i: int)
  {
    0 <= i && i + |sub| <= |s| && s[i..i + |sub|] == sub
  }

  function IndexFrom(s: string, sub: string, i: nat): (r: int)
    requires i <= |s|
    ensures r == -1 || (i <= r && OccursAt(s, sub, r))
    ensures forall k :: i <= k && (r == -1 || k < r) ==> !OccursAt(s, sub, k)
    decreases |s| - i
  {
    if OccursAt(s, sub, i) then i else if i == |s| then -1 else IndexFrom(s, sub, i + 1)
  }

  /** strings.Index: the first position at which sub occurs in s, or -1. */
  function Index(s: string, sub: string): (r: int)
    ensures r == -1 <==> forall k :: !OccursAt(s, sub, k)
    ensures r >= 0 ==> OccursAt(s, sub, r) && forall k :: 0 <= k < r ==> !OccursAt(s, sub, k)
  {
    IndexFrom(s, sub, 0)
  }

  /** strings.Contains, as the source writes it: strings.Index(s, sub) >= 0. */
  predicate Contains(s: string, sub: string)
  {
    Index(s, sub) >= 0
  }

  // ---------------------------------------------------------------------------
  // Splitting (strings.Split)

  /** strings.Split(s, sep) for a non-empty separator: the pieces between the
      leftmost non-overlapping occurrences of sep. */
  function Split(s: string, sep: string): (parts: seq<string>)
    requires sep != []
    ensures |parts| >= 1
    decreases |s|
  {
    var i := Index(s, sep);
    if i < 0 then [s] else [s[..i]] + Split(s[i + |sep|..], sep)
  }

  /** Split with an occurrence at i: the piece before it, then the split of
      the rest. */
  lemma SplitAt(s: string, sep: string, i: nat)
    requires sep != [] && i == Index(s, sep)
    ensures Split(s, sep) == [s[..i]] + Split(s[i + |sep|..], sep)
  {
  }

  /** No piece of a split holds the separator. */
  lemma {:induction false} SplitPartsFree(s: string, sep: string)
    requires sep != []
    ensures forall k :: 0 <= k < |Split(s, sep)| ==> Index(Split(s, sep)[k], sep) == -1
    decreases |s|
  {
    var i := Index(s, sep);
    if i >= 0 {
      var head := s[..i];
      assert forall k :: OccursAt(head, sep, k) ==> OccursAt(s, sep, k);
      SplitAt(s, sep, i);
      SplitPartsFree(s[i + |sep|..], sep);
    }
  }

  /** strings.Join, the inverse of Split. */
  function Join(parts: seq<string>, sep: string): string
  {
    if |parts| == 0 then [] else if |parts| == 1 then parts[0] else parts[0] + sep + Join(parts[1..], sep)
  }

  lemma {:induction false} JoinSplit(s: string, sep: string)
    requires sep != []
    ensures Join(Split(s, sep), sep) == s
    decreases |s|
  {
    var i := Index(s, sep);
    if i >= 0 {
      var rest := s[i + |sep|..];
      JoinSplit(rest, sep);
      var tail := Split(rest, sep);
      SplitAt(s, sep, i);
      JoinCons(s[..i], tail, sep);
      SliceAround(s, i, sep);
    }
  }

  lemma JoinCons(head: string, tail: seq<string>, sep: string)
    requires |tail| >= 1
    ensures Join([head] + tail, sep) == head + sep + Join(tail, sep)
  {
    assert ([head] + tail)[1..] == tail;
  }

  lemma SliceAround(s: string, i: nat, sep: string)
    requires OccursAt(s, sep, i)
    ensures s[..i] + sep + s[i + |sep|..] == s
  {
  }

  /** Split undoes Join when no part holds the separator's first character. */
  lemma {:induction false} SplitJoin(parts: seq<string>, sep: string)
    requires sep != [] && |parts| >= 1
    requires forall k :: 0 <= k < |parts| ==> sep[0] !in parts[k]
    ensures Split(Join(parts, sep), sep) == parts
    decreases |parts|
  {
    if |parts| == 1 {
      IndexPastPrefix(parts[0], sep, []);
      assert parts[0] + [] == parts[0];
    } else {
      var head, tail := parts[0], parts[1..];
      assert parts == [head] + tail;
      JoinCons(head, tail, sep);
      var rest := Join(tail, sep);
      var s := head + (sep + rest);
      assert s == Join(parts, sep);
      IndexOfLeading(sep, rest);
      IndexPastPrefix(head, sep, sep + rest);
      SplitAt(s, sep, |head|);
      ConcatSlices(head, sep, rest);
      forall k | 0 <= k < |tail|
        ensures sep[0] !in tail[k]
      {
        assert tail[k] == parts[k + 1];
      }
      SplitJoin(tail, sep);
    }
  }

  /** A string that starts with sub has sub at index 0. */
  lemma IndexOfLeading(sub: string, rest: string)
    requires sub != []
    ensures Index(sub + rest, sub) == 0
  {
    assert (sub + rest)[0..|sub|] == sub;
    assert OccursAt(sub + rest, sub, 0);
  }

  /** The pieces of head + (sep + rest) around sep. */
  lemma ConcatSlices(head: string, sep: string, rest: string)
    ensures (head + (sep + rest))[..|head|] == head
    ensures (head + (sep + rest))[|head| + |sep|..] == rest
  {
  }

  lemma IndexAtLeastMinusOne(s: string, sub: string)
    ensures Index(s, sub) >= -1
  {
  }

  /** When head lacks the first character of sub, sub cannot start inside head. */
  lemma IndexPastPrefix(head: string, sub: string, rest: string)
    requires sub != [] && sub[0] !in head
    ensures Index(head + rest, sub) == if Index(rest, sub) < 0 then -1 else |head| + Index(rest, sub)
  {
    var s := head + rest;
    forall k | 0 <= k < |head|
      ensures !OccursAt(s, sub, k)
    {
      assert s[k] == head[k];
    }
    forall k | |head| <= k
      ensures OccursAt(s, sub, k) <==> OccursAt(rest, sub, k - |head|)
    {
      if k + |sub| <= |s| {
        assert s[k..k + |sub|] == rest[k - |head|..k - |head| + |sub|];
      }
    }
    var i := Index(rest, sub);
    IndexAtLeastMinusOne(s, sub);
    IndexAtLeastMinusOne(rest, sub);
    if i >= 0 {
      assert OccursAt(s, sub, |head| + i);
      forall k | 0 <= k < |head| + i
        ensures !OccursAt(s, sub, k)
      {
        if k >= |head| {
          assert !OccursAt(rest, sub, k - |head|);
        }
      }
    } else {
      forall k
        ensures !OccursAt(s, sub, k)
      {
        if k >= |head| {
          assert !OccursAt(rest, sub, k - |head|);
        }
      }
    }
  }

  // ---------------------------------------------------------------------------
  // Decimal integers (strconv.Atoi, strconv.Itoa, fmt's %d)

  /** Go's int is 64 bits wide on the platforms the program targets. */
  const MaxInt: int := 0x7FFF_FFFF_FFFF_FFFF
  const MinInt: int := -0x8000_0000_0000_0000

  /** Go's 64-bit int: x reduced into [MinInt, MaxInt] modulo 2^64. */
  function WrapInt64(x: int): (r: int)
    ensures MinInt <= r <= MaxInt
    ensures (r - x) % 0x1_0000_0000_0000_0000 == 0
    ensures MinInt <= x <= MaxInt ==> r == x
    decreases if x < MinInt then MinInt - x else if x > MaxInt then x - MaxInt else 0
  {
    if x < MinInt then WrapInt64(x + 0x1_0000_0000_0000_0000)
    else if x > MaxInt then WrapInt64(x - 0x1_0000_0000_0000_0000)
    else x
  }

  /** Just below the 64-bit range, a value wraps to just below its top. */
  lemma WrapBelow(x: int)
    requires MinInt - 0x1_0000_0000_0000_0000 <= x < MinInt
    ensures WrapInt64(x) == x + 0x1_0000_0000_0000_0000
  {
  }

  /** A value within int64 that is congruent to x modulo 2^64 is x wrapped. */
  lemma WrapUnique(x: int, r: int)
    requires MinInt <= r <= MaxInt && (r - x) % 0x1_0000_0000_0000_0000 == 0
    ensures WrapInt64(x) == r
  {
    var w := WrapInt64(x);
    var k1 := (w - x) / 0x1_0000_0000_0000_0000;
    var k2 := (r - x) / 0x1_0000_0000_0000_0000;
    assert w - x == 0x1_0000_0000_0000_0000 * k1;
    assert r - x == 0x1_0000_0000_0000_0000 * k2;
    assert w - r == 0x1_0000_0000_0000_0000 * (k1 - k2);
  }

  /** Adding in 64 bits step by step wraps the same as adding first and
      wrapping once. */
  lemma WrapAdd(x: int, y: int)
    ensures WrapInt64(WrapInt64(x) + y) == WrapInt64(x + y)
  {
    var w := WrapInt64(x);
    var k := (w - x) / 0x1_0000_0000_0000_0000;
    assert w - x == 0x1_0000_0000_0000_0000 * k;
    var v := WrapInt64(w + y);
    var j := (v - (w + y)) / 0x1_0000_0000_0000_0000;
    assert v - (w + y) == 0x1_0000_0000_0000_0000 * j;
    assert v - (x + y) == 0x1_0000_0000_0000_0000 * (j + k);
    WrapUnique(x + y, v);
  }

  predicate AllDigits(s: string)
  {
    forall i :: 0 <= i < |s| ==> IsDigit(s[i])
  }

  function DigitValue(c: char): (d: nat)
    requires IsDigit(c)
    ensures d < 10
  {
    c as int - '0' as int
  }

  function Digit(d: nat): (c: char)
    requires d < 10
    ensures IsDigit(c) && DigitValue(c) == d
  {
    ('0' as int + d) as char
  }

  /** The number a run of decimal digits denotes. */
  function DigitsValue(s: string): nat
    requires AllDigits(s)
  {
    if s == [] then 0 else 10 * DigitsValue(s[..|s| - 1]) + DigitValue(s[|s| - 1])
  }

  /** The decimal digits of n, without leading zeros. */
  function NatToString(n: nat): (s: string)
    ensures s != [] && AllDigits(s)
    ensures |s| > 1 ==> s[0] != '0'
    ensures DigitsValue(s) == n
  {
    if n < 10 then [Digit(n)]
    else
      var init := NatToString(n / 10);
      var s := init + [Digit(n % 10)];
      assert s[..|s| - 1] == init;
      s
  }

  /** strconv.Itoa and fmt's %d verb. */
  function IntToString(n: int): (s: string)
  {
    if n < 0 then "-" + NatToString(-n) else NatToString(n)
  }

  /** strconv.Atoi: an optional sign, then at least one decimal digit, and a
      value that fits in Go's 64-bit int; anything else is an error (None). */
  function Atoi(s: string): (r: Option<int>)
    ensures r.Some? ==> MinInt <= r.value <= MaxInt
    ensures AllDigits(s) && s != [] && DigitsValue(s) <= MaxInt ==> r == Some(DigitsValue(s))
    ensures AllDigits(s) && DigitsValue(s) > MaxInt ==> r == None
    ensures s == [] ==> r == None
  {
    var signed := |s| > 0 && (s[0] == '-' || s[0] == '+');
    var digits := if signed then s[1..] else s;
    if digits == [] || !AllDigits(digits) then None
    else
      var value: int := DigitsValue(digits);
      var n := if |s| > 0 && s[0] == '-' then -value else value;
      if MinInt <= n <= MaxInt then Some(n) else None
  }

  lemma AtoiIntToString(n: int)
    requires MinInt <= n <= MaxInt
    ensures Atoi(IntToString(n)) == Some(n)
  {
    if n < 0 {
      var s := IntToString(n);
      assert s[1..] == NatToString(-n);
    }
  }

  // ---------------------------------------------------------------------------
  // Ordering of strings (Go's < and > on strings)

  /** Go compares strings byte by byte; UTF-8 preserves the order of code
      points, so comparing characters gives the same order. */
  predicate Before(a: string, b: string)
  {
    if a == [] then b != []
    else if b == [] then false
    else if a[0] != b[0] then a[0] < b[0]
    else Before(a[1..], b[1..])
  }

  lemma {:induction false} BeforeIrreflexive(a: string)
    ensures !Before(a, a)
  {
    if a != [] {
      BeforeIrreflexive(a[1..]);
    }
  }

  lemma {:induction false} BeforeAsymmetric(a: string, b: string)
    requires Before(a, b)
    ensures !Before(b, a)
  {
    if a != [] && b != [] && a[0] == b[0] {
      BeforeAsymmetric(a[1..], b[1..]);
    }
  }

  lemma {:induction false} BeforeTransitive(a: string, b: string, c: string)
    requires Before(a, b) && Before(b, c)
    ensures Before(a, c)
  {
    if a != [] && a[0] == b[0] && b[0] == c[0] {
      BeforeTransitive(a[1..], b[1..], c[1..]);
    }
  }

  lemma {:induction false} BeforeTotal(a: string, b: string)
    requires a != b
    ensures Before(a, b) || Before(b, a)
  {
    if a != [] && b != [] && a[0] == b[0] {
      assert a[1..] != b[1..] by {
        assert a == [a[0]] + a[1..] && b == [b[0]] + b[1..];
      }
      BeforeTotal(a[1..], b[1..]);
    }
  }
}
