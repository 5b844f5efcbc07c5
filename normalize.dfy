/** The two card-name normalisations: the search key of normalizeString and
    normalizeRune (database.go), which keeps a '-' for every character that is
    not a letter or digit, and the price ID of nameToId (prices.go), which keeps
    letters and digits only. */
module Normalize {
  import opened Strings

  // ---------------------------------------------------------------------------
  // Search keys

  /** normalizeRune: lower-case letters and digits stay, upper-case letters are
      lowered, every other character becomes '-'. */
  function NormalizeRune(c: char): (r: char)
    ensures IsLower(r) || IsDigit(r) || r == '-'
    ensures r != '-' <==> IsAlnum(c)
    ensures IsAlnum(c) ==> r == ToLower(c)
  {
    if IsLower(c) || IsDigit(c) then c
    else if IsUpper(c) then ToLower(c)
    else '-'
  }

  /** The key normalizeString produces for s. */
  function Normalized(s: string): (r: string)
    ensures |r| <= |s|
    ensures forall i :: 0 <= i < |r| ==> IsLower(r[i]) || IsDigit(r[i]) || r[i] == '-'
  {
    if s == [] then []
    else
      var init := s[..|s| - 1];
      var c := s[|s| - 1];
      assert s == init + [c];
      if c == '$' then Normalized(init) else Normalized(init) + [NormalizeRune(c)]
  }

  /** normalizeString: the characters of s other than '$', each passed through
      normalizeRune, written to a buffer in order. */
  method NormalizeString(s: string) returns (r: string)
    ensures r == Normalized(s)
  {
    r := [];
    for i := 0 to |s|
      invariant r == Normalized(s[..i])
    {
      assert s[..i + 1][..i] == s[..i];
      if s[i] == '$' {
        continue;
      }
      r := r + [NormalizeRune(s[i])];
    }
    assert s[..|s|] == s;
  }

  lemma NormalizedSnoc(s: string, c: char)
    ensures Normalized(s + [c]) == if c == '$' then Normalized(s) else Normalized(s) + [NormalizeRune(c)]
  {
    assert (s + [c])[..|s|] == s;
  }

  /** Normalisation works character by character: the key of a concatenation is
      the concatenation of the keys. */
  lemma {:induction false} NormalizedAppend(a: string, b: string)
    ensures Normalized(a + b) == Normalized(a) + Normalized(b)
    decreases |b|
  {
    if b != [] {
      var b', c := b[..|b| - 1], b[|b| - 1];
      assert a + b == (a + b') + [c];
      assert b == b' + [c];
      NormalizedAppend(a, b');
      NormalizedSnoc(a + b', c);
      NormalizedSnoc(b', c);
    } else {
      assert a + b == a;
    }
  }

  /** The independent reading of normalizeString: delete every '$', then map
      every remaining character through normalizeRune. */
  lemma {:induction false} NormalizedIsMap(s: string)
    ensures |Normalized(s)| == |RemoveChar(s, '$')| == |s| - multiset(s)['$']
    ensures forall i :: 0 <= i < |Normalized(s)| ==> Normalized(s)[i] == NormalizeRune(RemoveChar(s, '$')[i])
  {
    if s != [] {
      var init, c := s[..|s| - 1], s[|s| - 1];
      NormalizedIsMap(init);
      assert s == init + [c];
      RemoveCharAppend(init, [c], '$');
    }
  }

  /** normalizeString is idempotent: a key is its own key. */
  lemma {:induction false} NormalizedIdempotent(s: string)
    ensures Normalized(Normalized(s)) == Normalized(s)
  {
    if s != [] {
      var init, c := s[..|s| - 1], s[|s| - 1];
      assert s == init + [c];
      NormalizedIdempotent(init);
      if c != '$' {
        NormalizedSnoc(Normalized(init), NormalizeRune(c));
      }
    }
  }

  /** normalizeString ignores case: strings that agree once lower-cased have the
      same key. */
  lemma {:induction false} NormalizedIgnoresCase(a: string, b: string)
    requires ToLowerString(a) == ToLowerString(b)
    ensures Normalized(a) == Normalized(b)
  {
    assert |a| == |ToLowerString(a)| == |b|;
    if a != [] {
      var n := |a| - 1;
      var a', b' := a[..n], b[..n];
      assert ToLowerString(a') == ToLowerString(b') by {
        LowerPrefix(a, n);
        LowerPrefix(b, n);
      }
      assert ToLower(a[n]) == ToLower(b[n]) by {
        assert ToLowerString(a)[n] == ToLowerString(b)[n];
      }
      NormalizedIgnoresCase(a', b');
      SameLower(a[n], b[n]);
    }
  }

  lemma LowerPrefix(a: string, n: nat)
    requires n <= |a|
    ensures ToLowerString(a[..n]) == ToLowerString(a)[..n]
  {
  }

  /** Two characters with the same lower-case form are both '$' or neither,
      keep or drop the same letter or digit, and normalise alike. */
  lemma SameLower(c: char, d: char)
    requires ToLower(c) == ToLower(d)
    ensures c == '$' <==> d == '$'
    ensures IsAlnum(c) <==> IsAlnum(d)
    ensures NormalizeRune(c) == NormalizeRune(d)
  {
  }

  // ---------------------------------------------------------------------------
  // Price IDs

  /** The ID nameToId produces: the letters and digits of the name, lowered. */
  function IdOf(name: string): (id: string)
    ensures |id| <= |name|
    ensures forall i :: 0 <= i < |id| ==> IsLower(id[i]) || IsDigit(id[i])
  {
    if name == [] then []
    else
      var c := name[|name| - 1];
      IdOf(name[..|name| - 1]) + if IsAlnum(c) then [ToLower(c)] else []
  }

  /** nameToId: lowered letters and digits written to a buffer in order. */
  method NameToId(name: string) returns (id: string)
    ensures id == IdOf(name)
  {
    id := [];
    for i := 0 to |name|
      invariant id == IdOf(name[..i])
    {
      assert name[..i + 1][..i] == name[..i];
      if IsAlnum(name[i]) {
        id := id + [ToLower(name[i])];
      }
    }
    assert name[..|name|] == name;
  }

  lemma IdOfSnoc(s: string, c: char)
    ensures IdOf(s + [c]) == IdOf(s) + if IsAlnum(c) then [ToLower(c)] else []
  {
    assert (s + [c])[..|s|] == s;
  }

  lemma {:induction false} IdOfAppend(a: string, b: string)
    ensures IdOf(a + b) == IdOf(a) + IdOf(b)
    decreases |b|
  {
    if b != [] {
      var b', c := b[..|b| - 1], b[|b| - 1];
      assert a + b == (a + b') + [c];
      assert b == b' + [c];
      IdOfAppend(a, b');
      IdOfSnoc(a + b', c);
      IdOfSnoc(b', c);
    } else {
      assert a + b == a;
    }
  }

  /** An ID is its own ID. */
  lemma {:induction false} IdOfIdempotent(name: string)
    ensures IdOf(IdOf(name)) == IdOf(name)
  {
    if name != [] {
      var init, c := name[..|name| - 1], name[|name| - 1];
      IdOfIdempotent(init);
      if IsAlnum(c) {
        assert IdOf(name) == IdOf(init) + [ToLower(c)];
        IdOfSnoc(IdOf(init), ToLower(c));
      } else {
        assert IdOf(name) == IdOf(init);
      }
    }
  }

  /** Characters other than letters and digits never change an ID. */
  lemma {:induction false} IdOfIgnoresPunctuation(a: string, p: string, b: string)
    requires forall i :: 0 <= i < |p| ==> !IsAlnum(p[i])
    ensures IdOf(a + p + b) == IdOf(a + b)
  {
    IdOfAppend(a + p, b);
    IdOfAppend(a, p);
    IdOfAppend(a, b);
    NoAlnumNoId(p);
  }

  lemma {:induction false} NoAlnumNoId(p: string)
    requires forall i :: 0 <= i < |p| ==> !IsAlnum(p[i])
    ensures IdOf(p) == []
  {
    if p != [] {
      NoAlnumNoId(p[..|p| - 1]);
    }
  }

  /** Names that agree once lower-cased have the same ID. */
  lemma {:induction false} IdOfIgnoresCase(a: string, b: string)
    requires ToLowerString(a) == ToLowerString(b)
    ensures IdOf(a) == IdOf(b)
  {
    assert |a| == |ToLowerString(a)| == |b|;
    if a != [] {
      var n := |a| - 1;
      LowerPrefix(a, n);
      LowerPrefix(b, n);
      IdOfIgnoresCase(a[..n], b[..n]);
      SameLower(a[n], b[n]);
    }
  }

  /** The two normalisations agree: deleting the '-' placeholders from a search
      key leaves exactly the price ID. */
  lemma {:induction false} IdOfIsKeyWithoutDashes(s: string)
    ensures IdOf(s) == RemoveChar(Normalized(s), '-')
  {
    if s != [] {
      var init, c := s[..|s| - 1], s[|s| - 1];
      var key := Normalized(init);
      assert s == init + [c];
      IdOfIsKeyWithoutDashes(init);
      IdOfSnoc(init, c);
      NormalizedSnoc(init, c);
      if c != '$' {
        var r := NormalizeRune(c);
        RemoveCharAppend(key, [r], '-');
        assert RemoveChar([r], '-') == if r == '-' then [] else [r];
      }
    }
  }

  /** "Lightning Bolt" and "lightning-bolt" share the ID "lightningbolt". */
  lemma IdExample()
    ensures IdOf("Lightning Bolt") == IdOf("lightning-bolt") == "lightningbolt"
  {
    TitleCaseId();
    DashedId();
  }

  lemma TitleCaseId()
    ensures IdOf("Lightning Bolt") == "lightningbolt"
  {
    CapitalisedId("Lightning", "ightning", 'L');
    CapitalisedId("Bolt", "olt", 'B');
    assert "Lightning Bolt" == "Lightning" + " " + "Bolt";
    IdOfIgnoresPunctuation("Lightning", " ", "Bolt");
    IdOfAppend("Lightning", "Bolt");
  }

  lemma DashedId()
    ensures IdOf("lightning-bolt") == "lightningbolt"
  {
    assert "lightning-bolt" == "lightning" + "-" + "bolt";
    IdOfIgnoresPunctuation("lightning", "-", "bolt");
    IdOfAppend("lightning", "bolt");
    LowerWordIds();
  }

  lemma LowerWordIds()
    ensures IdOf("lightning") == "lightning" && IdOf("bolt") == "bolt"
  {
    LowerAlnumId("lightning");
    LowerAlnumId("bolt");
  }

  /** The ID of a word that starts with a letter or digit starts with it,
      lowered. */
  lemma IdOfLeading(word: string)
    requires word != [] && IsAlnum(word[0])
    ensures IdOf(word) != [] && IdOf(word)[0] == ToLower(word[0])
  {
    assert word == [word[0]] + word[1..];
    IdOfSnoc([], word[0]);
    assert [] + [word[0]] == [word[0]];
    IdOfAppend([word[0]], word[1..]);
  }

  /** Words that start with different capital letters have different IDs. */
  lemma DistinctInitials(a: string, b: string)
    requires a != [] && b != [] && IsUpper(a[0]) && IsUpper(b[0]) && a[0] != b[0]
    ensures IdOf(a) != IdOf(b)
  {
    IdOfLeading(a);
    IdOfLeading(b);
  }

  /** A capital letter followed by lower-case letters has the lowered word as its ID. */
  lemma CapitalisedId(word: string, rest: string, first: char)
    requires IsUpper(first) && word == [first] + rest
    requires forall i :: 0 <= i < |rest| ==> IsLower(rest[i])
    ensures IdOf(word) == [ToLower(first)] + rest
  {
    IdOfSnoc([], first);
    assert [] + [first] == [first];
    LowerAlnumId(rest);
    IdOfAppend([first], rest);
  }

  /** A string of lower-case letters and digits is its own ID. */
  lemma {:induction false} LowerAlnumId(s: string)
    requires forall i :: 0 <= i < |s| ==> IsLower(s[i]) || IsDigit(s[i])
    ensures IdOf(s) == s
  {
    if s != [] {
      LowerAlnumId(s[..|s| - 1]);
      assert s == s[..|s| - 1] + [s[|s| - 1]];
    }
  }
}
